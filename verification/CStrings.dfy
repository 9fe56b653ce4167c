/** NUL-terminated strings. A pointer into one is a position; the position after
    the last character holds the terminating NUL. */
module CStrings {
  const NUL: char := '\0'

  type CString = s: string | NUL !in s witness ""

  function At(s: CString, i: nat): char {
    if i < |s| then s[i] else NUL
  }

  /** The string that starts at `p` in a buffer. */
  function StringAt(buf: seq<char>, p: nat): string
    decreases |buf| - p
  {
    if p >= |buf| || buf[p] == NUL then "" else [buf[p]] + StringAt(buf, p + 1)
  }

  lemma StringAtIs(buf: seq<char>, p: nat, w: string)
    requires p + |w| < |buf| && buf[p..p + |w|] == w && NUL !in w && buf[p + |w|] == NUL
    ensures StringAt(buf, p) == w
    decreases |w|
  {
    if w != "" {
      assert buf[p] == w[0];
      assert buf[p + 1..p + 1 + |w[1..]|] == w[1..];
      StringAtIs(buf, p + 1, w[1..]);
    }
  }
}
