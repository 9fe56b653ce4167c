/** What several parts share. */
module Common {
  /** The first number that does not fit a 32-bit word. */
  const WORD_LIMIT: nat := 0x1_0000_0000

  type Byte = x: int | 0 <= x < 256

  datatype Option<T> = None | Some(value: T)

  function Min(a: int, b: int): int {
    if a < b then a else b
  }

  function Max(a: int, b: int): int {
    if a < b then b else a
  }

  /** All but element `k`. */
  function Omit<T>(s: seq<T>, k: nat): seq<T>
    requires k < |s|
  {
    s[..k] + s[k + 1..]
  }

  lemma OmitAt<T>(s: seq<T>, k: nat)
    requires k < |s| && forall i, j :: 0 <= i < j < |s| ==> s[i] != s[j]
    ensures |Omit(s, k)| == |s| - 1
    ensures forall i :: 0 <= i < |s| - 1 ==> Omit(s, k)[i] == s[if i < k then i else i + 1]
    ensures forall x :: x in Omit(s, k) <==> x in s && x != s[k]
  {
    var r := Omit(s, k);
    forall x | x in s && x != s[k]
      ensures x in r
    {
      var i :| 0 <= i < |s| && s[i] == x;
      assert r[if i < k then i else i - 1] == x;
    }
  }
}
