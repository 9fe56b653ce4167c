/** The regular-expression matcher of grep.c against what its patterns mean. */
module Grep {
  import opened CStrings

  // ------------------------------------------------------------ the meaning

  /** One piece of a pattern: a character, a starred character, or the final `$`. */
  datatype Item = One(c: char) | Many(c: char) | End

  /** The pieces of a pattern from position `i`. A star binds the character before
      it, whatever that is, so `$*` is starred and a first `*` is itself. */
  function Items(re: CString, i: nat): seq<Item>
    decreases |re| - i
  {
    if i >= |re| then []
    else if At(re, i + 1) == '*' then [Many(re[i])] + Items(re, i + 2)
    else if re[i] == '$' && i + 1 == |re| then [End]
    else [One(re[i])] + Items(re, i + 1)
  }

  predicate Accepts(c: char, d: char) {
    c == '.' || c == d
  }

  /** Item `x` covers exactly text[i..j]. */
  ghost predicate Covers(x: Item, text: CString, i: int, j: int) {
    0 <= i <= j <= |text| &&
    match x
    case One(c) => j == i + 1 && Accepts(c, text[i])
    case Many(c) => forall k :: i <= k < j ==> Accepts(c, text[k])
    case End => i == j == |text|
  }

  /** `cuts` divides the text from `t` on into one stretch for each item. */
  ghost predicate Divides(cuts: seq<int>, items: seq<Item>, text: CString, t: int) {
    && |cuts| == |items| + 1 && cuts[0] == t
    && forall k :: 0 <= k < |items| ==> Covers(items[k], text, cuts[k], cuts[k + 1])
  }

  /** The items match some stretch of the text that starts at `t`. */
  ghost predicate Means(items: seq<Item>, text: CString, t: int) {
    exists cuts :: Divides(cuts, items, text, t)
  }

  /** The pattern matches: anywhere in the text, or at its start after a `^`. */
  ghost predicate Matches(re: CString, text: CString) {
    if At(re, 0) == '^' then Means(Items(re, 1), text, 0)
    else exists t :: 0 <= t <= |text| && Means(Items(re, 0), text, t)
  }

  lemma MeansFirst(x: Item, rest: seq<Item>, text: CString, t: int)
    requires Means([x] + rest, text, t)
    ensures exists u :: Covers(x, text, t, u) && Means(rest, text, u)
  {
    var items := [x] + rest;
    var cuts :| Divides(cuts, items, text, t);
    assert Covers(items[0], text, cuts[0], cuts[0 + 1]);
    var u := cuts[1];
    forall k | 0 <= k < |rest|
      ensures Covers(rest[k], text, cuts[1..][k], cuts[1..][k + 1])
    {
      assert Covers(items[k + 1], text, cuts[k + 1], cuts[k + 1 + 1]);
    }
    assert Divides(cuts[1..], rest, text, u);
  }

  lemma MeansThen(x: Item, rest: seq<Item>, text: CString, t: int, u: int)
    requires Covers(x, text, t, u) && Means(rest, text, u)
    ensures Means([x] + rest, text, t)
  {
    var items := [x] + rest;
    var tail :| Divides(tail, rest, text, u);
    var cuts := [t] + tail;
    forall k | 0 <= k < |items|
      ensures Covers(items[k], text, cuts[k], cuts[k + 1])
    {
      if k > 0 {
        assert Covers(rest[k - 1], text, tail[k - 1], tail[k - 1 + 1]);
      }
    }
    assert Divides(cuts, items, text, t);
  }

  lemma MeansNothing(text: CString, t: int)
    ensures Means([], text, t)
  {
    assert Divides([t], [], text, t);
  }

  // ------------------------------------------------------------ the matcher

  method Match(re: CString, text: CString) returns (r: bool)
    ensures r <==> Matches(re, text)
  {
    if At(re, 0) == '^' {
      r := MatchHere(re, 1, text, 0);
      return;
    }
    var t := 0;
    while true
      invariant 0 <= t <= |text|
      invariant forall u :: 0 <= u < t ==> !Means(Items(re, 0), text, u)
      decreases |text| - t
    {
      r := MatchHere(re, 0, text, t);
      if r {
        return;
      }
      if At(text, t) == NUL {
        return;
      }
      t := t + 1;
    }
  }

  method MatchHere(re: CString, i: nat, text: CString, t: nat) returns (r: bool)
    requires i <= |re| && t <= |text|
    ensures r <==> Means(Items(re, i), text, t)
    decreases |re| - i, 0
  {
    if At(re, i) == NUL {
      MeansNothing(text, t);
      return true;
    }
    if At(re, i + 1) == '*' {
      r := MatchStar(re[i], re, i + 2, text, t);
      return;
    }
    if re[i] == '$' && At(re, i + 1) == NUL {
      r := At(text, t) == NUL;
      EndMeans(text, t);
      return;
    }
    ghost var x, rest := One(re[i]), Items(re, i + 1);
    if At(text, t) != NUL && (re[i] == '.' || re[i] == text[t]) {
      r := MatchHere(re, i + 1, text, t + 1);
      if r {
        MeansThen(x, rest, text, t, t + 1);
      }
    } else {
      r := false;
    }
    if Means([x] + rest, text, t) {
      MeansFirst(x, rest, text, t);
    }
  }

  lemma EndMeans(text: CString, t: nat)
    requires t <= |text|
    ensures Means([End], text, t) <==> t == |text|
  {
    if t == |text| {
      MeansNothing(text, t);
      MeansThen(End, [], text, t, t);
      assert [End] + [] == [End];
    }
    if Means([End], text, t) {
      assert [End] + [] == [End];
      MeansFirst(End, [], text, t);
    }
  }

  method MatchStar(c: char, re: CString, i: nat, text: CString, t: nat) returns (r: bool)
    requires i <= |re| && t <= |text|
    ensures r <==> Means([Many(c)] + Items(re, i), text, t)
    decreases |re| - i, 1
  {
    ghost var x, rest := Many(c), Items(re, i);
    var u := t;
    while true
      invariant t <= u <= |text| && Covers(x, text, t, u)
      invariant forall v :: t <= v < u ==> !Means(rest, text, v)
      decreases |text| - u
    {
      r := MatchHere(re, i, text, u);
      if r {
        MeansThen(x, rest, text, t, u);
        return;
      }
      if !(At(text, u) != NUL && (text[u] == c || c == '.')) {
        break;
      }
      u := u + 1;
    }
    if Means([x] + rest, text, t) {
      MeansFirst(x, rest, text, t);
    }
  }
}
