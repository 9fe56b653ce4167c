/** The shell's command language by what may be written, apart from how sh.c parses
    it: derivations, the tokens each of them writes and the tree it stands for. The
    parser accepts exactly what some derivation writes. */
module ShellSyntax {
  import opened ShellGrammar

  /** A part of a simple command: an argument, or a redirection by `<`, `>` or `>>`
      (the token `+`). */
  datatype Part = Arg(w: string) | To(c: char, w: string)

  /** A command is a list of parts or a line in parentheses with redirections behind it;
      a pipeline is commands with `|` between them; a line is pipelines with any number
      of `&` behind each and `;` between them. */
  datatype Comm = Plain(parts: seq<Part>) | Group(line: Lines, tos: seq<Part>)
  datatype Pipes = Last(c: Comm) | Then(c: Comm, next: Pipes)
  datatype Lines = One(p: Pipes, ands: nat) | More(p: Pipes, ands: nat, next: Lines)

  // --------------------------------------------------------- what is allowed

  predicate PartOk(p: Part) {
    p.To? ==> p.c == '<' || p.c == '>' || p.c == '+'
  }

  function ArgOf(p: Part): seq<string> {
    if p.Arg? then [p.w] else []
  }

  function ArgsOf(parts: seq<Part>): seq<string> {
    if parts == [] then [] else ArgOf(parts[0]) + ArgsOf(parts[1..])
  }

  predicate CommOk(c: Comm) {
    match c
    case Plain(parts) => (forall i :: 0 <= i < |parts| ==> PartOk(parts[i])) && |ArgsOf(parts)| < MAXARGS
    case Group(line, tos) => LinesOk(line) && forall i :: 0 <= i < |tos| ==> tos[i].To? && PartOk(tos[i])
  }

  predicate PipesOk(p: Pipes) {
    CommOk(p.c) && (p.Then? ==> PipesOk(p.next))
  }

  predicate LinesOk(l: Lines) {
    PipesOk(l.p) && (l.More? ==> LinesOk(l.next))
  }

  // -------------------------------------------------------- what it writes

  function PartToken(p: Part): seq<Token> {
    if p.Arg? then [Word(p.w)] else [Sym(p.c), Word(p.w)]
  }

  function PartTokens(parts: seq<Part>): seq<Token> {
    if parts == [] then [] else PartToken(parts[0]) + PartTokens(parts[1..])
  }

  function CommTokens(c: Comm): seq<Token> {
    match c
    case Plain(parts) => PartTokens(parts)
    case Group(line, tos) => [Sym('(')] + LinesTokens(line) + [Sym(')')] + PartTokens(tos)
  }

  function PipesTokens(p: Pipes): seq<Token> {
    match p
    case Last(c) => CommTokens(c)
    case Then(c, next) => CommTokens(c) + [Sym('|')] + PipesTokens(next)
  }

  function Ands(n: nat): seq<Token> {
    seq(n, _ => Sym('&'))
  }

  function LinesTokens(l: Lines): seq<Token> {
    match l
    case One(p, ands) => PipesTokens(p) + Ands(ands)
    case More(p, ands, next) => PipesTokens(p) + Ands(ands) + [Sym(';')] + LinesTokens(next)
  }

  // ------------------------------------------------------ what it stands for

  /** The redirections among `parts` around `c`, the last one outermost. */
  function Around(c: Cmd<string>, parts: seq<Part>): Cmd<string> {
    if parts == [] then c
    else
      var inner, p := Around(c, parts[..|parts| - 1]), parts[|parts| - 1];
      if p.Arg? then inner else Redir(inner, Target(p.w, if p.c == '<' then In else Out))
  }

  function CommTree(c: Comm): Cmd<string> {
    match c
    case Plain(parts) => Around(Exec(ArgsOf(parts)), parts)
    case Group(line, tos) => Around(LinesTree(line), tos)
  }

  function PipesTree(p: Pipes): Cmd<string> {
    match p
    case Last(c) => CommTree(c)
    case Then(c, next) => Pipe(CommTree(c), PipesTree(next))
  }

  function InBack(c: Cmd<string>, n: nat): Cmd<string> {
    if n == 0 then c else Back(InBack(c, n - 1))
  }

  function LinesTree(l: Lines): Cmd<string> {
    match l
    case One(p, ands) => InBack(PipesTree(p), ands)
    case More(p, ands, next) => List(InBack(PipesTree(p), ands), LinesTree(next))
  }

  /** `ts` may be written for `t`. */
  ghost predicate Writes(ts: seq<Token>, t: Cmd<string>) {
    exists l: Lines :: LinesOk(l) && LinesTokens(l) == ts && LinesTree(l) == t
  }

  // ------------------------------------------------- the parser keeps to it

  function TargetOf(p: Part): seq<Target<string>> {
    if p.Arg? then [] else [Target(p.w, if p.c == '<' then In else Out)]
  }

  function TargetsOf(parts: seq<Part>): seq<Target<string>> {
    if parts == [] then [] else TargetOf(parts[0]) + TargetsOf(parts[1..])
  }

  lemma Assoc<T>(a: seq<T>, b: seq<T>, c: seq<T>)
    ensures a + b + c == a + (b + c)
  {
  }

  /** One part in front. */
  lemma Front(p: Part, parts: seq<Part>)
    ensures ArgsOf([p] + parts) == ArgOf(p) + ArgsOf(parts)
    ensures TargetsOf([p] + parts) == TargetOf(p) + TargetsOf(parts)
    ensures PartTokens([p] + parts) == PartToken(p) + PartTokens(parts)
  {
    assert ([p] + parts)[1..] == parts;
  }

  lemma NoParts()
    ensures ArgsOf([]) == [] && TargetsOf([]) == [] && PartTokens([]) == []
  {
  }

  lemma {:induction false} PartsJoin(a: seq<Part>, b: seq<Part>)
    ensures ArgsOf(a + b) == ArgsOf(a) + ArgsOf(b)
    ensures TargetsOf(a + b) == TargetsOf(a) + TargetsOf(b)
    ensures PartTokens(a + b) == PartTokens(a) + PartTokens(b)
    decreases |a|
  {
    hide ArgsOf, TargetsOf, PartTokens, ArgOf, TargetOf, PartToken;
    if a == [] {
      NoParts();
      assert a + b == b;
    } else {
      PartsJoin(a[1..], b);
      Front(a[0], a[1..]);
      Front(a[0], a[1..] + b);
      assert a == [a[0]] + a[1..] && a + b == [a[0]] + (a[1..] + b);
      Assoc(ArgOf(a[0]), ArgsOf(a[1..]), ArgsOf(b));
      Assoc(TargetOf(a[0]), TargetsOf(a[1..]), TargetsOf(b));
      Assoc(PartToken(a[0]), PartTokens(a[1..]), PartTokens(b));
    }
  }

  /** Wrapping redirections from the inside out is putting them around from the outside
      in. */
  lemma {:induction false} AroundIsWrap(c: Cmd<string>, parts: seq<Part>)
    ensures Around(c, parts) == Wrap(c, TargetsOf(parts))
    decreases |parts|
  {
    hide TargetsOf, Wrap, ArgsOf, PartTokens;
    NoParts();
    WrapNothing(c);
    if parts != [] {
      var n := |parts| - 1;
      var most, last := parts[..n], parts[n];
      AroundIsWrap(c, most);
      PartsJoin(most, [last]);
      Front(last, []);
      assert most + [last] == parts && [last] + [] == [last];
      assert TargetsOf([last]) == TargetOf(last);
      if last.To? {
        WrapLast(c, TargetsOf(most), TargetOf(last)[0]);
      } else {
        assert TargetsOf(parts) == TargetsOf(most);
      }
    }
  }

  lemma WrapNothing(c: Cmd<string>)
    ensures Wrap(c, []) == c
  {
  }

  lemma {:induction false} RedirsSound(ts: seq<Token>) returns (tos: seq<Part>)
    requires Redirs(ts).Ok?
    ensures (forall i :: 0 <= i < |tos| ==> tos[i].To? && PartOk(tos[i])) && ArgsOf(tos) == []
    ensures PartTokens(tos) + Redirs(ts).rest == ts && TargetsOf(tos) == Redirs(ts).value
    decreases |ts|
  {
    hide ArgsOf, TargetsOf, PartTokens;
    if !StartsRedir(ts) {
      tos := [];
      NoParts();
    } else {
      var more := RedirsSound(ts[2..]);
      var to := To(ts[0].c, ts[1].w);
      tos := [to] + more;
      Front(to, more);
      assert ts == PartToken(to) + ts[2..];
      Assoc(PartToken(to), PartTokens(more), Redirs(ts).rest);
    }
  }

  lemma {:induction false} ArgsSound(argv: seq<string>, rs: seq<Target<string>>, ts: seq<Token>) returns (parts: seq<Part>)
    requires Args(argv, rs, ts).Ok? && |argv| < MAXARGS
    ensures forall i :: 0 <= i < |parts| ==> PartOk(parts[i])
    ensures |argv| + |ArgsOf(parts)| < MAXARGS
    ensures var r := Args(argv, rs, ts);
            && PartTokens(parts) + r.rest == ts && Stops(r.rest)
            && r.value == Wrap(Exec(argv + ArgsOf(parts)), rs + TargetsOf(parts))
    decreases |ts|
  {
    hide Args, Wrap, ArgsOf, TargetsOf, PartTokens, Redirs;
    ArgsStep(argv, rs, ts);
    if Stops(ts) {
      parts := [];
      NoParts();
      assert argv + [] == argv && rs + [] == rs && [] + ts == ts;
    } else {
      var tos := RedirsSound(ts[1..]);
      var r := Redirs(ts[1..]);
      var more := ArgsSound(argv + [ts[0].w], rs + r.value, r.rest);
      parts := [Arg(ts[0].w)] + (tos + more);
      PartsJoin(tos, more);
      Front(Arg(ts[0].w), tos + more);
      assert [] + ArgsOf(more) == ArgsOf(more) && [] + TargetsOf(tos + more) == TargetsOf(tos + more);
      Assoc(argv, [ts[0].w], ArgsOf(more));
      Assoc(rs, r.value, TargetsOf(more));
      ArgTokens(ts, tos, more, r.rest, Args(argv, rs, ts).rest);
    }
  }

  lemma ArgTokens(ts: seq<Token>, tos: seq<Part>, more: seq<Part>, a: seq<Token>, rest: seq<Token>)
    requires ts != [] && ts[0].Word? && PartTokens(tos) + a == ts[1..] && PartTokens(more) + rest == a
    ensures PartTokens([Arg(ts[0].w)] + (tos + more)) + rest == ts
  {
    hide PartTokens, ArgsOf, TargetsOf;
    PartsJoin(tos, more);
    Front(Arg(ts[0].w), tos + more);
    assert ts == [ts[0]] + ts[1..];
  }

  lemma SimpleSound(ts: seq<Token>) returns (c: Comm)
    requires Simple(ts).Ok?
    ensures CommOk(c) && CommTokens(c) + Simple(ts).rest == ts && CommTree(c) == Simple(ts).value
  {
    hide Args, Wrap, ArgsOf, TargetsOf, PartTokens, Around, Redirs;
    var tos := RedirsSound(ts);
    var r := Redirs(ts);
    var more := ArgsSound([], r.value, r.rest);
    PartsJoin(tos, more);
    c := Plain(tos + more);
    AroundIsWrap(Exec(ArgsOf(tos + more)), tos + more);
    assert [] + ArgsOf(more) == ArgsOf(more) == ArgsOf(tos + more);
    Assoc(PartTokens(tos), PartTokens(more), Simple(ts).rest);
  }

  lemma {:induction false} CommSound(ts: seq<Token>) returns (c: Comm)
    requires Command(ts).Ok?
    ensures CommOk(c) && CommTokens(c) + Command(ts).rest == ts && CommTree(c) == Command(ts).value
    decreases |ts|, 1
  {
    if StartsWith(ts, '(') {
      c := GroupSound(ts);
    } else {
      c := SimpleSound(ts);
    }
  }

  lemma {:induction false} GroupSound(ts: seq<Token>) returns (c: Comm)
    requires StartsWith(ts, '(') && Block(ts).Ok?
    ensures CommOk(c) && CommTokens(c) + Block(ts).rest == ts && CommTree(c) == Block(ts).value
    decreases |ts|, 0
  {
    var l := Line(ts[1..]);
    var line := LinesSound(ts[1..]);
    hide Line, Wrap, LinesTokens, LinesTree, LinesOk, Around, Redirs, ArgsOf, TargetsOf, PartTokens, CommTokens;
    var tos := RedirsSound(l.rest[1..]);
    c := Group(line, tos);
    AroundIsWrap(LinesTree(line), tos);
    GroupTokens(ts, line, tos, l.rest, Redirs(l.rest[1..]).rest);
  }

  lemma GroupTokens(ts: seq<Token>, line: Lines, tos: seq<Part>, close: seq<Token>, rest: seq<Token>)
    requires StartsWith(ts, '(') && LinesTokens(line) + close == ts[1..] && StartsWith(close, ')') && PartTokens(tos) + rest == close[1..]
    ensures CommTokens(Group(line, tos)) + rest == ts
  {
    hide LinesTokens, PartTokens;
    assert ts == [ts[0]] + ts[1..] && close == [close[0]] + close[1..];
  }

  lemma {:induction false} PipesSound(ts: seq<Token>) returns (p: Pipes)
    requires Pipeline(ts).Ok?
    ensures PipesOk(p) && PipesTokens(p) + Pipeline(ts).rest == ts && PipesTree(p) == Pipeline(ts).value
    decreases |ts|, 2
  {
    var c := CommSound(ts);
    var r := Command(ts);
    hide Command, CommTokens, CommTree, CommOk, PipesTokens;
    LastTokens(c);
    if StartsWith(r.rest, '|') {
      var next := PipesSound(r.rest[1..]);
      p := Then(c, next);
      ThenTokens(ts, c, next, r.rest, Pipeline(r.rest[1..]).rest);
    } else {
      p := Last(c);
    }
  }

  lemma {:induction false} AndsSound(c: Cmd<string>, ts: seq<Token>) returns (n: nat)
    ensures var r := Backs(c, ts); Ands(n) + r.1 == ts && InBack(c, n) == r.0 && !StartsWith(r.1, '&')
    decreases |ts|
  {
    if StartsWith(ts, '&') {
      var m := AndsSound(Back(c), ts[1..]);
      n := m + 1;
      InBackInside(c, m);
      assert ts == [ts[0]] + ts[1..] && Ands(n) == [Sym('&')] + Ands(m);
    } else {
      n := 0;
    }
  }

  lemma {:induction false} InBackInside(c: Cmd<string>, n: nat)
    ensures InBack(Back(c), n) == InBack(c, n + 1)
  {
    if n > 0 {
      InBackInside(c, n - 1);
    }
  }

  lemma {:induction false} LinesSound(ts: seq<Token>) returns (l: Lines)
    requires Line(ts).Ok?
    ensures LinesOk(l) && LinesTokens(l) + Line(ts).rest == ts && LinesTree(l) == Line(ts).value
    decreases |ts|, 3
  {
    var p := PipesSound(ts);
    var r := Pipeline(ts);
    var n := AndsSound(r.value, r.rest);
    var b := Backs(r.value, r.rest);
    hide Pipeline, PipesTokens, PipesTree, PipesOk, Backs, Ands, InBack, LinesTokens;
    if StartsWith(b.1, ';') {
      var next := LinesSound(b.1[1..]);
      l := More(p, n, next);
      MoreTokens(ts, p, n, next, r.rest, b.1, Line(b.1[1..]).rest);
    } else {
      l := One(p, n);
      OneTokens(ts, p, n, r.rest, b.1);
    }
  }

  lemma OneTokens(ts: seq<Token>, p: Pipes, n: nat, a: seq<Token>, b: seq<Token>)
    requires PipesTokens(p) + a == ts && Ands(n) + b == a
    ensures LinesTokens(One(p, n)) + b == ts
  {
    hide PipesTokens, Ands;
  }

  lemma MoreTokens(ts: seq<Token>, p: Pipes, n: nat, next: Lines, a: seq<Token>, b: seq<Token>, rest: seq<Token>)
    requires PipesTokens(p) + a == ts && Ands(n) + b == a && StartsWith(b, ';') && LinesTokens(next) + rest == b[1..]
    ensures LinesTokens(More(p, n, next)) + rest == ts
  {
    var t := LinesTokens(next);
    assert LinesTokens(More(p, n, next)) == PipesTokens(p) + Ands(n) + [Sym(';')] + t;
    hide PipesTokens, Ands, LinesTokens;
    assert b == [Sym(';')] + b[1..];
  }

  lemma LastTokens(c: Comm)
    ensures PipesTokens(Last(c)) == CommTokens(c)
  {
  }

  lemma ThenTokens(ts: seq<Token>, c: Comm, next: Pipes, a: seq<Token>, rest: seq<Token>)
    requires CommTokens(c) + a == ts && StartsWith(a, '|') && PipesTokens(next) + rest == a[1..]
    ensures PipesTokens(Then(c, next)) + rest == ts
  {
    var t := PipesTokens(next);
    assert PipesTokens(Then(c, next)) == CommTokens(c) + [Sym('|')] + t;
    hide PipesTokens, CommTokens;
    assert a == [Sym('|')] + a[1..];
  }

  // ---------------------------------------------- and accepts all of it

  ghost predicate PartsOk(parts: seq<Part>) {
    forall i :: 0 <= i < |parts| ==> PartOk(parts[i])
  }

  /** How many redirections come first. */
  function Leading(parts: seq<Part>): (k: nat)
    ensures k <= |parts| && (k < |parts| ==> parts[k].Arg?) && forall i :: 0 <= i < k ==> parts[i].To?
  {
    if parts == [] || parts[0].Arg? then 0 else 1 + Leading(parts[1..])
  }

  lemma RedirsStep(ts: seq<Token>)
    ensures !StartsRedir(ts) ==> Redirs(ts) == Ok([], ts)
    ensures StartsRedir(ts) && |ts| >= 2 && ts[1].Word? && Redirs(ts[2..]).Ok? ==>
              Redirs(ts) == Ok([Target(ts[1].w, if ts[0].c == '<' then In else Out)] + Redirs(ts[2..]).value, Redirs(ts[2..]).rest)
  {
  }

  lemma {:induction false} RedirsComplete(parts: seq<Part>, rest: seq<Token>)
    requires PartsOk(parts) && Stops(rest)
    ensures var k := Leading(parts);
            && Redirs(PartTokens(parts) + rest) == Ok(TargetsOf(parts[..k]), PartTokens(parts[k..]) + rest)
            && ArgsOf(parts[..k]) == []
    decreases |parts|
  {
    hide ArgsOf, TargetsOf, PartTokens, Redirs;
    NoParts();
    var k, ts := Leading(parts), PartTokens(parts) + rest;
    RedirsStep(ts);
    if parts == [] {
      assert ts == rest;
    } else {
      var p, more := parts[0], parts[1..];
      Front(p, more);
      assert parts == [p] + more;
      Assoc(PartToken(p), PartTokens(more), rest);
      if p.Arg? {
        assert ts[0] == Word(p.w) && parts[k..] == parts;
      } else {
        RedirsComplete(more, rest);
        assert ts[0] == Sym(p.c) && ts[1] == Word(p.w) && ts[2..] == PartTokens(more) + rest;
        assert parts[k..] == more[k - 1..] && parts[..k] == [p] + more[..k - 1];
        Front(p, more[..k - 1]);
        assert ArgOf(p) == [] && TargetOf(p) == [Target(p.w, if p.c == '<' then In else Out)];
      }
    }
  }

  lemma {:induction false} ArgsComplete(argv: seq<string>, rs: seq<Target<string>>, parts: seq<Part>, rest: seq<Token>)
    requires PartsOk(parts) && Stops(rest) && (parts == [] || parts[0].Arg?) && |argv| + |ArgsOf(parts)| < MAXARGS
    ensures Args(argv, rs, PartTokens(parts) + rest) == Ok(Wrap(Exec(argv + ArgsOf(parts)), rs + TargetsOf(parts)), rest)
    decreases |parts|
  {
    hide Args, Wrap, ArgsOf, TargetsOf, PartTokens, Redirs;
    NoParts();
    var ts := PartTokens(parts) + rest;
    ArgsStep(argv, rs, ts);
    if parts == [] {
      assert ts == rest && argv + [] == argv && rs + [] == rs;
    } else {
      var w, k := parts[0].w, Leading(parts[1..]);
      var tos, others := parts[1..][..k], parts[1..][k..];
      ArgFirst(parts, rest);
      ArgsComplete(argv + [w], rs + TargetsOf(tos), others, rest);
      Assoc(argv, [w], ArgsOf(others));
      Assoc(rs, TargetsOf(tos), TargetsOf(others));
    }
  }

  /** An argument, the redirections behind it, and the other parts. */
  lemma ArgFirst(parts: seq<Part>, rest: seq<Token>)
    requires PartsOk(parts) && Stops(rest) && parts != [] && parts[0].Arg?
    ensures var ts, k := PartTokens(parts) + rest, Leading(parts[1..]);
            var tos, others := parts[1..][..k], parts[1..][k..];
            && ts != [] && ts[0] == Word(parts[0].w) && Redirs(ts[1..]) == Ok(TargetsOf(tos), PartTokens(others) + rest)
            && ArgsOf(parts) == [parts[0].w] + ArgsOf(others) && TargetsOf(parts) == TargetsOf(tos) + TargetsOf(others)
  {
    hide ArgsOf, TargetsOf, PartTokens, Redirs;
    var more := parts[1..];
    var tos, others := more[..Leading(more)], more[Leading(more)..];
    assert parts == [parts[0]] + more && more == tos + others;
    Front(parts[0], more);
    PartsJoin(tos, others);
    Assoc(PartToken(parts[0]), PartTokens(more), rest);
    assert (PartTokens(parts) + rest)[1..] == PartTokens(more) + rest;
    RedirsComplete(more, rest);
    assert [] + ArgsOf(others) == ArgsOf(others) && [] + TargetsOf(more) == TargetsOf(more);
  }

  lemma SimpleComplete(parts: seq<Part>, rest: seq<Token>)
    requires CommOk(Plain(parts)) && Stops(rest)
    ensures Command(CommTokens(Plain(parts)) + rest) == Ok(CommTree(Plain(parts)), rest)
  {
    hide Args, Wrap, ArgsOf, TargetsOf, PartTokens, Redirs, Around, Block;
    var ts, k := PartTokens(parts) + rest, Leading(parts);
    var tos, others := parts[..k], parts[k..];
    assert parts == tos + others;
    PartsJoin(tos, others);
    RedirsComplete(parts, rest);
    assert [] + ArgsOf(others) == ArgsOf(others);
    ArgsComplete([], TargetsOf(tos), others, rest);
    AroundIsWrap(Exec(ArgsOf(parts)), parts);
    PlainStart(parts, rest);
  }

  lemma PlainStart(parts: seq<Part>, rest: seq<Token>)
    requires PartsOk(parts) && Stops(rest)
    ensures !StartsWith(PartTokens(parts) + rest, '(')
  {
    if parts == [] {
      assert PartTokens(parts) + rest == rest;
    } else {
      assert (PartTokens(parts) + rest)[0] == PartToken(parts[0])[0];
    }
  }

  lemma {:induction false} CommComplete(c: Comm, rest: seq<Token>)
    requires CommOk(c) && Stops(rest)
    ensures Command(CommTokens(c) + rest) == Ok(CommTree(c), rest)
    decreases c
  {
    match c
    case Plain(parts) => SimpleComplete(parts, rest);
    case Group(line, tos) =>
      var after := [Sym(')')] + (PartTokens(tos) + rest);
      LinesComplete(line, after);
      GroupComplete(line, tos, rest);
  }

  lemma GroupStep(ts: seq<Token>)
    ensures StartsWith(ts, '(') && Line(ts[1..]).Ok? && StartsWith(Line(ts[1..]).rest, ')') && Redirs(Line(ts[1..]).rest[1..]).Ok? ==>
              var l := Line(ts[1..]);
              Command(ts) == Ok(Wrap(l.value, Redirs(l.rest[1..]).value), Redirs(l.rest[1..]).rest)
  {
    hide Line, Redirs, Wrap;
  }

  lemma GroupComplete(line: Lines, tos: seq<Part>, rest: seq<Token>)
    requires CommOk(Group(line, tos)) && Stops(rest)
    requires var after := [Sym(')')] + (PartTokens(tos) + rest); Line(LinesTokens(line) + after) == Ok(LinesTree(line), after)
    ensures Command(CommTokens(Group(line, tos)) + rest) == Ok(CommTree(Group(line, tos)), rest)
  {
    hide Line, Command, Wrap, LinesTokens, LinesTree, LinesOk, Around, Redirs, ArgsOf, TargetsOf, PartTokens;
    var inner, after := LinesTokens(line), [Sym(')')] + (PartTokens(tos) + rest);
    var ts := CommTokens(Group(line, tos)) + rest;
    Assoc([Sym('(')] + inner, [Sym(')')], PartTokens(tos));
    Assoc([Sym('(')] + inner, [Sym(')')] + PartTokens(tos), rest);
    Assoc([Sym(')')], PartTokens(tos), rest);
    Assoc([Sym('(')], inner, after);
    assert ts[1..] == inner + after && after[1..] == PartTokens(tos) + rest;
    GroupStep(ts);
    RedirsComplete(tos, rest);
    var k := Leading(tos);
    assert k == |tos| && tos[..k] == tos && tos[k..] == [];
    NoParts();
    assert [] + rest == rest;
    AroundIsWrap(LinesTree(line), tos);
  }

  lemma {:induction false} PipesComplete(p: Pipes, rest: seq<Token>)
    requires PipesOk(p) && Stops(rest) && !StartsWith(rest, '|')
    ensures Pipeline(PipesTokens(p) + rest) == Ok(PipesTree(p), rest)
    decreases p
  {
    if p.Then? {
      var after := [Sym('|')] + (PipesTokens(p.next) + rest);
      CommComplete(p.c, after);
      PipesComplete(p.next, rest);
      ThenComplete(p.c, p.next, rest);
    } else {
      CommComplete(p.c, rest);
      hide Command, CommTokens, CommTree;
    }
  }

  lemma ThenComplete(c: Comm, next: Pipes, rest: seq<Token>)
    requires var after := [Sym('|')] + (PipesTokens(next) + rest); Command(CommTokens(c) + after) == Ok(CommTree(c), after)
    requires Pipeline(PipesTokens(next) + rest) == Ok(PipesTree(next), rest)
    ensures Pipeline(PipesTokens(Then(c, next)) + rest) == Ok(PipesTree(Then(c, next)), rest)
  {
    hide Command, Pipeline, CommTokens, CommTree, PipesTokens;
    var t, after := PipesTokens(next), [Sym('|')] + (PipesTokens(next) + rest);
    ThenIs(c, next);
    Assoc(CommTokens(c), [Sym('|')], t);
    Assoc(CommTokens(c), [Sym('|')] + t, rest);
    Assoc([Sym('|')], t, rest);
    assert after[1..] == t + rest;
    PipelineStep(PipesTokens(Then(c, next)) + rest, CommTree(c), after);
  }

  lemma ThenIs(c: Comm, next: Pipes)
    ensures PipesTokens(Then(c, next)) == CommTokens(c) + [Sym('|')] + PipesTokens(next)
  {
  }

  lemma PipelineStep(ts: seq<Token>, c: Cmd<string>, rest: seq<Token>)
    requires Command(ts) == Ok(c, rest)
    ensures !StartsWith(rest, '|') ==> Pipeline(ts) == Ok(c, rest)
    ensures StartsWith(rest, '|') && Pipeline(rest[1..]).Ok? ==>
              Pipeline(ts) == Ok(Pipe(c, Pipeline(rest[1..]).value), Pipeline(rest[1..]).rest)
  {
    hide Command;
  }

  lemma {:induction false} AndsComplete(c: Cmd<string>, n: nat, rest: seq<Token>)
    requires !StartsWith(rest, '&')
    ensures Backs(c, Ands(n) + rest) == (InBack(c, n), rest)
    decreases n
  {
    if n == 0 {
      assert Ands(0) + rest == rest;
    } else {
      var ts := Ands(n) + rest;
      assert ts[0] == Sym('&') && ts[1..] == Ands(n - 1) + rest;
      AndsComplete(Back(c), n - 1, rest);
      InBackInside(c, n - 1);
    }
  }

  lemma {:induction false} LinesComplete(l: Lines, rest: seq<Token>)
    requires LinesOk(l) && (rest == [] || StartsWith(rest, ')'))
    ensures Line(LinesTokens(l) + rest) == Ok(LinesTree(l), rest)
    decreases l
  {
    var after := if l.One? then rest else [Sym(';')] + (LinesTokens(l.next) + rest);
    if l.More? {
      LinesComplete(l.next, rest);
    }
    AndsStop(l.ands, after);
    PipesComplete(l.p, Ands(l.ands) + after);
    AndsComplete(PipesTree(l.p), l.ands, after);
    LineOfParts(l, rest, after);
  }

  lemma AndsStop(n: nat, after: seq<Token>)
    requires Stops(after) && !StartsWith(after, '|')
    ensures Stops(Ands(n) + after) && !StartsWith(Ands(n) + after, '|')
  {
    if n == 0 {
      assert Ands(n) + after == after;
    } else {
      assert (Ands(n) + after)[0] == Sym('&');
    }
  }

  lemma LineOfParts(l: Lines, rest: seq<Token>, after: seq<Token>)
    requires after == if l.One? then rest else [Sym(';')] + (LinesTokens(l.next) + rest)
    requires rest == [] || StartsWith(rest, ')')
    requires Pipeline(PipesTokens(l.p) + (Ands(l.ands) + after)) == Ok(PipesTree(l.p), Ands(l.ands) + after)
    requires Backs(PipesTree(l.p), Ands(l.ands) + after) == (InBack(PipesTree(l.p), l.ands), after)
    requires l.More? ==> Line(LinesTokens(l.next) + rest) == Ok(LinesTree(l.next), rest)
    ensures Line(LinesTokens(l) + rest) == Ok(LinesTree(l), rest)
  {
    hide Line, Pipeline, PipesTokens, PipesTree, Backs, Ands, InBack, LinesTokens, LinesTree;
    LinesAre(l, rest, after);
    LineStep(LinesTokens(l) + rest, PipesTree(l.p), Ands(l.ands) + after);
  }

  lemma LineStep(ts: seq<Token>, c: Cmd<string>, rest: seq<Token>)
    requires Pipeline(ts) == Ok(c, rest)
    ensures var b := Backs(c, rest);
            && (!StartsWith(b.1, ';') ==> Line(ts) == Ok(b.0, b.1))
            && (StartsWith(b.1, ';') && Line(b.1[1..]).Ok? ==>
                  Line(ts) == Ok(List(b.0, Line(b.1[1..]).value), Line(b.1[1..]).rest))
  {
    hide Pipeline, Backs;
  }

  /** A line's tokens and tree by its first pipeline and the rest. */
  lemma LinesAre(l: Lines, rest: seq<Token>, after: seq<Token>)
    requires after == if l.One? then rest else [Sym(';')] + (LinesTokens(l.next) + rest)
    ensures LinesTokens(l) + rest == PipesTokens(l.p) + (Ands(l.ands) + after)
    ensures l.More? ==> after[1..] == LinesTokens(l.next) + rest && StartsWith(after, ';')
    ensures LinesTree(l) == if l.One? then InBack(PipesTree(l.p), l.ands) else List(InBack(PipesTree(l.p), l.ands), LinesTree(l.next))
  {
    var a, b := PipesTokens(l.p), Ands(l.ands);
    hide PipesTokens, PipesTree, Ands, InBack;
    if l.One? {
      Assoc(a, b, rest);
    } else {
      var t := LinesTokens(l.next);
      assert LinesTokens(l) == a + b + [Sym(';')] + t;
      Assoc(a + b, [Sym(';')], t);
      Assoc(a + b, [Sym(';')] + t, rest);
      Assoc([Sym(';')], t, rest);
      Assoc(a, b, after);
    }
  }

  /** The parser accepts a token list exactly if it may be written, and the tree it
      makes is one the list may be written for: the only one. */
  lemma ParsesExactly(ts: seq<Token>, t: Cmd<string>)
    ensures Whole(ts) == Ok(t, []) <==> Writes(ts, t)
  {
    if Whole(ts) == Ok(t, []) {
      var l := LinesSound(ts);
      assert LinesTokens(l) + [] == LinesTokens(l);
    }
    forall l: Lines | LinesOk(l) && LinesTokens(l) == ts && LinesTree(l) == t
      ensures Whole(ts) == Ok(t, [])
    {
      LinesComplete(l, []);
      assert ts + [] == ts;
    }
  }

  // ------------------------------------------- parentheses and words

  /** With `d` parentheses open, every one is closed in the end and none that is not
      open. */
  predicate Balances(ts: seq<Token>, d: nat) {
    if ts == [] then d == 0
    else if ts[0] == Sym('(') then Balances(ts[1..], d + 1)
    else if ts[0] == Sym(')') then d > 0 && Balances(ts[1..], d - 1)
    else Balances(ts[1..], d)
  }

  function WordsIn(ts: seq<Token>): nat {
    if ts == [] then 0 else (if ts[0].Word? then 1 else 0) + WordsIn(ts[1..])
  }

  /** The words of a tree, files of redirections included. */
  function WordsOf(t: Cmd<string>): nat {
    match t
    case Exec(argv) => |argv|
    case Redir(c, _) => WordsOf(c) + 1
    case Pipe(l, r) => WordsOf(l) + WordsOf(r)
    case List(l, r) => WordsOf(l) + WordsOf(r)
    case Back(c) => WordsOf(c)
  }

  lemma {:induction false} WordsJoin(a: seq<Token>, b: seq<Token>)
    ensures WordsIn(a + b) == WordsIn(a) + WordsIn(b)
    decreases |a|
  {
    if a == [] {
      assert a + b == b;
    } else {
      assert (a + b)[1..] == a[1..] + b;
      WordsJoin(a[1..], b);
    }
  }

  /** Tokens that are balanced on their own change nothing for what follows. */
  ghost predicate Neutral(ts: seq<Token>) {
    forall rest: seq<Token>, d: nat :: Balances(ts + rest, d) <==> Balances(rest, d)
  }

  lemma NeutralJoin(a: seq<Token>, b: seq<Token>)
    requires Neutral(a) && Neutral(b)
    ensures Neutral(a + b)
  {
    forall rest: seq<Token>, d: nat
      ensures Balances(a + b + rest, d) <==> Balances(rest, d)
    {
      Assoc(a, b, rest);
      hide Balances;
      assert Balances(a + (b + rest), d) <==> Balances(b + rest, d);
    }
  }

  lemma NeutralOne(t: Token)
    requires t != Sym('(') && t != Sym(')')
    ensures Neutral([t])
  {
    forall rest: seq<Token>, d: nat
      ensures Balances([t] + rest, d) <==> Balances(rest, d)
    {
      assert ([t] + rest)[1..] == rest;
    }
  }

  lemma NeutralGroup(ts: seq<Token>)
    requires Neutral(ts)
    ensures Neutral([Sym('(')] + ts + [Sym(')')])
  {
    forall rest: seq<Token>, d: nat
      ensures Balances([Sym('(')] + ts + [Sym(')')] + rest, d) <==> Balances(rest, d)
    {
      var close := [Sym(')')] + rest;
      var all := [Sym('(')] + ts + [Sym(')')] + rest;
      assert all == [Sym('(')] + (ts + close) && all[1..] == ts + close && close[1..] == rest;
      assert Balances(ts + close, d + 1) <==> Balances(close, d + 1);
    }
  }

  lemma NeutralNone()
    ensures Neutral([])
  {
    forall rest: seq<Token>, d: nat
      ensures Balances([] + rest, d) <==> Balances(rest, d)
    {
      assert [] + rest == rest;
    }
  }

  lemma {:induction false} PartsNeutral(parts: seq<Part>)
    requires PartsOk(parts)
    ensures Neutral(PartTokens(parts)) && WordsIn(PartTokens(parts)) == |parts|
    decreases |parts|
  {
    if parts == [] {
      NeutralNone();
    } else {
      var p := parts[0];
      PartsNeutral(parts[1..]);
      assert PartOk(p);
      NeutralOne(Word(p.w));
      if p.To? {
        NeutralOne(Sym(p.c));
        NeutralJoin([Sym(p.c)], [Word(p.w)]);
        assert PartToken(p) == [Sym(p.c)] + [Word(p.w)];
        WordsJoin([Sym(p.c)], [Word(p.w)]);
        assert WordsIn([Sym(p.c)]) == 0;
      }
      assert WordsIn([Word(p.w)]) == 1;
      hide Neutral;
      assert WordsIn(PartToken(p)) == 1;
      NeutralJoin(PartToken(p), PartTokens(parts[1..]));
      WordsJoin(PartToken(p), PartTokens(parts[1..]));
    }
  }

  lemma {:induction false} AroundWords(c: Cmd<string>, parts: seq<Part>)
    ensures WordsOf(Around(c, parts)) + |ArgsOf(parts)| == WordsOf(c) + |parts|
    decreases |parts|
  {
    hide ArgsOf, TargetsOf, PartTokens;
    NoParts();
    if parts != [] {
      var n := |parts| - 1;
      AroundWords(c, parts[..n]);
      PartsJoin(parts[..n], [parts[n]]);
      Front(parts[n], []);
      assert parts[..n] + [parts[n]] == parts && [parts[n]] + [] == [parts[n]];
    }
  }

  lemma {:induction false} CommNeutral(c: Comm)
    requires CommOk(c)
    ensures Neutral(CommTokens(c)) && WordsIn(CommTokens(c)) == WordsOf(CommTree(c))
    decreases c
  {
    match c
    case Plain(parts) =>
      PartsNeutral(parts);
      AroundWords(Exec(ArgsOf(parts)), parts);
    case Group(line, tos) =>
      LinesNeutral(line);
      PartsNeutral(tos);
      GroupNeutral(line, tos);
  }

  lemma GroupNeutral(line: Lines, tos: seq<Part>)
    requires CommOk(Group(line, tos)) && Neutral(LinesTokens(line)) && WordsIn(LinesTokens(line)) == WordsOf(LinesTree(line))
    requires Neutral(PartTokens(tos)) && WordsIn(PartTokens(tos)) == |tos|
    ensures Neutral(CommTokens(Group(line, tos))) && WordsIn(CommTokens(Group(line, tos))) == WordsOf(CommTree(Group(line, tos)))
  {
    NeutralGroup(LinesTokens(line));
    NoArgs(tos);
    hide Neutral, LinesTokens, LinesTree, LinesOk, PartTokens, ArgsOf, Around;
    var inner := [Sym('(')] + LinesTokens(line) + [Sym(')')];
    NeutralJoin(inner, PartTokens(tos));
    WordsJoin(inner, PartTokens(tos));
    WordsJoin([Sym('(')] + LinesTokens(line), [Sym(')')]);
    WordsJoin([Sym('(')], LinesTokens(line));
    assert WordsIn([Sym('(')]) == 0 && WordsIn([Sym(')')]) == 0;
    AroundWords(LinesTree(line), tos);
  }

  lemma {:induction false} NoArgs(tos: seq<Part>)
    requires forall i :: 0 <= i < |tos| ==> tos[i].To?
    ensures ArgsOf(tos) == []
    decreases |tos|
  {
    if tos != [] {
      NoArgs(tos[1..]);
    }
  }

  lemma {:induction false} PipesNeutral(p: Pipes)
    requires PipesOk(p)
    ensures Neutral(PipesTokens(p)) && WordsIn(PipesTokens(p)) == WordsOf(PipesTree(p))
    decreases p
  {
    CommNeutral(p.c);
    if p.Then? {
      PipesNeutral(p.next);
      NeutralOne(Sym('|'));
      ThenIs(p.c, p.next);
      hide Neutral, CommTokens, CommTree, PipesTokens, CommOk;
      var a, b := CommTokens(p.c), PipesTokens(p.next);
      NeutralJoin(a, [Sym('|')]);
      NeutralJoin(a + [Sym('|')], b);
      WordsJoin(a, [Sym('|')]);
      WordsJoin(a + [Sym('|')], b);
      assert WordsIn([Sym('|')]) == 0;
    }
  }

  lemma {:induction false} AndsNeutral(n: nat, c: Cmd<string>)
    ensures Neutral(Ands(n)) && WordsIn(Ands(n)) == 0 && WordsOf(InBack(c, n)) == WordsOf(c)
    decreases n
  {
    if n == 0 {
      NeutralNone();
      assert Ands(0) == [];
    } else {
      AndsNeutral(n - 1, c);
      NeutralOne(Sym('&'));
      assert Ands(n) == [Sym('&')] + Ands(n - 1);
      NeutralJoin([Sym('&')], Ands(n - 1));
      WordsJoin([Sym('&')], Ands(n - 1));
    }
  }

  lemma {:induction false} LinesNeutral(l: Lines)
    requires LinesOk(l)
    ensures Neutral(LinesTokens(l)) && WordsIn(LinesTokens(l)) == WordsOf(LinesTree(l))
    decreases l
  {
    PipesNeutral(l.p);
    AndsNeutral(l.ands, PipesTree(l.p));
    var a := PipesTokens(l.p) + Ands(l.ands);
    NeutralJoin(PipesTokens(l.p), Ands(l.ands));
    WordsJoin(PipesTokens(l.p), Ands(l.ands));
    if l.More? {
      LinesNeutral(l.next);
      NeutralOne(Sym(';'));
      var b := LinesTokens(l.next);
      assert LinesTokens(l) == a + [Sym(';')] + b;
      hide Neutral, PipesTokens, PipesTree, Ands, InBack, LinesTokens, PipesOk;
      NeutralJoin(a, [Sym(';')]);
      NeutralJoin(a + [Sym(';')], b);
      WordsJoin(a, [Sym(';')]);
      WordsJoin(a + [Sym(';')], b);
      assert WordsIn([Sym(';')]) == 0;
    }
  }

  /** Whatever the parser accepts has balanced parentheses, and its tree has exactly as
      many words, files included, as were written. */
  lemma AcceptedIsBalanced(ts: seq<Token>)
    requires Whole(ts).Ok?
    ensures Balances(ts, 0) && WordsOf(Whole(ts).value) == WordsIn(ts)
  {
    var l := LinesSound(ts);
    LinesNeutral(l);
    hide Whole, LinesTokens, LinesTree, Line;
    assert ts + [] == ts && LinesTokens(l) + [] == LinesTokens(l);
    assert Balances(LinesTokens(l) + [], 0) <==> Balances([], 0);
  }
}
