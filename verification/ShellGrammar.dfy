/** The shell's command language (sh.c) on token lists: what each parse function
    makes of a token list, a printer, and the round trip between them. */
module ShellGrammar {
  const MAXARGS: nat := 10

  /** A redirection for reading or for writing; the shell opens the file of a `>>`
      exactly as that of a `>`. */
  datatype Mode = In | Out
  datatype Target<W> = Target(file: W, mode: Mode)

  /** Command trees over words of type `W`. */
  datatype Cmd<W> =
    | Exec(argv: seq<W>)
    | Redir(cmd: Cmd<W>, to: Target<W>)
    | Pipe(left: Cmd<W>, right: Cmd<W>)
    | List(left: Cmd<W>, right: Cmd<W>)
    | Back(cmd: Cmd<W>)

  /** A word, or one of `|`, `(`, `)`, `;`, `&`, `<`, `>` and `+` for `>>`. */
  datatype Token = Word(w: string) | Sym(c: char)

  datatype Why = MissingFile | MissingParen | Syntax | TooManyArgs | Leftovers

  datatype Parse<T> = Ok(value: T, rest: seq<Token>) | Err(why: Why)

  // ------------------------------------------------------------ the parser

  predicate StartsWith(ts: seq<Token>, c: char) {
    ts != [] && ts[0] == Sym(c)
  }

  predicate StartsRedir(ts: seq<Token>) {
    StartsWith(ts, '<') || StartsWith(ts, '>') || StartsWith(ts, '+')
  }

  /** At the end of a simple command. */
  predicate Stops(ts: seq<Token>) {
    ts == [] || StartsWith(ts, '|') || StartsWith(ts, ')') || StartsWith(ts, '&') || StartsWith(ts, ';')
  }

  /** The redirections `rs` around `c`, the first innermost. */
  function Wrap<W>(c: Cmd<W>, rs: seq<Target<W>>): Cmd<W>
    decreases |rs|
  {
    if rs == [] then c else Wrap(Redir(c, rs[0]), rs[1..])
  }

  function Redirs(ts: seq<Token>): (r: Parse<seq<Target<string>>>)
    ensures r.Ok? ==> |r.rest| <= |ts|
  {
    if !StartsRedir(ts) then Ok([], ts)
    else if |ts| < 2 || !ts[1].Word? then Err(MissingFile)
    else
      var to := Target(ts[1].w, if ts[0].c == '<' then In else Out);
      match Redirs(ts[2..])
      case Err(e) => Err(e)
      case Ok(rs, rest) => Ok([to] + rs, rest)
  }

  /** The rest of a simple command that has `argv` and `rs` so far. */
  function Args(argv: seq<string>, rs: seq<Target<string>>, ts: seq<Token>): (r: Parse<Cmd<string>>)
    ensures r.Ok? ==> |r.rest| <= |ts|
    decreases |ts|
  {
    if Stops(ts) then Ok(Wrap(Exec(argv), rs), ts)
    else if !ts[0].Word? then Err(Syntax)
    else if |argv| + 1 >= MAXARGS then Err(TooManyArgs)
    else
      match Redirs(ts[1..])
      case Err(e) => Err(e)
      case Ok(more, rest) => Args(argv + [ts[0].w], rs + more, rest)
  }

  function Simple(ts: seq<Token>): (r: Parse<Cmd<string>>)
    ensures r.Ok? ==> |r.rest| <= |ts|
  {
    match Redirs(ts)
    case Err(e) => Err(e)
    case Ok(rs, rest) => Args([], rs, rest)
  }

  function Block(ts: seq<Token>): (r: Parse<Cmd<string>>)
    requires StartsWith(ts, '(')
    ensures r.Ok? ==> |r.rest| <= |ts|
    decreases |ts|, 0
  {
    match Line(ts[1..])
    case Err(e) => Err(e)
    case Ok(c, rest) =>
      if !StartsWith(rest, ')') then Err(MissingParen)
      else
        match Redirs(rest[1..])
        case Err(e) => Err(e)
        case Ok(rs, rest') => Ok(Wrap(c, rs), rest')
  }

  function Command(ts: seq<Token>): (r: Parse<Cmd<string>>)
    ensures r.Ok? ==> |r.rest| <= |ts|
    decreases |ts|, 1
  {
    if StartsWith(ts, '(') then Block(ts) else Simple(ts)
  }

  function Pipeline(ts: seq<Token>): (r: Parse<Cmd<string>>)
    ensures r.Ok? ==> |r.rest| <= |ts|
    decreases |ts|, 2
  {
    match Command(ts)
    case Err(e) => Err(e)
    case Ok(c, rest) =>
      if !StartsWith(rest, '|') then Ok(c, rest)
      else
        match Pipeline(rest[1..])
        case Err(e) => Err(e)
        case Ok(d, rest') => Ok(Pipe(c, d), rest')
  }

  function Backs(c: Cmd<string>, ts: seq<Token>): (r: (Cmd<string>, seq<Token>))
    ensures |r.1| <= |ts|
    decreases |ts|
  {
    if StartsWith(ts, '&') then Backs(Back(c), ts[1..]) else (c, ts)
  }

  function Line(ts: seq<Token>): (r: Parse<Cmd<string>>)
    ensures r.Ok? ==> |r.rest| <= |ts|
    decreases |ts|, 3
  {
    match Pipeline(ts)
    case Err(e) => Err(e)
    case Ok(c, rest) =>
      var (d, rest') := Backs(c, rest);
      if !StartsWith(rest', ';') then Ok(d, rest')
      else
        match Line(rest'[1..])
        case Err(e) => Err(e)
        case Ok(e, rest'') => Ok(List(d, e), rest'')
  }

  function Whole(ts: seq<Token>): Parse<Cmd<string>> {
    match Line(ts)
    case Err(e) => Err(e)
    case Ok(c, rest) => if rest == [] then Ok(c, rest) else Err(Leftovers)
  }

  // ------------------------------------------------------------ the printer

  function Base<W>(t: Cmd<W>): (b: Cmd<W>)
    ensures !b.Redir? && (t.Redir? ==> b < t) && (!t.Redir? ==> b == t)
  {
    if t.Redir? then Base(t.cmd) else t
  }

  function Targets<W>(t: Cmd<W>): seq<Target<W>> {
    if t.Redir? then Targets(t.cmd) + [t.to] else []
  }

  function PrintTargets(rs: seq<Target<string>>): seq<Token> {
    if rs == [] then []
    else [Sym(if rs[0].mode == In then '<' else '>'), Word(rs[0].file)] + PrintTargets(rs[1..])
  }

  function PrintWords(argv: seq<string>): seq<Token> {
    seq(|argv|, i requires 0 <= i < |argv| => Word(argv[i]))
  }

  /** How loosely the top of a tree binds; a parse function of a lower level needs
      parentheses around it. */
  function Level<W>(t: Cmd<W>): nat {
    if t.List? then 3 else if t.Back? then 2 else if t.Pipe? then 1 else 0
  }

  function PrintCommand(t: Cmd<string>): seq<Token>
    decreases t, if Level(t) > 0 then 4 else 0
  {
    var b := Base(t);
    (if b.Exec? then PrintWords(b.argv) else [Sym('(')] + PrintLine(b) + [Sym(')')]) + PrintTargets(Targets(t))
  }

  function PrintPipeline(t: Cmd<string>): seq<Token>
    decreases t, if Level(t) > 1 then 5 else 1
  {
    if t.Pipe? then PrintCommand(t.left) + [Sym('|')] + PrintPipeline(t.right) else PrintCommand(t)
  }

  function PrintBacks(t: Cmd<string>): seq<Token>
    decreases t, if Level(t) > 2 then 6 else 2
  {
    if t.Back? then PrintBacks(t.cmd) + [Sym('&')] else PrintPipeline(t)
  }

  function PrintLine(t: Cmd<string>): seq<Token>
    decreases t, 3
  {
    if t.List? then PrintBacks(t.left) + [Sym(';')] + PrintLine(t.right) else PrintBacks(t)
  }

  // ------------------------------------------------------------- round trip

  /** Trees whose simple commands have at most MAXARGS - 1 words. */
  predicate Fits<W>(t: Cmd<W>) {
    match t
    case Exec(argv) => |argv| < MAXARGS
    case Redir(c, _) => Fits(c)
    case Pipe(l, r) => Fits(l) && Fits(r)
    case List(l, r) => Fits(l) && Fits(r)
    case Back(c) => Fits(c)
  }

  lemma WrapLast<W>(c: Cmd<W>, rs: seq<Target<W>>, x: Target<W>)
    ensures Wrap(c, rs + [x]) == Redir(Wrap(c, rs), x)
    decreases |rs|
  {
    if rs != [] {
      assert (rs + [x])[1..] == rs[1..] + [x];
      WrapLast(Redir(c, rs[0]), rs[1..], x);
    }
  }

  lemma {:induction false} WrapBase<W>(t: Cmd<W>)
    ensures Wrap(Base(t), Targets(t)) == t
  {
    if t.Redir? {
      WrapBase(t.cmd);
      WrapLast(Base(t.cmd), Targets(t.cmd), t.to);
    }
  }

  lemma FitsBase<W>(t: Cmd<W>)
    requires Fits(t)
    ensures Fits(Base(t))
  {
  }

  lemma {:induction false} RedirsBack(rs: seq<Target<string>>, rest: seq<Token>)
    requires !StartsRedir(rest)
    ensures Redirs(PrintTargets(rs) + rest) == Ok(rs, rest)
  {
    if rs == [] {
      assert PrintTargets(rs) + rest == rest;
    } else {
      var ts := PrintTargets(rs) + rest;
      assert ts[0] == Sym(if rs[0].mode == In then '<' else '>') && ts[1] == Word(rs[0].file);
      assert ts[2..] == PrintTargets(rs[1..]) + rest;
      RedirsBack(rs[1..], rest);
      assert [rs[0]] + rs[1..] == rs;
    }
  }

  /** One step of the argument loop. */
  lemma ArgsStep(argv: seq<string>, rs: seq<Target<string>>, ts: seq<Token>)
    ensures Stops(ts) ==> Args(argv, rs, ts) == Ok(Wrap(Exec(argv), rs), ts)
    ensures !Stops(ts) && !ts[0].Word? ==> Args(argv, rs, ts) == Err(Syntax)
    ensures !Stops(ts) && ts[0].Word? && |argv| + 1 >= MAXARGS ==> Args(argv, rs, ts) == Err(TooManyArgs)
    ensures !Stops(ts) && ts[0].Word? && |argv| + 1 < MAXARGS && Redirs(ts[1..]).Err? ==>
              Args(argv, rs, ts) == Err(Redirs(ts[1..]).why)
    ensures !Stops(ts) && ts[0].Word? && |argv| + 1 < MAXARGS && Redirs(ts[1..]).Ok? ==>
              Args(argv, rs, ts) == Args(argv + [ts[0].w], rs + Redirs(ts[1..]).value, Redirs(ts[1..]).rest)
  {
  }

  lemma WordsFirst(argv: seq<string>, a: seq<Token>, b: seq<Token>)
    requires argv != []
    ensures var ts := PrintWords(argv) + a + b;
            ts != [] && ts[0] == Word(argv[0]) && ts[1..] == PrintWords(argv[1..]) + a + b
  {
    var ts := PrintWords(argv) + a + b;
    assert PrintWords(argv) == [Word(argv[0])] + PrintWords(argv[1..]);
  }

  lemma {:induction false} ArgsBack(done: seq<string>, argv: seq<string>, rs: seq<Target<string>>, rest: seq<Token>)
    requires argv != [] && |done| + |argv| < MAXARGS && Stops(rest)
    ensures Args(done, [], PrintWords(argv) + PrintTargets(rs) + rest) == Ok(Wrap(Exec(done + argv), rs), rest)
    decreases |argv|
  {
    hide Args, PrintTargets, PrintWords, Wrap;
    var ts, more := PrintWords(argv) + PrintTargets(rs) + rest, done + [argv[0]];
    var none: seq<Target<string>> := [];
    WordsFirst(argv, PrintTargets(rs), rest);
    ArgsStep(done, none, ts);
    if |argv| == 1 {
      LastWord(argv, PrintTargets(rs), rest);
      RedirsBack(rs, rest);
      ArgsStep(more, rs, rest);
      assert none + rs == rs && argv == [argv[0]];
    } else {
      WordsFirst(argv[1..], PrintTargets(rs), rest);
      assert Redirs(ts[1..]) == Ok(none, ts[1..]);
      hide Redirs;
      ArgsBack(more, argv[1..], rs, rest);
      assert more + argv[1..] == done + argv && none + none == none;
    }
  }

  lemma LastWord(argv: seq<string>, a: seq<Token>, b: seq<Token>)
    requires |argv| == 1
    ensures PrintWords(argv[1..]) + a + b == a + b
  {
  }

  lemma SimpleBack(argv: seq<string>, rs: seq<Target<string>>, rest: seq<Token>)
    requires |argv| < MAXARGS && Stops(rest)
    ensures Command(PrintWords(argv) + PrintTargets(rs) + rest) == Ok(Wrap(Exec(argv), rs), rest)
  {
    hide Block;
    var ts := PrintWords(argv) + PrintTargets(rs) + rest;
    if argv == [] {
      assert ts == PrintTargets(rs) + rest;
      RedirsBack(rs, rest);
      assert !StartsWith(ts, '(');
    } else {
      assert ts[0] == Word(argv[0]);
      assert Redirs(ts) == Ok([], ts);
      ArgsBack([], argv, rs, rest);
      assert [] + argv == argv;
      hide Args;
    }
  }

  lemma BlockBack(ts: seq<Token>, b: Cmd<string>, rs: seq<Target<string>>, rest: seq<Token>)
    requires StartsWith(ts, '(') && Stops(rest)
    requires Line(ts[1..]) == Ok(b, [Sym(')')] + (PrintTargets(rs) + rest))
    ensures Command(ts) == Ok(Wrap(b, rs), rest)
  {
    hide Line, Wrap;
    assert ([Sym(')')] + (PrintTargets(rs) + rest))[1..] == PrintTargets(rs) + rest;
    RedirsBack(rs, rest);
  }

  lemma {:induction false} CommandBack(t: Cmd<string>, rest: seq<Token>)
    requires Fits(t) && Stops(rest)
    ensures Command(PrintCommand(t) + rest) == Ok(t, rest)
    decreases t, if Level(t) > 0 then 4 else 0
  {
    var b, rs := Base(t), Targets(t);
    WrapBase(t);
    FitsBase(t);
    if b.Exec? {
      SimpleBack(b.argv, rs, rest);
    } else {
      var ts, after := PrintCommand(t) + rest, [Sym(')')] + (PrintTargets(rs) + rest);
      assert ts == [Sym('(')] + (PrintLine(b) + after);
      LineBack(b, after);
      hide Line, Command, PrintLine;
      assert ts[1..] == PrintLine(b) + after;
      BlockBack(ts, b, rs, rest);
    }
  }

  lemma {:induction false} PipelineBack(t: Cmd<string>, rest: seq<Token>)
    requires Fits(t) && Stops(rest) && !StartsWith(rest, '|')
    ensures Pipeline(PrintPipeline(t) + rest) == Ok(t, rest)
    decreases t, if Level(t) > 1 then 5 else 1
  {
    if t.Pipe? {
      var after := [Sym('|')] + (PrintPipeline(t.right) + rest);
      assert PrintPipeline(t) + rest == PrintCommand(t.left) + after;
      CommandBack(t.left, after);
      assert after[1..] == PrintPipeline(t.right) + rest;
      PipelineBack(t.right, rest);
    } else {
      CommandBack(t, rest);
    }
  }

  lemma {:induction false} BacksBack(t: Cmd<string>, rest: seq<Token>)
    requires Fits(t) && Stops(rest) && !StartsWith(rest, '|')
    ensures var r := Pipeline(PrintBacks(t) + rest);
            r.Ok? && Backs(r.value, r.rest) == Backs(t, rest)
    decreases t, if Level(t) > 2 then 6 else 2
  {
    if t.Back? {
      assert PrintBacks(t) + rest == PrintBacks(t.cmd) + ([Sym('&')] + rest);
      BacksBack(t.cmd, [Sym('&')] + rest);
      assert ([Sym('&')] + rest)[1..] == rest;
    } else {
      PipelineBack(t, rest);
    }
  }

  lemma {:induction false} LineBack(t: Cmd<string>, rest: seq<Token>)
    requires Fits(t) && (rest == [] || StartsWith(rest, ')'))
    ensures Line(PrintLine(t) + rest) == Ok(t, rest)
    decreases t, 3
  {
    if t.List? {
      var after := [Sym(';')] + (PrintLine(t.right) + rest);
      assert PrintLine(t) + rest == PrintBacks(t.left) + after;
      BacksBack(t.left, after);
      assert after[1..] == PrintLine(t.right) + rest;
      LineBack(t.right, rest);
    } else {
      BacksBack(t, rest);
    }
  }

  /** Every command tree, printed, parses back to itself. */
  lemma RoundTrip(t: Cmd<string>)
    requires Fits(t)
    ensures Whole(PrintLine(t)) == Ok(t, [])
  {
    LineBack(t, []);
    assert PrintLine(t) + [] == PrintLine(t);
  }

  // ------------------------------------------- parentheses only where needed

  /** How many opening parentheses there are. */
  function Parens(ts: seq<Token>): nat {
    if ts == [] then 0 else (if ts[0] == Sym('(') then 1 else 0) + Parens(ts[1..])
  }

  lemma {:induction false} ParensJoin(a: seq<Token>, b: seq<Token>)
    ensures Parens(a + b) == Parens(a) + Parens(b)
    decreases |a|
  {
    if a == [] {
      assert a + b == b;
    } else {
      assert (a + b)[1..] == a[1..] + b;
      ParensJoin(a[1..], b);
    }
  }

  /** The tokens after a prefix have no more parentheses than all of them. */
  lemma ParensDrop(ts: seq<Token>, k: nat)
    requires k <= |ts|
    ensures Parens(ts) == Parens(ts[..k]) + Parens(ts[k..])
  {
    assert ts == ts[..k] + ts[k..];
    ParensJoin(ts[..k], ts[k..]);
  }

  lemma {:induction false} NoParens(ts: seq<Token>)
    requires forall i :: 0 <= i < |ts| ==> ts[i] != Sym('(')
    ensures Parens(ts) == 0
    decreases |ts|
  {
    if ts != [] {
      NoParens(ts[1..]);
    }
  }

  lemma TargetsNoParens(rs: seq<Target<string>>)
    ensures forall i :: 0 <= i < |PrintTargets(rs)| ==> PrintTargets(rs)[i] != Sym('(')
  {
  }

  /** What each level of the printer spends on a tree. */
  lemma CommandParens(t: Cmd<string>)
    ensures Parens(PrintCommand(t)) == if Base(t).Exec? then 0 else 1 + Parens(PrintLine(Base(t)))
  {
    var b, out := Base(t), PrintTargets(Targets(t));
    TargetsNoParens(Targets(t));
    NoParens(out);
    if b.Exec? {
      NoParens(PrintWords(b.argv));
      ParensJoin(PrintWords(b.argv), out);
    } else {
      hide PrintLine, PrintTargets;
      var open, close := [Sym('(')], [Sym(')')];
      assert Parens(open) == 1 && Parens(close) == 0;
      ParensJoin(open, PrintLine(b));
      ParensJoin(open + PrintLine(b), close);
      ParensJoin(open + PrintLine(b) + close, out);
    }
  }

  lemma SymbolBetween(a: seq<Token>, c: char, b: seq<Token>)
    requires c != '('
    ensures Parens(a + [Sym(c)] + b) == Parens(a) + Parens(b)
  {
    ParensJoin(a, [Sym(c)]);
    ParensJoin(a + [Sym(c)], b);
    assert Parens([Sym(c)]) == 0;
  }

  /** A looser level never needs more parentheses around the same tree. */
  lemma LooserIsCheaper(t: Cmd<string>)
    ensures Parens(PrintLine(t)) <= Parens(PrintBacks(t)) <= Parens(PrintPipeline(t)) <= Parens(PrintCommand(t))
  {
    CommandParens(t);
  }

  lemma {:induction false} RedirsParens(ts: seq<Token>)
    requires Redirs(ts).Ok?
    ensures Parens(Redirs(ts).rest) <= Parens(ts)
    decreases |ts|
  {
    if StartsRedir(ts) {
      ParensDrop(ts, 2);
      RedirsParens(ts[2..]);
    }
  }

  lemma WrapShape(c: Cmd<string>, rs: seq<Target<string>>)
    ensures Base(Wrap(c, rs)) == Base(c)
    decreases |rs|
  {
    if rs != [] {
      WrapShape(Redir(c, rs[0]), rs[1..]);
    }
  }

  lemma {:induction false} ArgsParens(argv: seq<string>, rs: seq<Target<string>>, ts: seq<Token>)
    requires Args(argv, rs, ts).Ok?
    ensures Parens(Args(argv, rs, ts).rest) <= Parens(ts) && Base(Args(argv, rs, ts).value).Exec?
    decreases |ts|
  {
    if Stops(ts) {
      WrapShape(Exec(argv), rs);
    } else {
      RedirsParens(ts[1..]);
      var r := Redirs(ts[1..]);
      ArgsParens(argv + [ts[0].w], rs + r.value, r.rest);
    }
  }

  lemma {:induction false} BlockParens(ts: seq<Token>)
    requires StartsWith(ts, '(') && Block(ts).Ok?
    ensures Parens(PrintCommand(Block(ts).value)) + Parens(Block(ts).rest) <= Parens(ts)
    decreases |ts|, 0
  {
    LineParens(ts[1..]);
    var l := Line(ts[1..]);
    RedirsParens(l.rest[1..]);
    var rs := Redirs(l.rest[1..]).value;
    hide Line, Redirs, PrintLine, PrintCommand;
    WrapShape(l.value, rs);
    CommandParens(Wrap(l.value, rs));
    BaseIsCheaper(l.value);
  }

  lemma BaseIsCheaper(t: Cmd<string>)
    ensures !Base(t).Exec? ==> Parens(PrintLine(Base(t))) <= Parens(PrintLine(t))
  {
    if t.Redir? {
      CommandParens(t);
      assert PrintLine(t) == PrintBacks(t) && PrintBacks(t) == PrintPipeline(t) && PrintPipeline(t) == PrintCommand(t);
    }
  }

  lemma {:induction false} CommandCost(ts: seq<Token>)
    requires Command(ts).Ok?
    ensures Parens(PrintCommand(Command(ts).value)) + Parens(Command(ts).rest) <= Parens(ts)
    decreases |ts|, 1
  {
    if StartsWith(ts, '(') {
      BlockParens(ts);
    } else {
      RedirsParens(ts);
      var r := Redirs(ts);
      ArgsParens([], r.value, r.rest);
      CommandParens(Command(ts).value);
    }
  }

  lemma {:induction false} PipelineParens(ts: seq<Token>)
    requires Pipeline(ts).Ok?
    ensures Parens(PrintPipeline(Pipeline(ts).value)) + Parens(Pipeline(ts).rest) <= Parens(ts)
    decreases |ts|, 2
  {
    CommandCost(ts);
    var c := Command(ts);
    if StartsWith(c.rest, '|') {
      PipelineParens(c.rest[1..]);
      var d := Pipeline(c.rest[1..]).value;
      SymbolBetween(PrintCommand(c.value), '|', PrintPipeline(d));
    } else {
      LooserIsCheaper(c.value);
    }
  }

  lemma {:induction false} BacksParens(c: Cmd<string>, ts: seq<Token>)
    ensures Parens(PrintBacks(Backs(c, ts).0)) + Parens(Backs(c, ts).1) <= Parens(PrintBacks(c)) + Parens(ts)
    decreases |ts|
  {
    if StartsWith(ts, '&') {
      BacksParens(Back(c), ts[1..]);
      SymbolBetween(PrintBacks(c), '&', []);
      assert PrintBacks(c) + [Sym('&')] + [] == PrintBacks(Back(c));
    }
  }

  lemma {:induction false} LineParens(ts: seq<Token>)
    requires Line(ts).Ok?
    ensures Parens(PrintLine(Line(ts).value)) + Parens(Line(ts).rest) <= Parens(ts)
    decreases |ts|, 3
  {
    PipelineParens(ts);
    var r := Pipeline(ts);
    LooserIsCheaper(r.value);
    BacksParens(r.value, r.rest);
    var (d, rest) := Backs(r.value, r.rest);
    if StartsWith(rest, ';') {
      LineParens(rest[1..]);
      SymbolBetween(PrintBacks(d), ';', PrintLine(Line(rest[1..]).value));
    } else {
      LooserIsCheaper(d);
    }
  }

  /** The printer uses as few parentheses as any input that parses to the tree. */
  lemma ParenthesesNeeded(t: Cmd<string>, ts: seq<Token>)
    requires Whole(ts) == Ok(t, [])
    ensures Parens(PrintLine(t)) <= Parens(ts)
  {
    LineParens(ts);
  }
}
