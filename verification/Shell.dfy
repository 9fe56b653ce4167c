/** The shell's parser (sh.c): a cursor over a character buffer, and the NULs it
    writes over the buffer at the end, against the grammar on token lists. */
module Shell {
  import opened CStrings
  import opened ShellGrammar
  import opened ShellSyntax

  // ---------------------------------------------------------------- tokens

  predicate IsSpace(c: char) {
    c == ' ' || c == '\t' || c == '\r' || c == '\n' || c == '\U{0B}'
  }

  predicate IsSymbol(c: char) {
    c == '<' || c == '|' || c == '>' || c == '&' || c == ';' || c == '(' || c == ')'
  }

  predicate IsWord(c: char) {
    !IsSpace(c) && !IsSymbol(c)
  }

  function Skip(s: CString, p: nat): (q: nat)
    requires p <= |s|
    ensures p <= q <= |s| && (q < |s| ==> !IsSpace(s[q]))
    ensures forall i :: p <= i < q ==> IsSpace(s[i])
    decreases |s| - p
  {
    if p < |s| && IsSpace(s[p]) then Skip(s, p + 1) else p
  }

  function WordEnd(s: CString, p: nat): (q: nat)
    requires p <= |s|
    ensures p <= q <= |s| && (q < |s| ==> !IsWord(s[q]))
    ensures forall i :: p <= i < q ==> IsWord(s[i])
    decreases |s| - p
  {
    if p < |s| && IsWord(s[p]) then WordEnd(s, p + 1) else p
  }

  function TokenAt(s: CString, p: nat): Token
    requires p < |s|
  {
    if s[p] == '>' && At(s, p + 1) == '>' then Sym('+')
    else if IsSymbol(s[p]) then Sym(s[p])
    else Word(s[p..WordEnd(s, p)])
  }

  function TokenEnd(s: CString, p: nat): (q: nat)
    requires p < |s| && !IsSpace(s[p])
    ensures p < q <= |s|
  {
    if s[p] == '>' && At(s, p + 1) == '>' then p + 2
    else if IsSymbol(s[p]) then p + 1
    else WordEnd(s, p)
  }

  /** The tokens from `p` on. */
  function Tokens(s: CString, p: nat): seq<Token>
    requires p <= |s|
    decreases |s| - p
  {
    var q := Skip(s, p);
    if q == |s| then [] else [TokenAt(s, q)] + Tokens(s, TokenEnd(s, q))
  }

  lemma SkipAll(s: CString, p: nat, q: nat)
    requires p <= q <= |s| && (forall i :: p <= i < q ==> IsSpace(s[i])) && (q < |s| ==> !IsSpace(s[q]))
    ensures Skip(s, p) == q && Tokens(s, p) == Tokens(s, q)
    decreases q - p
  {
    if p < q {
      SkipAll(s, p + 1, q);
    }
  }

  lemma WordEndIs(s: CString, p: nat, q: nat)
    requires p <= q <= |s| && (forall i :: p <= i < q ==> IsWord(s[i])) && (q < |s| ==> !IsWord(s[q]))
    ensures WordEnd(s, p) == q
    decreases q - p
  {
    if p < q {
      WordEndIs(s, p + 1, q);
    }
  }

  // ------------------------------------------------------------ token lists

  /** Token `t` is written at `p`, and does not go on: a word to the next blank or
      symbol, and `>` is not `>>`. */
  predicate Lexeme(s: CString, p: nat, t: Token) {
    var q := p + |Spell(t)|;
    && q <= |s| && s[p..q] == Spell(t) && Writable(t)
    && (t.Word? && q < |s| ==> !IsWord(s[q])) && (t == Sym('>') && q < |s| ==> s[q] != '>')
  }

  /** From `p` on there are the tokens `ts`, with nothing but blanks before, between
      and behind them. */
  ghost predicate Reads(s: CString, p: nat, ts: seq<Token>)
    decreases |ts|
  {
    p <= |s| &&
    if ts == [] then forall i :: p <= i < |s| ==> IsSpace(s[i])
    else
      exists q :: p <= q < |s| && (forall i :: p <= i < q ==> IsSpace(s[i])) && Lexeme(s, q, ts[0])
                  && Reads(s, q + |Spell(ts[0])|, ts[1..])
  }

  /** The token at a position that is not blank is the one that is written there. */
  lemma LexemeIs(s: CString, p: nat, t: Token)
    requires p < |s| && !IsSpace(s[p])
    ensures Lexeme(s, p, t) <==> TokenAt(s, p) == t
    ensures Lexeme(s, p, t) ==> TokenEnd(s, p) == p + |Spell(t)|
  {
    var e := WordEnd(s, p);
    if Lexeme(s, p, t) {
      var w := Spell(t);
      assert s[p] == s[p..p + |w|][0];
      if t.Word? {
        forall i | p <= i < p + |w|
          ensures IsWord(s[i])
        {
          assert s[i] == w[i - p];
        }
        WordEndIs(s, p, p + |w|);
      } else if t.c == '+' {
        assert s[p + 1] == s[p..p + |w|][1];
      }
    }
    if TokenAt(s, p) == t {
      LexemeAt(s, p);
    }
  }

  lemma LexemeAt(s: CString, p: nat)
    requires p < |s| && !IsSpace(s[p])
    ensures Lexeme(s, p, TokenAt(s, p))
  {
    var e, t := WordEnd(s, p), TokenAt(s, p);
    if t.Word? {
      assert p < e && s[p..e] == t.w;
      assert forall i :: 0 <= i < |t.w| ==> t.w[i] == s[p + i];
    } else if t.c == '+' {
      assert s[p..p + 2] == ">>";
    } else {
      assert s[p..p + 1] == [s[p]];
    }
  }

  lemma LexemeNotBlank(s: CString, p: nat, t: Token)
    requires Lexeme(s, p, t)
    ensures p < |s| && !IsSpace(s[p])
  {
    assert |Spell(t)| > 0 && s[p] == s[p..p + |Spell(t)|][0];
  }

  /** gettoken's tokens are exactly those that are written. */
  lemma {:induction false} TokensExactly(s: CString, p: nat, ts: seq<Token>)
    requires p <= |s|
    ensures Tokens(s, p) == ts <==> Reads(s, p, ts)
    decreases |ts|
  {
    var q := Skip(s, p);
    if ts == [] {
      SkipAll(s, p, q);
    } else if q < |s| {
      LexemeIs(s, q, ts[0]);
      hide Lexeme, TokenAt, TokenEnd, Spell;
      FirstAfter(s, p, q, ts);
      if Lexeme(s, q, ts[0]) {
        TokensExactly(s, TokenEnd(s, q), ts[1..]);
        assert Tokens(s, p) == ts ==> ts[1..] == Tokens(s, TokenEnd(s, q));
        assert Tokens(s, TokenEnd(s, q)) == ts[1..] ==> Tokens(s, p) == ts;
      }
    } else if Reads(s, p, ts) {
      var r :| p <= r < |s| && (forall i :: p <= i < r ==> IsSpace(s[i])) && Lexeme(s, r, ts[0]);
      LexemeNotBlank(s, r, ts[0]);
      assert false;
    }
  }

  /** The first token can only be written where the blanks end. */
  lemma FirstAfter(s: CString, p: nat, q: nat, ts: seq<Token>)
    requires p <= q < |s| && ts != [] && (forall i :: p <= i < q ==> IsSpace(s[i])) && !IsSpace(s[q])
    ensures Reads(s, p, ts) <==> Lexeme(s, q, ts[0]) && Reads(s, q + |Spell(ts[0])|, ts[1..])
  {
    hide Lexeme, Spell;
    forall r | p <= r < |s| && (forall i :: p <= i < r ==> IsSpace(s[i])) && Lexeme(s, r, ts[0])
      ensures r == q
    {
      LexemeNotBlank(s, r, ts[0]);
    }
  }

  predicate Writable(t: Token) {
    match t
    case Word(w) => w != "" && NUL !in w && forall i :: 0 <= i < |w| ==> IsWord(w[i])
    case Sym(c) => c == '+' || IsSymbol(c)
  }

  function Spell(t: Token): string {
    match t
    case Word(w) => w
    case Sym(c) => if c == '+' then ">>" else [c]
  }

  /** A token list as text, a blank after each token. */
  function Render(ts: seq<Token>): string {
    if ts == [] then "" else Spell(ts[0]) + " " + Render(ts[1..])
  }

  predicate AllWritable(ts: seq<Token>) {
    forall i :: 0 <= i < |ts| ==> Writable(ts[i])
  }

  predicate TailIs(s: string, p: nat, r: string) {
    p <= |s| && s[p..] == r
  }

  predicate WordThenBlank(s: string, p: nat, w: string) {
    p + |w| < |s| && s[p..p + |w|] == w && s[p + |w|] == ' '
  }

  /** The text from `p` on is the tokens `ts`, each followed by a blank. */
  ghost predicate Spells(s: string, p: nat, ts: seq<Token>)
    decreases |ts|
  {
    if ts == [] then p == |s|
    else WordThenBlank(s, p, Spell(ts[0])) && Spells(s, p + |Spell(ts[0])| + 1, ts[1..])
  }

  lemma {:induction false} RenderSpells(s: string, p: nat, ts: seq<Token>)
    requires TailIs(s, p, Render(ts))
    ensures Spells(s, p, ts)
    decreases |ts|
  {
    hide TailIs, WordThenBlank, Render, Spell;
    if ts == [] {
      RenderEnd(s, p);
    } else {
      RenderStep(s, p, ts);
      RenderSpells(s, p + |Spell(ts[0])| + 1, ts[1..]);
    }
  }

  lemma RenderEnd(s: string, p: nat)
    requires TailIs(s, p, Render([]))
    ensures p == |s|
  {
    assert |s[p..]| == |s| - p;
  }

  lemma RenderStep(s: string, p: nat, ts: seq<Token>)
    requires ts != [] && TailIs(s, p, Render(ts))
    ensures WordThenBlank(s, p, Spell(ts[0])) && TailIs(s, p + |Spell(ts[0])| + 1, Render(ts[1..]))
  {
    var w, r := Spell(ts[0]), Render(ts[1..]);
    assert Render(ts) == w + " " + r;
    hide Spell, Render;
    Pieces(s, p, w, r);
  }

  lemma {:induction false} TokensOfSpelled(s: CString, p: nat, ts: seq<Token>)
    requires AllWritable(ts) && p <= |s| && Spells(s, p, ts)
    ensures Tokens(s, p) == ts
    decreases |ts|
  {
    hide Writable, Tokens, Spell;
    if ts == [] {
      NoTokens(s);
    } else {
      SpelledThen(s, p, ts[0]);
      TokensOfSpelled(s, p + |Spell(ts[0])| + 1, ts[1..]);
      hide Spells, AllWritable;
      assert ts == [ts[0]] + ts[1..];
    }
  }

  lemma SpelledThen(s: CString, p: nat, t: Token)
    requires Writable(t) && p + |Spell(t)| < |s|
    requires s[p..p + |Spell(t)|] == Spell(t) && s[p + |Spell(t)|] == ' '
    ensures Tokens(s, p) == [t] + Tokens(s, p + |Spell(t)| + 1)
  {
    SpelledAt(s, p, t);
    hide *;
    FirstToken(s, p);
    BlankThen(s, p + |Spell(t)|);
  }

  /** Reading a rendered token list gives the token list. */
  lemma TokensOfRender(s: CString, ts: seq<Token>)
    requires AllWritable(ts) && s == Render(ts)
    ensures Tokens(s, 0) == ts
  {
    assert TailIs(s, 0, Render(ts));
    RenderSpells(s, 0, ts);
    TokensOfSpelled(s, 0, ts);
  }

  lemma NoTokens(s: CString)
    ensures Tokens(s, |s|) == []
  {
  }

  lemma FirstToken(s: CString, p: nat)
    requires p < |s| && !IsSpace(s[p])
    ensures Tokens(s, p) == [TokenAt(s, p)] + Tokens(s, TokenEnd(s, p))
  {
    SkipAll(s, p, p);
  }

  lemma Pieces(s: string, p: nat, w: string, r: string)
    requires p <= |s| && s[p..] == w + " " + r
    ensures var q := p + |w|;
            q < |s| && s[p..q] == w && s[q] == ' ' && s[q + 1..] == r
  {
    var q := p + |w|;
    assert s[q] == s[p..][|w|];
    assert s[q + 1..] == s[p..][|w| + 1..];
    assert s[p..q] == s[p..][..|w|];
  }

  lemma SpelledAt(s: CString, p: nat, t: Token)
    requires Writable(t) && p + |Spell(t)| < |s|
    requires s[p..p + |Spell(t)|] == Spell(t) && s[p + |Spell(t)|] == ' '
    ensures !IsSpace(s[p]) && TokenAt(s, p) == t && TokenEnd(s, p) == p + |Spell(t)|
    ensures IsSpace(s[p + |Spell(t)|])
  {
    var w := Spell(t);
    assert s[p] == s[p..p + |w|][0];
    if t.Word? {
      forall i | p <= i < p + |w|
        ensures IsWord(s[i])
      {
        assert s[i] == w[i - p];
      }
      WordEndIs(s, p, p + |w|);
    } else if t.c == '+' {
      assert s[p + 1] == s[p..p + |w|][1];
    }
  }

  lemma BlankThen(s: CString, q: nat)
    requires q < |s| && IsSpace(s[q])
    ensures Tokens(s, q) == Tokens(s, q + 1)
  {
    SkipAll(s, q, Skip(s, q + 1));
    SkipAll(s, q + 1, Skip(s, q + 1));
  }

  // ---------------------------------------------------- printing to text

  /** Words as gettoken delimits them: not empty, no blanks, no symbols. */
  predicate GoodWord(w: string) {
    Writable(Word(w))
  }

  predicate GoodWords(t: Cmd<string>) {
    match t
    case Exec(argv) => forall i :: 0 <= i < |argv| ==> GoodWord(argv[i])
    case Redir(c, to) => GoodWords(c) && GoodWord(to.file)
    case Pipe(l, r) => GoodWords(l) && GoodWords(r)
    case List(l, r) => GoodWords(l) && GoodWords(r)
    case Back(c) => GoodWords(c)
  }

  lemma GoodParts(t: Cmd<string>)
    requires GoodWords(t)
    ensures GoodWords(Base(t)) && AllWritable(PrintTargets(Targets(t)))
  {
    if t.Redir? {
      GoodParts(t.cmd);
      PrintTargetsLast(Targets(t.cmd), t.to);
    }
  }

  lemma PrintTargetsLast(rs: seq<Target<string>>, to: Target<string>)
    ensures PrintTargets(rs + [to]) == PrintTargets(rs) + [Sym(if to.mode == In then '<' else '>'), Word(to.file)]
  {
    if rs != [] {
      assert (rs + [to])[1..] == rs[1..] + [to];
      PrintTargetsLast(rs[1..], to);
    }
  }

  lemma {:induction false} CommandWritable(t: Cmd<string>)
    requires GoodWords(t)
    ensures AllWritable(PrintCommand(t))
    decreases t, if Level(t) > 0 then 4 else 0
  {
    GoodParts(t);
    var b := Base(t);
    if !b.Exec? {
      LineWritable(b);
    }
  }

  lemma {:induction false} PipelineWritable(t: Cmd<string>)
    requires GoodWords(t)
    ensures AllWritable(PrintPipeline(t))
    decreases t, if Level(t) > 1 then 5 else 1
  {
    if t.Pipe? {
      CommandWritable(t.left);
      PipelineWritable(t.right);
    } else {
      CommandWritable(t);
    }
  }

  lemma {:induction false} BacksWritable(t: Cmd<string>)
    requires GoodWords(t)
    ensures AllWritable(PrintBacks(t))
    decreases t, if Level(t) > 2 then 6 else 2
  {
    if t.Back? {
      BacksWritable(t.cmd);
    } else {
      PipelineWritable(t);
    }
  }

  lemma {:induction false} LineWritable(t: Cmd<string>)
    requires GoodWords(t)
    ensures AllWritable(PrintLine(t))
    decreases t, 3
  {
    if t.List? {
      BacksWritable(t.left);
      LineWritable(t.right);
    } else {
      BacksWritable(t);
    }
  }

  /** A command tree printed as text reads back as itself. */
  lemma TextRoundTrip(t: Cmd<string>, s: CString)
    requires Fits(t) && GoodWords(t) && s == Render(PrintLine(t))
    ensures Whole(Tokens(s, 0)) == Ok(t, [])
  {
    LineWritable(t);
    TokensOfRender(s, PrintLine(t));
    RoundTrip(t);
  }

  // ------------------------------------------------------------- the parser

  /** A word by where it starts and where it ends. */
  datatype Span = Span(q: nat, eq: nat)

  ghost predicate SpanOk(s: CString, p: Span) {
    && p.q < p.eq <= |s|
    && (forall i :: p.q <= i < p.eq ==> IsWord(s[i]))
    && (p.eq < |s| ==> !IsWord(s[p.eq]))
  }

  function Text(s: CString, p: Span): string {
    if p.q <= p.eq <= |s| then s[p.q..p.eq] else ""
  }

  ghost predicate Placed(s: CString, c: Cmd<Span>) {
    match c
    case Exec(argv) => forall i :: 0 <= i < |argv| ==> SpanOk(s, argv[i])
    case Redir(d, to) => Placed(s, d) && SpanOk(s, to.file)
    case Pipe(l, r) => Placed(s, l) && Placed(s, r)
    case List(l, r) => Placed(s, l) && Placed(s, r)
    case Back(d) => Placed(s, d)
  }

  /** The tree of words that a tree of spans stands for. */
  ghost function View(s: CString, c: Cmd<Span>): Cmd<string> {
    match c
    case Exec(argv) => Exec(seq(|argv|, i requires 0 <= i < |argv| => Text(s, argv[i])))
    case Redir(d, to) => Redir(View(s, d), Target(Text(s, to.file), to.mode))
    case Pipe(l, r) => Pipe(View(s, l), View(s, r))
    case List(l, r) => List(View(s, l), View(s, r))
    case Back(d) => Back(View(s, d))
  }

  datatype Outcome = Done(cmd: Cmd<Span>) | Panic(why: Why)

  /** A parse function's outcome and cursor are what the grammar says. */
  ghost predicate Agrees(s: CString, out: Outcome, pos: nat, spec: Parse<Cmd<string>>) {
    match spec
    case Err(e) => out == Panic(e)
    case Ok(c, rest) =>
      && out.Done? && Placed(s, out.cmd) && View(s, out.cmd) == c
      && pos <= |s| && Tokens(s, pos) == rest
  }

  ghost function WrapAll(c: Cmd<string>, p: Parse<seq<Target<string>>>): Parse<Cmd<string>> {
    match p
    case Err(e) => Err(e)
    case Ok(rs, rest) => Ok(Wrap(c, rs), rest)
  }

  /** What one character of look-ahead says about the next token. */
  lemma Lookahead(s: CString, p: nat)
    requires p <= |s| && (p < |s| ==> !IsSpace(s[p]))
    ensures forall c :: IsSymbol(c) && c != '>' ==> (StartsWith(Tokens(s, p), c) <==> p < |s| && s[p] == c)
    ensures StartsRedir(Tokens(s, p)) <==> p < |s| && (s[p] == '<' || s[p] == '>')
    ensures Tokens(s, p) == [] <==> p == |s|
  {
    SkipAll(s, p, p);
  }

  /** parseexec's store into the argv of the command at the bottom of the
      redirections it has already put around it. */
  function PushArg<W>(c: Cmd<W>, w: W): Cmd<W> {
    match c
    case Exec(argv) => Exec(argv + [w])
    case Redir(d, to) => Redir(PushArg(d, w), to)
    case _ => c
  }

  lemma PushView(s: CString, c: Cmd<Span>, p: Span)
    requires Placed(s, c) && SpanOk(s, p)
    ensures Placed(s, PushArg(c, p)) && View(s, PushArg(c, p)) == PushArg(View(s, c), Text(s, p))
  {
  }

  lemma PushExec(argv: seq<string>, w: string)
    ensures PushArg(Exec(argv), w) == Exec(argv + [w])
  {
  }

  lemma PushWrap(c: Cmd<string>, rs: seq<Target<string>>, w: string)
    ensures PushArg(Wrap(c, rs), w) == Wrap(PushArg(c, w), rs)
    decreases |rs|
  {
    if rs != [] {
      PushWrap(Redir(c, rs[0]), rs[1..], w);
    }
  }

  lemma WrapTwice(c: Cmd<string>, a: seq<Target<string>>, b: seq<Target<string>>)
    ensures Wrap(Wrap(c, a), b) == Wrap(c, a + b)
    decreases |a|
  {
    if a == [] {
      assert a + b == b;
    } else {
      assert (a + b)[1..] == a[1..] + b;
      WrapTwice(Redir(c, a[0]), a[1..], b);
    }
  }

  /** What gettoken returns for a token. */
  ghost predicate Delimits(s: CString, t: Token, tok: char, p: Span) {
    match t
    case Word(w) => tok == 'a' && SpanOk(s, p) && Text(s, p) == w
    case Sym(c) => tok == c && c != 'a' && c != NUL
  }

  /** gettoken, from cursor `a` to cursor `b`: the first token is taken. */
  ghost predicate Got(s: CString, a: nat, b: nat, tok: char, p: Span) {
    a <= |s| && b <= |s| &&
    var ts := Tokens(s, a);
    if ts == [] then tok == NUL && Tokens(s, b) == []
    else b > a && Tokens(s, b) == ts[1..] && Delimits(s, ts[0], tok, p)
  }

  lemma Advanced(s: CString, a: nat, start: nat, b: nat, tok: char, p: Span)
    requires a <= start <= b <= |s| && Tokens(s, start) == Tokens(s, a) && (start < |s| ==> !IsSpace(s[start]))
    requires start == |s| ==> tok == NUL
    requires start < |s| ==> start < b && Tokens(s, b) == Tokens(s, TokenEnd(s, start)) && Delimits(s, TokenAt(s, start), tok, p)
    ensures Got(s, a, b, tok, p)
  {
    if start == |s| {
      NoTokens(s);
    } else {
      FirstToken(s, start);
    }
  }

  lemma RedirStep(s: CString, c: Cmd<Span>, ts: seq<Token>, p: Span, tok: char)
    requires StartsRedir(ts) && ts[0] == Sym(tok) && |ts| >= 2 && ts[1] == Word(Text(s, p))
    ensures WrapAll(View(s, Redir(c, Target(p, if tok == '<' then In else Out))), Redirs(ts[2..])) == WrapAll(View(s, c), Redirs(ts))
  {
    hide View;
    var to := Target(Text(s, p), if tok == '<' then In else Out);
    assert View(s, Redir(c, Target(p, if tok == '<' then In else Out))) == Redir(View(s, c), to) by {
      ViewRedir(s, c, Target(p, if tok == '<' then In else Out));
    }
    var r := Redirs(ts[2..]);
    if r.Ok? {
      assert ([to] + r.value)[1..] == r.value;
    }
  }

  lemma ViewRedir(s: CString, c: Cmd<Span>, to: Target<Span>)
    ensures View(s, Redir(c, to)) == Redir(View(s, c), Target(Text(s, to.file), to.mode))
  {
  }

  /** parseexec with the words `argv` and the redirections `rs` read so far. */
  ghost predicate Midway(s: CString, ret: Cmd<Span>, pos: nat, argv: seq<string>, rs: seq<Target<string>>,
                         spec: Parse<Cmd<string>>) {
    && pos <= |s| && Placed(s, ret) && View(s, ret) == Wrap(Exec(argv), rs)
    && Args(argv, rs, Tokens(s, pos)) == spec
  }

  lemma StopAhead(s: CString, p: nat, stop: bool)
    requires p <= |s| && (p < |s| ==> !IsSpace(s[p]))
    requires stop <==> p < |s| && s[p] in "|)&;"
    ensures Stops(Tokens(s, p)) <==> stop || Tokens(s, p) == []
  {
    hide Tokens;
    Lookahead(s, p);
  }

  lemma SymbolAhead(s: CString, p: nat, c: char, b: bool)
    requires p <= |s| && (p < |s| ==> !IsSpace(s[p])) && IsSymbol(c) && c != '>'
    requires b <==> p < |s| && s[p] in [c]
    ensures b <==> StartsWith(Tokens(s, p), c)
  {
    hide Tokens;
    Lookahead(s, p);
  }

  // ------------------------------------------------------- NUL termination

  ghost function EndsOf(argv: seq<Span>): set<nat> {
    set p | p in argv :: p.eq
  }

  /** Where the words of a tree end. */
  ghost function Ends(c: Cmd<Span>): set<nat> {
    match c
    case Exec(argv) => EndsOf(argv)
    case Redir(d, to) => Ends(d) + {to.file.eq}
    case Pipe(l, r) => Ends(l) + Ends(r)
    case List(l, r) => Ends(l) + Ends(r)
    case Back(d) => Ends(d)
  }

  /** `b` with a NUL at each position of `ends`. */
  ghost predicate Cleared(a: seq<char>, b: seq<char>, ends: set<nat>) {
    |a| == |b| && forall i :: 0 <= i < |a| ==> b[i] == if i in ends then NUL else a[i]
  }

  /** The tree as its pointers read in a buffer. */
  ghost function Strings(buf: seq<char>, c: Cmd<Span>): Cmd<string> {
    match c
    case Exec(argv) => Exec(seq(|argv|, i requires 0 <= i < |argv| => StringAt(buf, argv[i].q)))
    case Redir(d, to) => Redir(Strings(buf, d), Target(StringAt(buf, to.file.q), to.mode))
    case Pipe(l, r) => Pipe(Strings(buf, l), Strings(buf, r))
    case List(l, r) => List(Strings(buf, l), Strings(buf, r))
    case Back(d) => Back(Strings(buf, d))
  }

  ghost predicate Delimiter(s: CString, e: nat) {
    e <= |s| && (e < |s| ==> !IsWord(s[e]))
  }

  lemma {:induction false} EndsDelimit(s: CString, c: Cmd<Span>, e: nat)
    requires Placed(s, c) && e in Ends(c)
    ensures Delimiter(s, e)
  {
    match c
    case Exec(argv) =>
    case Redir(d, to) => if e in Ends(d) { EndsDelimit(s, d, e); }
    case Pipe(l, r) => if e in Ends(l) { EndsDelimit(s, l, e); } else { EndsDelimit(s, r, e); }
    case List(l, r) => if e in Ends(l) { EndsDelimit(s, l, e); } else { EndsDelimit(s, r, e); }
    case Back(d) => EndsDelimit(s, d, e);
  }

  /** No NUL is written inside a word, and one is written behind it. */
  lemma SpanReads(s: CString, buf: seq<char>, ends: set<nat>, p: Span)
    requires SpanOk(s, p) && p.eq in ends && Cleared(s + [NUL], buf, ends)
    requires forall e :: e in ends ==> Delimiter(s, e)
    ensures StringAt(buf, p.q) == Text(s, p)
  {
    var w := Text(s, p);
    forall i | p.q <= i < p.eq
      ensures i !in ends && buf[i] == s[i]
    {
      assert IsWord(s[i]);
      assert !Delimiter(s, i);
    }
    assert buf[p.q..p.eq] == w;
    StringAtIs(buf, p.q, w);
  }

  /** Every pointer of the tree reads as the word that was delimited. */
  lemma {:induction false} ReadsBack(s: CString, buf: seq<char>, ends: set<nat>, c: Cmd<Span>)
    requires Placed(s, c) && Ends(c) <= ends && Cleared(s + [NUL], buf, ends)
    requires forall e :: e in ends ==> Delimiter(s, e)
    ensures Strings(buf, c) == View(s, c)
  {
    hide Cleared, SpanOk, StringAt, Text;
    match c
    case Exec(argv) =>
      forall i | 0 <= i < |argv|
        ensures StringAt(buf, argv[i].q) == Text(s, argv[i])
      {
        assert argv[i] in argv;
        SpanReads(s, buf, ends, argv[i]);
      }
    case Redir(d, to) =>
      ReadsBack(s, buf, ends, d);
      SpanReads(s, buf, ends, to.file);
    case Pipe(l, r) =>
      ReadsBack(s, buf, ends, l);
      ReadsBack(s, buf, ends, r);
    case List(l, r) =>
      ReadsBack(s, buf, ends, l);
      ReadsBack(s, buf, ends, r);
    case Back(d) =>
      ReadsBack(s, buf, ends, d);
  }

  lemma ClearedTwice(a: seq<char>, b: seq<char>, c: seq<char>, e: set<nat>, f: set<nat>)
    requires Cleared(a, b, e) && Cleared(b, c, f)
    ensures Cleared(a, c, e + f)
  {
  }

  /** A parse of the line `s` that left the buffer `buf`. */
  ghost predicate ParsedAs(out: Outcome, buf: seq<char>, spec: Parse<Cmd<string>>) {
    match spec
    case Err(e) => out == Panic(e)
    case Ok(t, _) => out.Done? && Strings(buf, out.cmd) == t
  }

  /** The parser's result is what may be written, and it fails on all else. */
  lemma AcceptsExactly(ts: seq<Token>)
    ensures Whole(ts).Ok? ==> Writes(ts, Whole(ts).value) && Balances(ts, 0)
    ensures Whole(ts).Err? ==> forall t :: !Writes(ts, t)
  {
    hide Writes, Balances, Line;
    if Whole(ts).Ok? {
      ParsesExactly(ts, Whole(ts).value);
      AcceptedIsBalanced(ts);
    } else {
      forall t: Cmd<string>
        ensures !Writes(ts, t)
      {
        ParsesExactly(ts, t);
      }
    }
  }

  class Parser {
    /** the command line, the cursor, and the buffer the line is in */
    const s: CString
    var pos: nat
    var buf: seq<char>

    constructor (s: CString)
      ensures this.s == s && pos == 0 && buf == s + [NUL]
    {
      this.s := s;
      pos := 0;
      buf := s + [NUL];
    }

    method SkipSpace()
      requires pos <= |s|
      modifies this`pos
      ensures old(pos) <= pos <= |s| && (pos < |s| ==> !IsSpace(s[pos]))
      ensures Tokens(s, pos) == Tokens(s, old(pos))
    {
      while pos < |s| && IsSpace(s[pos])
        invariant old(pos) <= pos <= |s|
        invariant forall i :: old(pos) <= i < pos ==> IsSpace(s[i])
      {
        pos := pos + 1;
      }
      SkipAll(s, old(pos), pos);
    }

    /** peek. */
    method Peek(toks: string) returns (b: bool)
      requires pos <= |s|
      modifies this`pos
      ensures old(pos) <= pos <= |s| && (pos < |s| ==> !IsSpace(s[pos]))
      ensures Tokens(s, pos) == Tokens(s, old(pos))
      ensures b <==> pos < |s| && s[pos] in toks
    {
      SkipSpace();
      b := At(s, pos) != NUL && At(s, pos) in toks;
    }

    /** gettoken: the next token and the cursor behind it; NUL at the end. */
    method GetToken() returns (tok: char, p: Span)
      requires pos <= |s|
      modifies this`pos
      ensures old(pos) <= pos <= |s|
      ensures Got(s, old(pos), pos, tok, p)
    {
      hide Tokens;
      SkipSpace();
      ghost var start := pos;
      var q := pos;
      tok := At(s, pos);
      if pos < |s| {
        if tok == '>' {
          pos := pos + 1;
          if At(s, pos) == '>' {
            tok := '+';
            pos := pos + 1;
          }
        } else if IsSymbol(tok) {
          pos := pos + 1;
        } else {
          tok := 'a';
          while pos < |s| && !IsSpace(s[pos]) && !IsSymbol(s[pos])
            invariant start <= pos <= |s|
            invariant forall i :: start <= i < pos ==> IsWord(s[i])
          {
            pos := pos + 1;
          }
          WordEndIs(s, start, pos);
        }
        assert start < pos == TokenEnd(s, start) && Delimits(s, TokenAt(s, start), tok, Span(q, pos));
      }
      hide TokenEnd, TokenAt, Delimits;
      p := Span(q, pos);
      SkipSpace();
      Advanced(s, old(pos), start, pos, tok, p);
    }

    /** parseredirs. */
    method ParseRedirs(cmd: Cmd<Span>) returns (out: Outcome)
      requires pos <= |s| && Placed(s, cmd)
      modifies this`pos
      ensures old(pos) <= pos
      ensures Agrees(s, out, pos, WrapAll(View(s, cmd), Redirs(Tokens(s, old(pos)))))
    {
      hide Tokens, View, SpanOk, Text;
      var c := cmd;
      var more := Peek("<>");
      Lookahead(s, pos);
      while more
        invariant old(pos) <= pos <= |s| && Placed(s, c)
        invariant more <==> StartsRedir(Tokens(s, pos))
        invariant WrapAll(View(s, c), Redirs(Tokens(s, pos))) == WrapAll(View(s, cmd), Redirs(Tokens(s, old(pos))))
        decreases |s| - pos
      {
        ghost var ts := Tokens(s, pos);
        var tok, _ := GetToken();
        var word, p := GetToken();
        if word != 'a' {
          return Panic(MissingFile);
        }
        assert ts[2..] == Tokens(s, pos);
        RedirStep(s, c, ts, p, tok);
        c := Redir(c, Target(p, if tok == '<' then In else Out));
        more := Peek("<>");
        Lookahead(s, pos);
      }
      out := Done(c);
    }

    /** parseexec's treatment of one token `tok` that may be an argument. */
    method ParseArg(tok: char, p: Span, ret: Cmd<Span>, argc: nat,
                    ghost ts: seq<Token>, ghost argv: seq<string>, ghost rs: seq<Target<string>>)
      returns (out: Outcome, ghost argv': seq<string>, ghost rs': seq<Target<string>>)
      requires pos <= |s| && !Stops(ts) && Tokens(s, pos) == ts[1..] && Delimits(s, ts[0], tok, p)
      requires Placed(s, ret) && View(s, ret) == Wrap(Exec(argv), rs) && |argv| == argc
      modifies this`pos
      ensures old(pos) <= pos
      ensures out.Panic? ==> Args(argv, rs, ts) == Err(out.why)
      ensures out.Done? ==> Midway(s, out.cmd, pos, argv', rs', Args(argv, rs, ts)) && |argv'| == argc + 1 < MAXARGS
    {
      hide Tokens, View, Wrap, SpanOk, Text, Redirs, PushArg, Placed, Args;
      ArgsStep(argv, rs, ts);
      argv', rs' := argv, rs;
      if tok != 'a' {
        return Panic(Syntax), argv', rs';
      }
      PushView(s, ret, p);
      PushWrap(Exec(argv), rs, Text(s, p));
      PushExec(argv, Text(s, p));
      argv' := argv + [Text(s, p)];
      if argc + 1 >= MAXARGS {
        return Panic(TooManyArgs), argv', rs';
      }
      out := ParseRedirs(PushArg(ret, p));
      ghost var more := Redirs(ts[1..]);
      if more.Ok? {
        WrapTwice(Exec(argv'), rs, more.value);
        rs' := rs + more.value;
      }
    }

    /** parseexec, when it is not a block. */
    method ParseSimple() returns (out: Outcome)
      requires pos <= |s|
      modifies this`pos
      ensures old(pos) <= pos
      ensures Agrees(s, out, pos, Simple(Tokens(s, old(pos))))
    {
      var argc := 0;
      ghost var ts, argv: seq<string> := Tokens(s, pos), [];
      assert View(s, Exec([])) == Exec(argv);
      hide Tokens, View, Wrap, SpanOk, Text, Redirs, Placed, Args, Stops;
      out := ParseRedirs(Exec([]));
      if out.Panic? {
        return;
      }
      ghost var rs := Redirs(ts).value;
      ghost var spec := Simple(ts);
      assert Midway(s, out.cmd, pos, argv, rs, spec);
      var stop := Peek("|)&;");
      StopAhead(s, pos, stop);
      while !stop
        invariant old(pos) <= pos <= |s|
        invariant out.Done? && Midway(s, out.cmd, pos, argv, rs, spec)
        invariant |argv| == argc < MAXARGS
        invariant Stops(Tokens(s, pos)) <==> stop || Tokens(s, pos) == []
        decreases |s| - pos
      {
        ghost var now := Tokens(s, pos);
        var tok, p := GetToken();
        if tok == NUL {
          break;
        }
        out, argv, rs := ParseArg(tok, p, out.cmd, argc, now, argv, rs);
        if out.Panic? {
          return;
        }
        argc := argc + 1;
        stop := Peek("|)&;");
        StopAhead(s, pos, stop);
      }
      ArgsStep(argv, rs, Tokens(s, pos));
    }

    /** Whether the next token is the symbol `c`. */
    method PeekSymbol(c: char) returns (b: bool)
      requires pos <= |s| && IsSymbol(c) && c != '>'
      modifies this`pos
      ensures old(pos) <= pos <= |s| && Tokens(s, pos) == Tokens(s, old(pos))
      ensures b <==> StartsWith(Tokens(s, pos), c)
    {
      hide Tokens;
      b := Peek([c]);
      SymbolAhead(s, pos, c, b);
    }

    /** Past a token that is known to be there. */
    method SkipToken()
      requires pos <= |s| && Tokens(s, pos) != []
      modifies this`pos
      ensures old(pos) < pos <= |s| && Tokens(s, pos) == Tokens(s, old(pos))[1..]
    {
      hide Tokens;
      var _, _ := GetToken();
    }

    /** parseblock. */
    method ParseBlock() returns (out: Outcome)
      requires pos <= |s| && StartsWith(Tokens(s, pos), '(')
      modifies this`pos
      ensures old(pos) <= pos
      ensures Agrees(s, out, pos, Block(Tokens(s, old(pos))))
      decreases |s| - pos, 0
    {
      hide Tokens, View, Placed, Line, Redirs;
      SkipToken();
      out := ParseLine();
      if out.Panic? {
        return;
      }
      var close := PeekSymbol(')');
      if !close {
        return Panic(MissingParen);
      }
      SkipToken();
      out := ParseRedirs(out.cmd);
    }

    /** parseexec. */
    method ParseCommand() returns (out: Outcome)
      requires pos <= |s|
      modifies this`pos
      ensures old(pos) <= pos
      ensures Agrees(s, out, pos, Command(Tokens(s, old(pos))))
      decreases |s| - pos, 1
    {
      hide Tokens, View, Placed, Block, Simple;
      var open := PeekSymbol('(');
      if open {
        out := ParseBlock();
      } else {
        out := ParseSimple();
      }
    }

    /** parsepipe. */
    method ParsePipe() returns (out: Outcome)
      requires pos <= |s|
      modifies this`pos
      ensures old(pos) <= pos
      ensures Agrees(s, out, pos, Pipeline(Tokens(s, old(pos))))
      decreases |s| - pos, 2
    {
      hide Tokens, Command;
      ghost var ts := Tokens(s, pos);
      out := ParseCommand();
      if out.Panic? {
        return;
      }
      var more := PeekSymbol('|');
      if more {
        var left := out.cmd;
        SkipToken();
        out := ParsePipe();
        if out.Done? {
          out := Done(Pipe(left, out.cmd));
        }
      }
    }

    /** parseline. */
    method ParseLine() returns (out: Outcome)
      requires pos <= |s|
      modifies this`pos
      ensures old(pos) <= pos
      ensures Agrees(s, out, pos, Line(Tokens(s, old(pos))))
      decreases |s| - pos, 3
    {
      hide Tokens, Pipeline;
      ghost var ts := Tokens(s, pos);
      out := ParsePipe();
      if out.Panic? {
        return;
      }
      ghost var first := Pipeline(ts);
      var more := PeekSymbol('&');
      while more
        invariant old(pos) <= pos <= |s|
        invariant out.Done? && Placed(s, out.cmd)
        invariant more <==> StartsWith(Tokens(s, pos), '&')
        invariant Backs(View(s, out.cmd), Tokens(s, pos)) == Backs(first.value, first.rest)
        decreases |s| - pos
      {
        SkipToken();
        out := Done(Back(out.cmd));
        more := PeekSymbol('&');
      }
      more := PeekSymbol(';');
      if more {
        var left := out.cmd;
        SkipToken();
        out := ParseLine();
        if out.Done? {
          out := Done(List(left, out.cmd));
        }
      }
    }

    /** nulterminate. */
    method NulTerminate(c: Cmd<Span>)
      requires Placed(s, c) && |buf| == |s| + 1
      modifies this`buf
      ensures Cleared(old(buf), buf, Ends(c))
      decreases c
    {
      match c
      case Exec(argv) =>
        var i := 0;
        while i < |argv|
          invariant 0 <= i <= |argv| && Cleared(old(buf), buf, EndsOf(argv[..i]))
        {
          assert SpanOk(s, argv[i]);
          assert argv[..i + 1] == argv[..i] + [argv[i]];
          assert EndsOf(argv[..i + 1]) == EndsOf(argv[..i]) + {argv[i].eq};
          buf := buf[argv[i].eq := NUL];
          i := i + 1;
        }
        assert argv[..i] == argv;
      case Redir(d, to) =>
        NulTerminate(d);
        assert SpanOk(s, to.file);
        buf := buf[to.file.eq := NUL];
      case Pipe(l, r) =>
        NulTerminate(l);
        ghost var middle := buf;
        NulTerminate(r);
        ClearedTwice(old(buf), middle, buf, Ends(l), Ends(r));
      case List(l, r) =>
        NulTerminate(l);
        ghost var middle := buf;
        NulTerminate(r);
        ClearedTwice(old(buf), middle, buf, Ends(l), Ends(r));
      case Back(d) =>
        NulTerminate(d);
    }

    /** parsecmd: the tree, whose pointers read in the final buffer as the grammar
        says; in particular a printed tree comes back as itself. */
    method ParseCmd() returns (out: Outcome)
      requires pos == 0 && buf == s + [NUL]
      modifies this`pos, this`buf
      ensures ParsedAs(out, buf, Whole(Tokens(s, 0)))
      ensures forall t :: Fits(t) && GoodWords(t) && s == Render(PrintLine(t)) ==> out.Done? && Strings(buf, out.cmd) == t
      ensures out.Done? ==> Writes(Tokens(s, 0), Strings(buf, out.cmd)) && Balances(Tokens(s, 0), 0)
      ensures out.Panic? ==> forall t :: !Writes(Tokens(s, 0), t)
    {
      AcceptsExactly(Tokens(s, 0));
      hide Writes, Balances, Whole;
      hide Tokens, Line, View, Placed;
      forall t | Fits(t) && GoodWords(t) && s == Render(PrintLine(t))
        ensures Whole(Tokens(s, 0)) == Ok(t, [])
      {
        TextRoundTrip(t, s);
      }
      out := ParseLine();
      if out.Panic? {
        return;
      }
      var _ := Peek("");
      Lookahead(s, pos);
      if pos != |s| {
        return Panic(Leftovers);
      }
      NulTerminate(out.cmd);
      forall e | e in Ends(out.cmd)
        ensures Delimiter(s, e)
      {
        EndsDelimit(s, out.cmd, e);
      }
      ReadsBack(s, buf, Ends(out.cmd), out.cmd);
    }
  }
}
