/**
 The text of a command line: any blanks stand for any others, tokens need blanks between them only
 where they would run together, and what is read from a line, however it is spaced, is the command
 that was written.
 */
module ShellText {
  import opened ShellSpec

  // ---------------------------------------------------------------- blanks and words

  predicate Blank(b: string) {
    forall i :: 0 <= i < |b| ==> b[i] in " \t\r\n\U{0B}"
  }

  /** A word that can be typed: not empty, no blanks, no symbols. */
  predicate GoodWord(w: string) {
    w != "" && forall i :: 0 <= i < |w| ==> w[i] !in " \t\r\n\U{0B}<|>&;()"
  }

  predicate GoodToken(t: Token) {
    match t
    case Word(w) => GoodWord(w)
    case Sym(c) => c in "<|>&;()+"
  }

  predicate AllGood(ts: seq<Token>) {
    forall i :: 0 <= i < |ts| ==> GoodToken(ts[i])
  }

  function Spell(t: Token): (s: string) {
    match t
    case Word(w) => w
    case Sym(c) => if c == '+' then ">>" else [c]
  }

  lemma CharKinds(c: char)
    ensures (IsSpace(c) <==> c in " \t\r\n\U{0B}") && (IsSymbol(c) <==> c in "<|>&;()")
    ensures WordChar(c) <==> c !in " \t\r\n\U{0B}<|>&;()"
  {
    var blanks, symbols, both := " \t\r\n\U{0B}", "<|>&;()", " \t\r\n\U{0B}<|>&;()";
    assert both == blanks + symbols;
    assert blanks[0] == ' ' && blanks[1] == '\t' && blanks[2] == '\r' && blanks[3] == '\n' && blanks[4] == '\U{0B}';
    assert symbols[0] == '<' && symbols[1] == '|' && symbols[2] == '>' && symbols[3] == '&' && symbols[4] == ';';
    assert symbols[5] == '(' && symbols[6] == ')';
  }

  lemma WordLenIs(s: string, n: nat)
    requires n <= |s| && (forall i :: 0 <= i < n ==> WordChar(s[i])) && (n < |s| ==> !WordChar(s[n]))
    ensures WordLen(s) == n
  {
  }

  // ---------------------------------------------------------------- spacing

  /** Written one after the other these two would be read as something else. */
  predicate Apart(t: Token, u: Token) {
    (t.Word? && u.Word?) || (t == Sym('>') && (u == Sym('>') || u == Sym('+')))
  }

  /** Blanks before every token and after the last, none empty where two tokens must be kept apart. */
  predicate Spacing(ts: seq<Token>, gaps: seq<string>) {
    && |gaps| == |ts| + 1
    && (forall i :: 0 <= i < |gaps| ==> Blank(gaps[i]))
    && forall i :: 0 < i < |ts| && Apart(ts[i - 1], ts[i]) ==> gaps[i] != ""
  }

  function Spaced(ts: seq<Token>, gaps: seq<string>): (s: string)
    requires |gaps| == |ts| + 1
  {
    if ts == [] then gaps[0] else gaps[0] + (Spell(ts[0]) + Spaced(ts[1..], gaps[1..]))
  }

  lemma {:induction false} BlankFront(b: string, s: string)
    requires Blank(b)
    ensures Tokens(b + s) == Tokens(s)
  {
    if b == "" {
      assert b + s == s;
    } else {
      CharKinds(b[0]);
      BlankFront(b[1..], s);
      assert (b + s)[1..] == b[1..] + s;
    }
  }

  /** What follows the token does not run on from it. */
  predicate Stops(t: Token, rest: string) {
    rest != "" ==> (t.Word? ==> !WordChar(rest[0])) && (t == Sym('>') ==> rest[0] != '>')
  }

  lemma LexOne(t: Token, rest: string)
    requires GoodToken(t) && Stops(t, rest)
    ensures Tokens(Spell(t) + rest) == [t] + Tokens(rest)
  {
    var s := Spell(t) + rest;
    CharKinds(s[0]);
    assert s[|Spell(t)|..] == rest;
    if t.Word? {
      forall i | 0 <= i < |t.w|
        ensures WordChar(s[i])
      {
        CharKinds(t.w[i]);
      }
      WordLenIs(s, |t.w|);
      assert s[..|t.w|] == t.w;
    }
  }

  lemma SpacedStops(t: Token, ts: seq<Token>, gaps: seq<string>)
    requires AllGood(ts) && Spacing(ts, gaps) && (ts != [] && Apart(t, ts[0]) ==> gaps[0] != "")
    ensures Stops(t, Spaced(ts, gaps))
  {
    var s := Spaced(ts, gaps);
    if s != "" {
      CharKinds(s[0]);
      if gaps[0] == "" && ts != [] {
        assert s[0] == Spell(ts[0])[0];
      } else {
        assert s[0] == gaps[0][0];
      }
    }
  }

  lemma SpacingTail(ts: seq<Token>, gaps: seq<string>)
    requires ts != [] && Spacing(ts, gaps)
    ensures Spacing(ts[1..], gaps[1..]) && (|ts| > 1 && Apart(ts[0], ts[1]) ==> gaps[1] != "")
  {
    forall i | 0 < i < |ts[1..]| && Apart(ts[1..][i - 1], ts[1..][i])
      ensures gaps[1..][i] != ""
    {
      assert Apart(ts[i], ts[i + 1]);
    }
  }

  /** However tokens are spaced, they are the tokens read. */
  lemma {:induction false} LexBack(ts: seq<Token>, gaps: seq<string>)
    requires AllGood(ts) && Spacing(ts, gaps)
    ensures Tokens(Spaced(ts, gaps)) == ts
    decreases |ts|
  {
    if ts == [] {
      BlankFront(gaps[0], "");
      assert gaps[0] + "" == gaps[0];
    } else {
      var rest := Spaced(ts[1..], gaps[1..]);
      SpacingTail(ts, gaps);
      LexBack(ts[1..], gaps[1..]);
      SpacedStops(ts[0], ts[1..], gaps[1..]);
      LexOne(ts[0], rest);
      BlankFront(gaps[0], Spell(ts[0]) + rest);
      assert ts == [ts[0]] + ts[1..];
    }
  }

  /** The token at the front of a line that does not start with a blank, and what is left. */
  lemma FirstToken(s: string) returns (t: Token, rest: string)
    requires s != "" && !IsSpace(s[0])
    ensures GoodToken(t) && s == Spell(t) + rest && Stops(t, rest) && Tokens(s) == [t] + Tokens(rest)
  {
    CharKinds(s[0]);
    if WordChar(s[0]) {
      var n := WordLen(s);
      t, rest := Word(s[..n]), s[n..];
      forall i | 0 <= i < n
        ensures t.w[i] !in " \t\r\n\U{0B}<|>&;()"
      {
        CharKinds(s[i]);
      }
    } else if s[0] == '>' && |s| > 1 && s[1] == '>' {
      t, rest := Sym('+'), s[2..];
      assert "<|>&;()+"[7] == '+';
    } else {
      t, rest := Sym(s[0]), s[1..];
      assert "<|>&;()+" == "<|>&;()" + "+";
    }
    assert s == Spell(t) + rest;
  }

  lemma SpacedFront(c: char, ts: seq<Token>, gaps: seq<string>)
    requires c in " \t\r\n\U{0B}" && Spacing(ts, gaps)
    ensures var more := [[c] + gaps[0]] + gaps[1..]; Spacing(ts, more) && Spaced(ts, more) == [c] + Spaced(ts, gaps)
  {
    var more := [[c] + gaps[0]] + gaps[1..];
    assert forall i :: 0 < i < |gaps| ==> more[i] == gaps[i];
    assert more[1..] == gaps[1..];
  }

  lemma SpacedToken(t: Token, ts: seq<Token>, gaps: seq<string>)
    requires GoodToken(t) && AllGood(ts) && Spacing(ts, gaps) && Stops(t, Spaced(ts, gaps))
    ensures Spacing([t] + ts, [""] + gaps) && Spaced([t] + ts, [""] + gaps) == Spell(t) + Spaced(ts, gaps)
  {
    var us, more := [t] + ts, [""] + gaps;
    assert us[1..] == ts && more[1..] == gaps;
    if ts != [] { CharKinds(Spell(ts[0])[0]); }
    assert ts != [] && gaps[0] == "" ==> Spaced(ts, gaps)[0] == Spell(ts[0])[0];
    forall i | 0 < i < |us| && Apart(us[i - 1], us[i])
      ensures more[i] != ""
    {
      assert i > 1 ==> Apart(ts[i - 2], ts[i - 1]);
    }
  }

  /** Every line is a spacing of the tokens read from it. */
  lemma {:induction false} LexForth(s: string) returns (gaps: seq<string>)
    ensures AllGood(Tokens(s)) && Spacing(Tokens(s), gaps) && Spaced(Tokens(s), gaps) == s
    decreases |s|
  {
    if s == "" {
      gaps := [""];
    } else if IsSpace(s[0]) {
      CharKinds(s[0]);
      gaps := LexForth(s[1..]);
      SpacedFront(s[0], Tokens(s), gaps);
      gaps := [[s[0]] + gaps[0]] + gaps[1..];
    } else {
      var t, rest := FirstToken(s);
      gaps := LexForth(rest);
      SpacedToken(t, Tokens(rest), gaps);
      gaps := [""] + gaps;
    }
  }

  /** A line is read as these tokens if and only if it is some spacing of them. */
  lemma LexExact(s: string, ts: seq<Token>)
    ensures Tokens(s) == ts <==> AllGood(ts) && exists gaps :: Spacing(ts, gaps) && Spaced(ts, gaps) == s
  {
    var found := LexForth(s);
    if gaps :| AllGood(ts) && Spacing(ts, gaps) && Spaced(ts, gaps) == s { LexBack(ts, gaps); }
  }

  lemma Grouped<T>(a: seq<T>, b: seq<T>, c: seq<T>)
    ensures a + b + c == a + (b + c)
  {
  }

  lemma LexTokenThen(t: Token, rest: string, v: string)
    requires GoodToken(t) && Stops(t, rest) && v != "" && IsSpace(v[0]) && Tokens(rest + v) == Tokens(rest) + Tokens(v)
    ensures Tokens(Spell(t) + (rest + v)) == [t] + Tokens(rest) + Tokens(v)
  {
    assert (rest + v)[0] == if rest == "" then v[0] else rest[0];
    LexOne(t, rest + v);
    Grouped([t], Tokens(rest), Tokens(v));
  }

  lemma LexSpaceThen(s: string, v: string)
    requires s != "" && IsSpace(s[0]) && Tokens(s[1..] + v) == Tokens(s[1..]) + Tokens(v)
    ensures Tokens(s + v) == Tokens(s) + Tokens(v)
  {
    assert (s + v)[1..] == s[1..] + v;
  }

  lemma {:induction false} LexThen(s: string, v: string)
    requires v != "" && IsSpace(v[0])
    ensures Tokens(s + v) == Tokens(s) + Tokens(v)
    decreases |s|
  {
    if s == "" {
      assert s + v == v;
    } else if IsSpace(s[0]) {
      LexThen(s[1..], v);
      LexSpaceThen(s, v);
    } else {
      var t, rest := FirstToken(s);
      LexThen(rest, v);
      LexTokenThen(t, rest, v);
      Grouped(Spell(t), rest, v);
    }
  }

  /** Blanks between two pieces of a line keep their tokens apart, whichever blanks and however many. */
  lemma LexBetween(s: string, b: string, u: string)
    requires Blank(b) && b != ""
    ensures Tokens(s + b + u) == Tokens(s) + Tokens(u)
  {
    CharKinds(b[0]);
    LexThen(s, b + u);
    BlankFront(b, u);
    Grouped(s, b, u);
  }

  /** Blanks at either end of a line change nothing: not the newline that ends it, nor any others. */
  lemma LineEnds(s: string, b: string)
    requires Blank(b)
    ensures Parse(b + s) == Parse(s) && Parse(s + b) == Parse(s) && Parse(s + "\n") == Parse(s)
  {
    BlankFront(b, s);
    LexBetween(s, "\n", "");
    assert s + "\n" + "" == s + "\n" && Tokens(s) + [] == Tokens(s);
    if b == "" {
      assert s + b == s;
    } else {
      LexBetween(s, b, "");
      assert s + b + "" == s + b;
    }
  }

  // ---------------------------------------------------------------- commands

  /** Every word of the command can be typed: not empty, no blanks, no symbols. */
  predicate Spelled(t: Cmd<string>) {
    match t
    case Exec(args) => forall i :: 0 <= i < |args| ==> GoodWord(args[i])
    case Redir(c, f, _) => Spelled(c) && GoodWord(f)
    case Pipe(l, r) => Spelled(l) && Spelled(r)
    case List(l, r) => Spelled(l) && Spelled(r)
    case Back(c) => Spelled(c)
  }

  lemma {:induction false} RedirsGood(t: Cmd<string>)
    requires Spelled(t)
    ensures Spelled(Base(t)) && forall i :: 0 <= i < |RedirsIn(t)| ==> GoodWord(RedirsIn(t)[i].file)
  {
    if t.Redir? { RedirsGood(t.cmd); }
  }

  lemma {:induction false} PrintRedirsGood(rs: seq<Redirection<string>>)
    requires forall i :: 0 <= i < |rs| ==> GoodWord(rs[i].file)
    ensures AllGood(PrintRedirs(rs))
  {
    if rs != [] { PrintRedirsGood(rs[1..]); }
  }

  lemma {:induction false} PrintGood(t: Cmd<string>)
    requires Spelled(t)
    ensures AllGood(PrintExec(t)) && AllGood(PrintLine(t)) && AllGood(PrintBack(t)) && AllGood(PrintPipe(t))
    decreases t, 1
  {
    RedirsGood(t);
    PrintRedirsGood(RedirsIn(t));
    var b := Base(t);
    var head := if b.Exec? then PrintWords(b.args) else [Sym('(')] + PrintInner(b) + [Sym(')')];
    if !b.Exec? { InnerGood(b); }
    assert AllGood(head);
    assert PrintExec(t) == head + PrintRedirs(RedirsIn(t));
    assert AllGood(PrintPipe(t));
    assert AllGood(PrintBack(t));
  }

  lemma {:induction false} InnerGood(t: Cmd<string>)
    requires Spelled(t) && (t.Pipe? || t.List? || t.Back?)
    ensures AllGood(PrintInner(t))
    decreases t, 0
  {
    match t
    case Pipe(l, r) =>
      PrintGood(l);
      PrintGood(r);
    case List(l, r) =>
      PrintGood(l);
      PrintGood(r);
    case Back(c) => PrintGood(c);
  }

  // ---------------------------------------------------------------- nothing lost, nothing added

  function One(b: bool): (n: nat) {
    if b then 1 else 0
  }

  /** How often `x` stands in a line: parentheses only group, and >> is as good as >. */
  function InLine(ts: seq<Token>, x: Token): (n: nat) {
    if ts == [] then 0
    else InLine(ts[1..], x) + One(ts[0] !in {Sym('('), Sym(')')} && x == if ts[0] == Sym('+') then Sym('>') else ts[0])
  }

  /** Parentheses opened less parentheses closed. */
  function Open(ts: seq<Token>): (n: int) {
    if ts == [] then 0 else Open(ts[1..]) + One(ts[0] == Sym('(')) - One(ts[0] == Sym(')'))
  }

  function InWords(args: seq<string>, x: Token): (n: nat) {
    if args == [] then 0 else InWords(args[..|args| - 1], x) + One(x == Word(args[|args| - 1]))
  }

  function InRedirs(rs: seq<Redirection<string>>, x: Token): (n: nat) {
    if rs == [] then 0
    else One(x == Sym(if rs[0].out then '>' else '<')) + One(x == Word(rs[0].file)) + InRedirs(rs[1..], x)
  }

  /** How often a command has to be written with `x`. */
  function InCmd(t: Cmd<string>, x: Token): (n: nat) {
    match t
    case Exec(args) => InWords(args, x)
    case Redir(c, f, out) => InCmd(c, x) + One(x == Sym(if out then '>' else '<')) + One(x == Word(f))
    case Pipe(l, r) => InCmd(l, x) + One(x == Sym('|')) + InCmd(r, x)
    case List(l, r) => InCmd(l, x) + One(x == Sym(';')) + InCmd(r, x)
    case Back(c) => InCmd(c, x) + One(x == Sym('&'))
  }

  /** Reading from `ts` to `rest` used up `n` of `x` and left no parenthesis open. */
  predicate Took(ts: seq<Token>, rest: seq<Token>, x: Token, n: int) {
    InLine(ts, x) == InLine(rest, x) + n && Open(ts) == Open(rest)
  }

  lemma {:induction false} WrapCount(c: Cmd<string>, rs: seq<Redirection<string>>, x: Token)
    ensures InCmd(Wrap(c, rs), x) == InCmd(c, x) + InRedirs(rs, x)
    decreases |rs|
  {
    if rs != [] { WrapCount(Redir(c, rs[0].file, rs[0].out), rs[1..], x); }
  }

  lemma {:induction false} RedirsMore(a: seq<Redirection<string>>, b: seq<Redirection<string>>, x: Token)
    ensures InRedirs(a + b, x) == InRedirs(a, x) + InRedirs(b, x)
  {
    if a == [] {
      assert a + b == b;
    } else {
      RedirsMore(a[1..], b, x);
      assert (a + b)[1..] == a[1..] + b;
    }
  }

  lemma {:induction false} RedirsTook(ts: seq<Token>, x: Token)
    ensures var r := Redirs(ts); r.Ok? ==> Took(ts, r.rest, x, InRedirs(r.value, x))
    decreases |ts|
  {
    if Next(ts, {'<', '>', '+'}) && |ts| >= 2 && ts[1].Word? {
      RedirsTook(ts[2..], x);
      assert ts[1..][1..] == ts[2..];
      var r := Redirs(ts);
      if r.Ok? { assert r.value[0] == To(ts[1].w, ts[0].c != '<') && r.value[1..] == Redirs(ts[2..]).value; }
    }
  }

  lemma {:induction false} ArgsTook(ts: seq<Token>, args: seq<string>, rs: seq<Redirection<string>>, x: Token)
    requires |args| < MAXARGS
    ensures var r := Args(ts, args, rs); r.Ok? ==> Took(ts, r.rest, x, InCmd(r.value, x) - InWords(args, x) - InRedirs(rs, x))
    decreases |ts|
  {
    WrapCount(Exec(args), rs, x);
    if ts != [] && ts[0].Word? && |args| + 1 < MAXARGS {
      var more := Redirs(ts[1..]);
      if more.Ok? {
        var now := args + [ts[0].w];
        ArgsTook(more.rest, now, rs + more.value, x);
        RedirsTook(ts[1..], x);
        RedirsMore(rs, more.value, x);
        assert now[..|now| - 1] == args;
      }
    }
  }

  lemma {:induction false} ExecTook(ts: seq<Token>, x: Token)
    ensures var r := ExecOf(ts); r.Ok? ==> Took(ts, r.rest, x, InCmd(r.value, x))
    decreases |ts|, 0
  {
    if Next(ts, {'('}) {
      LineTook(ts[1..], x);
      var body := LineOf(ts[1..]);
      if body.Ok? && Next(body.rest, {')'}) {
        RedirsTook(body.rest[1..], x);
        var rs := Redirs(body.rest[1..]);
        if rs.Ok? { WrapCount(body.value, rs.value, x); }
      }
    } else {
      RedirsTook(ts, x);
      var rs := Redirs(ts);
      if rs.Ok? { ArgsTook(rs.rest, [], rs.value, x); }
    }
  }

  lemma {:induction false} PipeTook(ts: seq<Token>, x: Token)
    ensures var r := PipeOf(ts); r.Ok? ==> Took(ts, r.rest, x, InCmd(r.value, x))
    decreases |ts|, 1
  {
    ExecTook(ts, x);
    var left := ExecOf(ts);
    if left.Ok? && Next(left.rest, {'|'}) { PipeTook(left.rest[1..], x); }
  }

  lemma {:induction false} BacksTook(c: Cmd<string>, ts: seq<Token>, x: Token)
    ensures var r := Backs(c, ts); Took(ts, r.rest, x, InCmd(r.value, x) - InCmd(c, x))
    decreases |ts|
  {
    if Next(ts, {'&'}) { BacksTook(Back(c), ts[1..], x); }
  }

  lemma {:induction false} LineTook(ts: seq<Token>, x: Token)
    ensures var r := LineOf(ts); r.Ok? ==> Took(ts, r.rest, x, InCmd(r.value, x))
    decreases |ts|, 2
  {
    PipeTook(ts, x);
    var first := PipeOf(ts);
    if first.Ok? {
      BacksTook(first.value, first.rest, x);
      var left := Backs(first.value, first.rest);
      if Next(left.rest, {';'}) { LineTook(left.rest[1..], x); }
    }
  }

  /**
   A command is made of the words and symbols of its line, each as often as it was typed, and nothing
   else; the parentheses of the line balance and no exec node has more than nine words.
   */
  lemma ParseTakesAll(s: string, x: Token)
    requires Parse(s).Ok?
    ensures InCmd(Parse(s).value, x) == InLine(Tokens(s), x) && Open(Tokens(s)) == 0 && Fits(Parse(s).value)
  {
    LineTook(Tokens(s), x);
  }

  // ---------------------------------------------------------------- >> and >

  /** With > written for every >>. */
  function Plain(ts: seq<Token>): (r: seq<Token>)
    ensures |r| == |ts| && forall i :: 0 <= i < |ts| ==> r[i] == if ts[i] == Sym('+') then Sym('>') else ts[i]
  {
    seq(|ts|, i requires 0 <= i < |ts| => if ts[i] == Sym('+') then Sym('>') else ts[i])
  }

  function PlainRest<T>(r: Parsed<T>): (p: Parsed<T>) {
    if r.Bad? then Bad else Ok(r.value, Plain(r.rest))
  }

  lemma PlainTail(ts: seq<Token>, n: nat)
    requires n <= |ts|
    ensures Plain(ts[n..]) == Plain(ts)[n..]
  {
  }

  lemma PlainGood(ts: seq<Token>)
    requires AllGood(Plain(ts))
    ensures AllGood(ts)
  {
    forall i | 0 <= i < |ts|
      ensures GoodToken(ts[i])
    {
      assert GoodToken(Plain(ts)[i]) && "<|>&;()+"[7] == '+';
    }
  }

  lemma {:induction false} RedirsPlain(ts: seq<Token>)
    ensures Redirs(Plain(ts)) == PlainRest(Redirs(ts))
    decreases |ts|
  {
    if Next(ts, {'<', '>', '+'}) && |ts| >= 2 && ts[1].Word? {
      RedirsPlain(ts[2..]);
      PlainTail(ts, 2);
    }
  }

  lemma {:induction false} ArgsPlain(ts: seq<Token>, args: seq<string>, rs: seq<Redirection<string>>)
    requires |args| < MAXARGS
    ensures Args(Plain(ts), args, rs) == PlainRest(Args(ts, args, rs))
    decreases |ts|
  {
    if ts != [] && ts[0].Word? && |args| + 1 < MAXARGS {
      RedirsPlain(ts[1..]);
      PlainTail(ts, 1);
      var more := Redirs(ts[1..]);
      if more.Ok? { ArgsPlain(more.rest, args + [ts[0].w], rs + more.value); }
    }
  }

  lemma {:induction false} ExecPlain(ts: seq<Token>)
    ensures ExecOf(Plain(ts)) == PlainRest(ExecOf(ts))
    decreases |ts|, 0
  {
    if Next(ts, {'('}) {
      LinePlain(ts[1..]);
      PlainTail(ts, 1);
      var body := LineOf(ts[1..]);
      if body.Ok? && Next(body.rest, {')'}) {
        RedirsPlain(body.rest[1..]);
        PlainTail(body.rest, 1);
      }
    } else {
      RedirsPlain(ts);
      var rs := Redirs(ts);
      if rs.Ok? { ArgsPlain(rs.rest, [], rs.value); }
    }
  }

  lemma {:induction false} PipePlain(ts: seq<Token>)
    ensures PipeOf(Plain(ts)) == PlainRest(PipeOf(ts))
    decreases |ts|, 1
  {
    ExecPlain(ts);
    var left := ExecOf(ts);
    if left.Ok? && Next(left.rest, {'|'}) {
      PipePlain(left.rest[1..]);
      PlainTail(left.rest, 1);
    }
  }

  lemma {:induction false} BacksPlain(c: Cmd<string>, ts: seq<Token>)
    ensures Backs(c, Plain(ts)) == PlainRest(Backs(c, ts))
    decreases |ts|
  {
    if Next(ts, {'&'}) {
      BacksPlain(Back(c), ts[1..]);
      PlainTail(ts, 1);
    }
  }

  /** A line means the same with > for every >>. */
  lemma {:induction false} LinePlain(ts: seq<Token>)
    ensures LineOf(Plain(ts)) == PlainRest(LineOf(ts))
    decreases |ts|, 2
  {
    PipePlain(ts);
    var first := PipeOf(ts);
    if first.Ok? {
      BacksPlain(first.value, first.rest);
      var left := Backs(first.value, first.rest);
      if Next(left.rest, {';'}) {
        LinePlain(left.rest[1..]);
        PlainTail(left.rest, 1);
      }
    }
  }

  /**
   However a command whose words can be typed is spaced, parsing the text rebuilds the command if and
   only if no exec node has more than nine words; otherwise the parser gives up on the text.
   */
  lemma RoundTrip(t: Cmd<string>, ts: seq<Token>, gaps: seq<string>)
    requires Spelled(t) && Plain(ts) == PrintLine(t) && Spacing(ts, gaps)
    ensures Parse(Spaced(ts, gaps)) == if Fits(t) then Ok(t, []) else Bad
  {
    PrintGood(t);
    PlainGood(ts);
    LexBack(ts, gaps);
    LinePlain(ts);
    assert PrintLine(t) + [] == PrintLine(t);
    if Fits(t) { LineBack(t, []); } else { LineBad(t, []); }
  }

  lemma SymbolWord(c: char, b: string)
    requires GoodWord(b) && c in "<|>&;()+"
    ensures Tokens(Spell(Sym(c)) + b) == [Sym(c), Word(b)]
  {
    CharKinds(b[0]);
    LexOne(Word(b), "");
    assert b + "" == b;
    LexOne(Sym(c), b);
  }

  lemma TwoAndSymbol(a: string, c: char, b: string)
    requires GoodWord(a) && GoodWord(b) && c in "<|>&;()+"
    ensures Tokens(a + Spell(Sym(c)) + b) == [Word(a), Sym(c), Word(b)]
  {
    var mid := Spell(Sym(c));
    SymbolWord(c, b);
    CharKinds(mid[0]);
    LexOne(Word(a), mid + b);
    Grouped(a, mid, b);
  }

  lemma ReadsAs(t: Cmd<string>, s: string)
    requires Spelled(t) && Fits(t) && Plain(Tokens(s)) == PrintLine(t)
    ensures Parse(s) == Ok(t, [])
  {
    var gaps := LexForth(s);
    RoundTrip(t, Tokens(s), gaps);
  }

  /** A simple command is printed the same wherever it stands. */
  lemma SamePrint(t: Cmd<string>)
    requires !t.Pipe? && !t.List? && !t.Back?
    ensures PrintLine(t) == PrintBack(t) == PrintPipe(t) == PrintExec(t)
  {
    assert PrintPipe(t) == PrintExec(t);
    assert PrintBack(t) == PrintPipe(t);
  }

  lemma OneWord(a: string)
    ensures PrintLine(Exec([a])) == PrintBack(Exec([a])) == PrintPipe(Exec([a])) == PrintExec(Exec([a])) == [Word(a)]
  {
    var t := Exec([a]);
    SamePrint(t);
    assert PrintWords([a]) == [Word(a)];
    assert Base(t) == t && PrintRedirs(RedirsIn(t)) == [];
  }

  lemma OneRedir(a: string, b: string, out: bool)
    ensures PrintLine(Redir(Exec([a]), b, out)) == [Word(a), Sym(if out then '>' else '<'), Word(b)]
  {
    var t, rs := Redir(Exec([a]), b, out), [To(b, out)];
    SamePrint(t);
    assert PrintWords([a]) == [Word(a)];
    assert Base(Exec([a])) == Exec([a]) && RedirsIn(Exec([a])) == [];
    assert Base(t) == Exec([a]) && RedirsIn(t) == rs;
    assert rs[1..] == [] && PrintRedirs(rs[1..]) == [];
    assert PrintRedirs(rs) == [Sym(if out then '>' else '<'), Word(b)];
  }

  lemma OneInfix(a: string, b: string)
    ensures PrintLine(Pipe(Exec([a]), Exec([b]))) == [Word(a), Sym('|'), Word(b)]
    ensures PrintLine(List(Exec([a]), Exec([b]))) == [Word(a), Sym(';'), Word(b)]
  {
    OneWord(a);
    OneWord(b);
    var pipe, list := Pipe(Exec([a]), Exec([b])), List(Exec([a]), Exec([b]));
    assert PrintInner(pipe) == [Word(a)] + [Sym('|')] + [Word(b)];
    assert PrintInner(list) == [Word(a)] + [Sym(';')] + [Word(b)];
    assert PrintPipe(pipe) == PrintInner(pipe);
    assert PrintBack(pipe) == PrintPipe(pipe);
  }

  lemma SymbolText(a: string, c: char, b: string, t: Cmd<string>)
    requires GoodWord(a) && GoodWord(b) && c in "<|>&;()+" && Spelled(t) && Fits(t)
    requires PrintLine(t) == [Word(a), Sym(if c == '+' then '>' else c), Word(b)]
    ensures Parse(a + Spell(Sym(c)) + b) == Ok(t, [])
  {
    TwoAndSymbol(a, c, b);
    ReadsAs(t, a + Spell(Sym(c)) + b);
  }

  /** < names the input; > and >> name the output. */
  lemma RedirText(a: string, b: string)
    requires GoodWord(a) && GoodWord(b)
    ensures Parse(a + "<" + b) == Ok(Redir(Exec([a]), b, false), [])
    ensures Parse(a + ">" + b) == Parse(a + ">>" + b) == Ok(Redir(Exec([a]), b, true), [])
  {
    var all := "<|>&;()+";
    assert all[0] == '<' && all[2] == '>' && all[7] == '+';
    OneRedir(a, b, false);
    OneRedir(a, b, true);
    SymbolText(a, '<', b, Redir(Exec([a]), b, false));
    SymbolText(a, '>', b, Redir(Exec([a]), b, true));
    SymbolText(a, '+', b, Redir(Exec([a]), b, true));
  }

  /** | pipes one command into the next and ; runs one after the other. */
  lemma InfixText(a: string, b: string)
    requires GoodWord(a) && GoodWord(b)
    ensures Parse(a + "|" + b) == Ok(Pipe(Exec([a]), Exec([b])), [])
    ensures Parse(a + ";" + b) == Ok(List(Exec([a]), Exec([b])), [])
  {
    var all := "<|>&;()+";
    assert all[1] == '|' && all[4] == ';';
    OneInfix(a, b);
    SymbolText(a, '|', b, Pipe(Exec([a]), Exec([b])));
    SymbolText(a, ';', b, List(Exec([a]), Exec([b])));
  }

  lemma OneGroup(a: string, b: string)
    ensures PrintLine(Pipe(Back(Exec([a])), Exec([b]))) == [Sym('('), Word(a), Sym('&'), Sym(')'), Sym('|'), Word(b)]
  {
    OneWord(a);
    OneWord(b);
    var back := Back(Exec([a]));
    var pipe := Pipe(back, Exec([b]));
    assert PrintInner(back) == [Word(a)] + [Sym('&')];
    assert Base(back) == back && PrintRedirs(RedirsIn(back)) == [];
    assert PrintExec(back) == [Sym('(')] + PrintInner(back) + [Sym(')')] + [];
    assert PrintInner(pipe) == PrintExec(back) + [Sym('|')] + [Word(b)];
    assert PrintPipe(pipe) == PrintInner(pipe);
    assert PrintBack(pipe) == PrintPipe(pipe);
  }

  lemma SymbolFirst(c: char, rest: string, ts: seq<Token>)
    requires c in "<|&;()" && Tokens(rest) == ts
    ensures Tokens([c] + rest) == [Sym(c)] + ts
  {
    assert "<|>&;()+" == "<|" + ">" + "&;()" + "+" && "<|&;()" == "<|" + "&;()";
    LexOne(Sym(c), rest);
  }

  lemma BackTokens(a: string, rest: string, ts: seq<Token>)
    requires GoodWord(a) && Tokens(rest) == ts
    ensures Tokens(a + ("&" + rest)) == [Word(a), Sym('&')] + ts
  {
    assert "<|&;()"[2] == '&';
    SymbolFirst('&', rest, ts);
    LexOne(Word(a), "&" + rest);
  }

  lemma HeadTokens(a: string, rest: string, ts: seq<Token>)
    requires GoodWord(a) && Tokens(rest) == ts
    ensures Tokens("(" + (a + ("&" + rest))) == [Sym('('), Word(a), Sym('&')] + ts
  {
    BackTokens(a, rest, ts);
    assert "<|&;()"[4] == '(';
    SymbolFirst('(', a + ("&" + rest), [Word(a), Sym('&')] + ts);
  }

  lemma GroupTokens(a: string, b: string)
    requires GoodWord(a) && GoodWord(b)
    ensures Tokens("(" + (a + ("&" + (")" + ("|" + b))))) == [Sym('('), Word(a), Sym('&'), Sym(')'), Sym('|'), Word(b)]
  {
    var r := "|" + b;
    assert "<|>&;()+"[1] == '|';
    SymbolWord('|', b);
    assert "<|&;()"[5] == ')';
    SymbolFirst(')', r, [Sym('|'), Word(b)]);
    HeadTokens(a, [')'] + r, [Sym(')'), Sym('|'), Word(b)]);
  }

  lemma GroupSpelled(a: string, b: string)
    ensures "(" + a + "&)|" + b == "(" + (a + ("&" + (")" + ("|" + b))))
  {
  }

  /** & sends what is before it to the background and parentheses hold a line together. */
  lemma GroupText(a: string, b: string)
    requires GoodWord(a) && GoodWord(b)
    ensures Parse("(" + a + "&)|" + b) == Ok(Pipe(Back(Exec([a])), Exec([b])), [])
  {
    OneGroup(a, b);
    GroupTokens(a, b);
    GroupSpelled(a, b);
    ReadsAs(Pipe(Back(Exec([a])), Exec([b])), "(" + a + "&)|" + b);
  }
}
