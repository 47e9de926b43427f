/**
 The command language of sh.c: tokens, the grammar on tokens, and a printer. Parsing what was
 printed gives back the command.
 */
module ShellSpec {

  const MAXARGS: nat := 10

  /** A word, or one of < > | & ; ( ) and + for >>. */
  datatype Token = Word(w: string) | Sym(c: char)

  /** `A` is how a word is named: by its text, or by its place in the line. */
  datatype Cmd<A> =
    | Exec(args: seq<A>)
    | Redir(cmd: Cmd<A>, file: A, out: bool)
    | Pipe(left: Cmd<A>, right: Cmd<A>)
    | List(left: Cmd<A>, right: Cmd<A>)
    | Back(cmd: Cmd<A>)

  datatype Parsed<T> = Ok(value: T, rest: seq<Token>) | Bad

  /** No command has more words than the parser takes. */
  predicate Fits<A>(t: Cmd<A>) {
    match t
    case Exec(args) => |args| < MAXARGS
    case Redir(c, _, _) => Fits(c)
    case Pipe(l, r) => Fits(l) && Fits(r)
    case List(l, r) => Fits(l) && Fits(r)
    case Back(c) => Fits(c)
  }

  // ---------------------------------------------------------------- the grammar

  /** Does the line go on with one of these? */
  predicate Next(ts: seq<Token>, cs: set<char>) {
    ts != [] && ts[0].Sym? && ts[0].c in cs
  }

  datatype Redirection<A> = To(file: A, out: bool)

  function Wrap<A>(c: Cmd<A>, rs: seq<Redirection<A>>): (r: Cmd<A>)
    ensures Fits(r) <==> Fits(c)
    decreases |rs|
  {
    if rs == [] then c else Wrap(Redir(c, rs[0].file, rs[0].out), rs[1..])
  }

  /** parseredirs: any number of < file and > file. */
  function Redirs(ts: seq<Token>): (r: Parsed<seq<Redirection<string>>>)
    ensures r.Ok? ==> |r.rest| <= |ts| && !Next(r.rest, {'<', '>', '+'})
  {
    if !Next(ts, {'<', '>', '+'}) then Ok([], ts)
    else if |ts| < 2 || ts[1].Sym? then Bad
    else
      var r := Redirs(ts[2..]);
      if r.Bad? then Bad else Ok([To(ts[1].w, ts[0].c != '<')] + r.value, r.rest)
  }

  /** The loop of parseexec over the words of a command. */
  function Args(ts: seq<Token>, args: seq<string>, rs: seq<Redirection<string>>): (r: Parsed<Cmd<string>>)
    requires |args| < MAXARGS
    ensures r.Ok? ==> |r.rest| <= |ts| && Fits(r.value)
    decreases |ts|
  {
    if ts == [] || Next(ts, {'|', ')', '&', ';'}) then Ok(Wrap(Exec(args), rs), ts)
    else if ts[0].Sym? || |args| + 1 >= MAXARGS then Bad
    else
      var more := Redirs(ts[1..]);
      if more.Bad? then Bad else Args(more.rest, args + [ts[0].w], rs + more.value)
  }

  function ExecOf(ts: seq<Token>): (r: Parsed<Cmd<string>>)
    ensures r.Ok? ==> |r.rest| <= |ts| && Fits(r.value)
    decreases |ts|, 0
  {
    if Next(ts, {'('}) then
      var body := LineOf(ts[1..]);
      if body.Bad? || !Next(body.rest, {')'}) then Bad
      else
        var rs := Redirs(body.rest[1..]);
        if rs.Bad? then Bad else Ok(Wrap(body.value, rs.value), rs.rest)
    else
      var rs := Redirs(ts);
      if rs.Bad? then Bad else Args(rs.rest, [], rs.value)
  }

  function PipeOf(ts: seq<Token>): (r: Parsed<Cmd<string>>)
    ensures r.Ok? ==> |r.rest| <= |ts| && Fits(r.value)
    decreases |ts|, 1
  {
    var left := ExecOf(ts);
    if left.Bad? || !Next(left.rest, {'|'}) then left
    else
      var right := PipeOf(left.rest[1..]);
      if right.Bad? then Bad else Ok(Pipe(left.value, right.value), right.rest)
  }

  /** The loop of parseline over `&`. */
  function Backs(c: Cmd<string>, ts: seq<Token>): (r: Parsed<Cmd<string>>)
    ensures r.Ok? && |r.rest| <= |ts| && !Next(r.rest, {'&'}) && (Fits(r.value) <==> Fits(c))
    decreases |ts|
  {
    if Next(ts, {'&'}) then Backs(Back(c), ts[1..]) else Ok(c, ts)
  }

  function LineOf(ts: seq<Token>): (r: Parsed<Cmd<string>>)
    ensures r.Ok? ==> |r.rest| <= |ts| && Fits(r.value)
    decreases |ts|, 2
  {
    var first := PipeOf(ts);
    if first.Bad? then Bad
    else
      var left := Backs(first.value, first.rest);
      if !Next(left.rest, {';'}) then left
      else
        var right := LineOf(left.rest[1..]);
        if right.Bad? then Bad else Ok(List(left.value, right.value), right.rest)
  }

  // ---------------------------------------------------------------- printing

  function RedirsIn<A>(t: Cmd<A>): (rs: seq<Redirection<A>>) {
    if t.Redir? then RedirsIn(t.cmd) + [To(t.file, t.out)] else []
  }

  /** What is under the redirections. */
  function Base<A>(t: Cmd<A>): (c: Cmd<A>)
    ensures !c.Redir? && (c == t || c < t)
  {
    if t.Redir? then Base(t.cmd) else t
  }

  function PrintWords(args: seq<string>): (ts: seq<Token>) {
    seq(|args|, i requires 0 <= i < |args| => Word(args[i]))
  }

  function PrintRedirs(rs: seq<Redirection<string>>): (ts: seq<Token>) {
    if rs == [] then []
    else [Sym(if rs[0].out then '>' else '<'), Word(rs[0].file)] + PrintRedirs(rs[1..])
  }

  /** A pipeline, list or background command without parentheses around it. */
  function PrintInner(t: Cmd<string>): (ts: seq<Token>)
    requires t.Pipe? || t.List? || t.Back?
    decreases t, 0
  {
    match t
    case Pipe(l, r) => PrintExec(l) + [Sym('|')] + PrintPipe(r)
    case List(l, r) => PrintBack(l) + [Sym(';')] + PrintLine(r)
    case Back(c) => PrintBack(c) + [Sym('&')]
  }

  function PrintExec(t: Cmd<string>): (ts: seq<Token>)
    decreases t, 1
  {
    var b := Base(t);
    (if b.Exec? then PrintWords(b.args) else [Sym('(')] + PrintInner(b) + [Sym(')')]) + PrintRedirs(RedirsIn(t))
  }

  function PrintPipe(t: Cmd<string>): (ts: seq<Token>)
    decreases t, 2
  {
    if t.Pipe? then PrintInner(t) else PrintExec(t)
  }

  function PrintBack(t: Cmd<string>): (ts: seq<Token>)
    decreases t, 3
  {
    if t.Back? then PrintInner(t) else PrintPipe(t)
  }

  function PrintLine(t: Cmd<string>): (ts: seq<Token>)
    decreases t, 4
  {
    if t.List? then PrintInner(t) else PrintBack(t)
  }

  lemma {:induction false} WrapBase<A>(t: Cmd<A>)
    ensures Wrap(Base(t), RedirsIn(t)) == t && (Fits(t) ==> Fits(Base(t)))
  {
    if t.Redir? {
      WrapBase(t.cmd);
      WrapLast(Base(t.cmd), RedirsIn(t.cmd), To(t.file, t.out));
    }
  }

  lemma {:induction false} WrapLast<A>(c: Cmd<A>, rs: seq<Redirection<A>>, r: Redirection<A>)
    ensures Wrap(c, rs + [r]) == Redir(Wrap(c, rs), r.file, r.out)
    decreases |rs|
  {
    if rs != [] {
      assert (rs + [r])[1..] == rs[1..] + [r];
      WrapLast(Redir(c, rs[0].file, rs[0].out), rs[1..], r);
    }
  }

  // ---------------------------------------------------------------- parsing what was printed

  lemma {:induction false} RedirsBack(rs: seq<Redirection<string>>, rest: seq<Token>)
    requires !Next(rest, {'<', '>', '+'})
    ensures Redirs(PrintRedirs(rs) + rest) == Ok(rs, rest)
    decreases |rs|
  {
    var ts := PrintRedirs(rs) + rest;
    if rs == [] {
      assert ts == rest;
    } else {
      assert ts[2..] == PrintRedirs(rs[1..]) + rest;
      RedirsBack(rs[1..], rest);
      assert [To(ts[1].w, ts[0].c != '<')] + rs[1..] == rs;
    }
  }

  lemma ArgsStep(w: string, tail: seq<Token>, done: seq<string>, acc: seq<Redirection<string>>)
    requires |done| + 1 < MAXARGS
    ensures Args([Word(w)] + tail, done, acc) ==
      var more := Redirs(tail);
      if more.Bad? then Bad else Args(more.rest, done + [w], acc + more.value)
  {
    var ts := [Word(w)] + tail;
    assert ts[1..] == tail && ts[0] == Word(w);
  }

  lemma ArgsLast(w: string, done: seq<string>, tail: seq<Token>, rs: seq<Redirection<string>>, rest: seq<Token>)
    requires |done| + 1 < MAXARGS && (rest == [] || Next(rest, {'|', ')', '&', ';'})) && Redirs(tail) == Ok(rs, rest)
    ensures Args([Word(w)] + tail, done, []) == Ok(Wrap(Exec(done + [w]), rs), rest)
  {
    ArgsStep(w, tail, done, []);
    assert [] + rs == rs;
  }

  lemma ArgsMore(w: string, done: seq<string>, tail: seq<Token>)
    requires |done| + 1 < MAXARGS && tail != [] && tail[0].Word?
    ensures Args([Word(w)] + tail, done, []) == Args(tail, done + [w], [])
  {
    var none: seq<Redirection<string>> := [];
    ArgsStep(w, tail, done, none);
    assert Redirs(tail) == Ok(none, tail) && none + none == none;
  }

  lemma {:induction false} ArgsBack(args: seq<string>, done: seq<string>, tail: seq<Token>, rs: seq<Redirection<string>>, rest: seq<Token>)
    requires |done| + |args| < MAXARGS && args != [] && (rest == [] || Next(rest, {'|', ')', '&', ';'})) && Redirs(tail) == Ok(rs, rest)
    ensures Args(PrintWords(args) + tail, done, []) == Ok(Wrap(Exec(done + args), rs), rest)
    decreases |args|
  {
    var w, more := args[0], PrintWords(args[1..]) + tail;
    assert PrintWords(args) + tail == [Word(w)] + more;
    if |args| == 1 {
      assert more == tail && args == [w];
      ArgsLast(w, done, tail, rs, rest);
    } else {
      assert more[0] == Word(args[1]);
      ArgsMore(w, done, more);
      ArgsBack(args[1..], done + [w], tail, rs, rest);
      assert done + [w] + args[1..] == done + args;
    }
  }

  lemma NotBlock(ts: seq<Token>)
    requires !Next(ts, {'('})
    ensures ExecOf(ts) == var rs := Redirs(ts); if rs.Bad? then Bad else Args(rs.rest, [], rs.value)
  {
  }

  lemma WordsBack(args: seq<string>, rs: seq<Redirection<string>>, rest: seq<Token>)
    requires |args| < MAXARGS && (rest == [] || Next(rest, {'|', ')', '&', ';'}))
    ensures ExecOf(PrintWords(args) + PrintRedirs(rs) + rest) == Ok(Wrap(Exec(args), rs), rest)
  {
    var tail := PrintRedirs(rs) + rest;
    var ts := PrintWords(args) + tail;
    assert ts == PrintWords(args) + PrintRedirs(rs) + rest;
    RedirsBack(rs, rest);
    NotBlock(ts);
    if args == [] {
      assert ts == tail;
    } else {
      FirstWord(ts, args[0]);
      ArgsBack(args, [], tail, rs, rest);
      assert [] + args == args;
    }
  }

  lemma FirstWord(ts: seq<Token>, w: string)
    requires ts != [] && ts[0] == Word(w)
    ensures Redirs(ts) == Ok([], ts)
  {
  }

  lemma BlockTokens(inner: seq<Token>, redirs: seq<Token>, rest: seq<Token>)
    ensures var ts := [Sym('(')] + inner + [Sym(')')] + redirs + rest;
      ts[0] == Sym('(') && ts[1..] == inner + ([Sym(')')] + (redirs + rest))
  {
  }

  lemma BlockBack(b: Cmd<string>, inner: seq<Token>, rs: seq<Redirection<string>>, rest: seq<Token>)
    requires rest == [] || Next(rest, {'|', ')', '&', ';'})
    requires LineOf(inner + ([Sym(')')] + (PrintRedirs(rs) + rest))) == Ok(b, [Sym(')')] + (PrintRedirs(rs) + rest))
    ensures ExecOf([Sym('(')] + inner + [Sym(')')] + PrintRedirs(rs) + rest) == Ok(Wrap(b, rs), rest)
  {
    var after := [Sym(')')] + (PrintRedirs(rs) + rest);
    BlockTokens(inner, PrintRedirs(rs), rest);
    assert after[0] == Sym(')') && after[1..] == PrintRedirs(rs) + rest;
    RedirsBack(rs, rest);
  }

  lemma {:induction false} ExecBack(t: Cmd<string>, rest: seq<Token>)
    requires Fits(t) && (rest == [] || Next(rest, {'|', ')', '&', ';'}))
    ensures ExecOf(PrintExec(t) + rest) == Ok(t, rest)
    decreases t, 2
  {
    var b, rs := Base(t), RedirsIn(t);
    WrapBase(t);
    if b.Exec? {
      WordsBack(b.args, rs, rest);
    } else {
      InnerBack(b, [Sym(')')] + (PrintRedirs(rs) + rest));
      BlockBack(b, PrintInner(b), rs, rest);
    }
  }

  lemma {:induction false} InnerBack(b: Cmd<string>, rest: seq<Token>)
    requires Fits(b) && (b.Pipe? || b.List? || b.Back?) && (rest == [] || Next(rest, {')'}))
    ensures LineOf(PrintInner(b) + rest) == Ok(b, rest)
    decreases b, 1
  {
    var ts := PrintInner(b) + rest;
    match b
    case Pipe(l, r) => PipeInner(b, rest);
    case Back(c) =>
      var after := [Sym('&')] + rest;
      assert ts == PrintBack(c) + after && after[1..] == rest;
      BackBack(c, after);
    case List(l, r) =>
      var after := [Sym(';')] + PrintLine(r) + rest;
      assert ts == PrintBack(l) + after && after[1..] == PrintLine(r) + rest;
      BackBack(l, after);
      LineBack(r, rest);
  }

  lemma {:induction false} PipeInner(b: Cmd<string>, rest: seq<Token>)
    requires Fits(b) && b.Pipe? && (rest == [] || Next(rest, {')', '&', ';'}))
    ensures PipeOf(PrintInner(b) + rest) == Ok(b, rest)
    decreases b, 0
  {
    var after := [Sym('|')] + PrintPipe(b.right) + rest;
    assert PrintInner(b) + rest == PrintExec(b.left) + after;
    ExecBack(b.left, after);
    assert after[1..] == PrintPipe(b.right) + rest;
    PipeBack(b.right, rest);
  }

  lemma {:induction false} PipeBack(t: Cmd<string>, rest: seq<Token>)
    requires Fits(t) && (rest == [] || Next(rest, {')', '&', ';'}))
    ensures PipeOf(PrintPipe(t) + rest) == Ok(t, rest)
    decreases t, 3
  {
    if t.Pipe? { PipeInner(t, rest); } else { ExecBack(t, rest); }
  }

  lemma {:induction false} BackBack(t: Cmd<string>, rest: seq<Token>)
    requires Fits(t) && (rest == [] || Next(rest, {')', '&', ';'}))
    ensures var r := PipeOf(PrintBack(t) + rest); r.Ok? && Backs(r.value, r.rest) == Backs(t, rest)
    decreases t, 4
  {
    if t.Back? {
      var after := [Sym('&')] + rest;
      assert PrintBack(t) + rest == PrintBack(t.cmd) + after;
      BackBack(t.cmd, after);
      assert after[1..] == rest;
    } else {
      PipeBack(t, rest);
    }
  }

  lemma {:induction false} LineBack(t: Cmd<string>, rest: seq<Token>)
    requires Fits(t) && (rest == [] || Next(rest, {')'}))
    ensures LineOf(PrintLine(t) + rest) == Ok(t, rest)
    decreases t, 5
  {
    if t.List? { InnerBack(t, rest); } else { BackBack(t, rest); }
  }

  // ---------------------------------------------------------------- giving up

  lemma {:induction false} ArgsBad(args: seq<string>, done: seq<string>, tail: seq<Token>)
    requires |done| < MAXARGS <= |done| + |args|
    ensures Args(PrintWords(args) + tail, done, []).Bad?
    decreases |args|
  {
    var w, more := args[0], PrintWords(args[1..]) + tail;
    assert PrintWords(args) + tail == [Word(w)] + more;
    if |done| + 1 < MAXARGS {
      assert more[0] == Word(args[1]);
      ArgsMore(w, done, more);
      ArgsBad(args[1..], done + [w], tail);
    }
  }

  lemma WordsBad(args: seq<string>, rs: seq<Redirection<string>>, rest: seq<Token>)
    requires |args| >= MAXARGS
    ensures ExecOf(PrintWords(args) + PrintRedirs(rs) + rest).Bad?
  {
    var tail := PrintRedirs(rs) + rest;
    var ts := PrintWords(args) + tail;
    assert ts == PrintWords(args) + PrintRedirs(rs) + rest;
    NotBlock(ts);
    assert ts[0] == Word(args[0]) && Redirs(ts) == Ok([], ts);
    ArgsBad(args, [], tail);
  }

  lemma BlockBad(inner: seq<Token>, rs: seq<Redirection<string>>, rest: seq<Token>)
    requires LineOf(inner + ([Sym(')')] + (PrintRedirs(rs) + rest))).Bad?
    ensures ExecOf([Sym('(')] + inner + [Sym(')')] + PrintRedirs(rs) + rest).Bad?
  {
    var ts := [Sym('(')] + inner + [Sym(')')] + PrintRedirs(rs) + rest;
    assert ts[0] == Sym('(') && ts[1..] == inner + ([Sym(')')] + (PrintRedirs(rs) + rest));
  }

  lemma {:induction false} ExecBad(t: Cmd<string>, rest: seq<Token>)
    requires !Fits(t)
    ensures ExecOf(PrintExec(t) + rest).Bad?
    decreases t, 2
  {
    var b, rs := Base(t), RedirsIn(t);
    WrapBase(t);
    if b.Exec? {
      WordsBad(b.args, rs, rest);
    } else {
      InnerBad(b, [Sym(')')] + (PrintRedirs(rs) + rest));
      BlockBad(PrintInner(b), rs, rest);
    }
  }

  lemma {:induction false} InnerBad(b: Cmd<string>, rest: seq<Token>)
    requires !Fits(b) && (b.Pipe? || b.List? || b.Back?) && (rest == [] || Next(rest, {')'}))
    ensures LineOf(PrintInner(b) + rest).Bad?
    decreases b, 1
  {
    var ts := PrintInner(b) + rest;
    match b
    case Pipe(l, r) => PipeInnerBad(b, rest);
    case Back(c) =>
      var after := [Sym('&')] + rest;
      assert ts == PrintBack(c) + after;
      BackBad(c, after);
    case List(l, r) =>
      var after := [Sym(';')] + PrintLine(r) + rest;
      assert ts == PrintBack(l) + after && after[1..] == PrintLine(r) + rest;
      if Fits(l) {
        BackBack(l, after);
        LineBad(r, rest);
      } else {
        BackBad(l, after);
      }
  }

  lemma {:induction false} PipeInnerBad(b: Cmd<string>, rest: seq<Token>)
    requires !Fits(b) && b.Pipe? && (rest == [] || Next(rest, {')', '&', ';'}))
    ensures PipeOf(PrintInner(b) + rest).Bad?
    decreases b, 0
  {
    var after := [Sym('|')] + PrintPipe(b.right) + rest;
    assert PrintInner(b) + rest == PrintExec(b.left) + after;
    assert after[1..] == PrintPipe(b.right) + rest;
    if Fits(b.left) {
      ExecBack(b.left, after);
      PipeBad(b.right, rest);
    } else {
      ExecBad(b.left, after);
    }
  }

  lemma {:induction false} PipeBad(t: Cmd<string>, rest: seq<Token>)
    requires !Fits(t) && (rest == [] || Next(rest, {')', '&', ';'}))
    ensures PipeOf(PrintPipe(t) + rest).Bad?
    decreases t, 3
  {
    if t.Pipe? { PipeInnerBad(t, rest); } else { ExecBad(t, rest); }
  }

  lemma {:induction false} BackBad(t: Cmd<string>, rest: seq<Token>)
    requires !Fits(t) && (rest == [] || Next(rest, {')', '&', ';'}))
    ensures PipeOf(PrintBack(t) + rest).Bad?
    decreases t, 4
  {
    if t.Back? {
      var after := [Sym('&')] + rest;
      assert PrintBack(t) + rest == PrintBack(t.cmd) + after;
      BackBad(t.cmd, after);
    } else {
      PipeBad(t, rest);
    }
  }

  /** A printed line with more than nine words in some exec node is refused, whatever may follow it. */
  lemma {:induction false} LineBad(t: Cmd<string>, rest: seq<Token>)
    requires !Fits(t) && (rest == [] || Next(rest, {')'}))
    ensures LineOf(PrintLine(t) + rest).Bad?
    decreases t, 5
  {
    if t.List? { InnerBad(t, rest); } else { BackBad(t, rest); }
  }

  // ---------------------------------------------------------------- text

  predicate IsSpace(c: char) {
    c == ' ' || c == '\t' || c == '\r' || c == '\n' || c == '\U{0B}'
  }

  predicate IsSymbol(c: char) {
    c == '<' || c == '|' || c == '>' || c == '&' || c == ';' || c == '(' || c == ')'
  }

  predicate WordChar(c: char) {
    !IsSpace(c) && !IsSymbol(c)
  }

  /** The length of the word at the start. */
  function WordLen(s: string): (n: nat)
    ensures n <= |s| && (forall i :: 0 <= i < n ==> WordChar(s[i])) && (n < |s| ==> !WordChar(s[n]))
  {
    if s == "" || !WordChar(s[0]) then 0 else 1 + WordLen(s[1..])
  }

  /** The tokens of a line, as gettoken finds them one after another. */
  function Tokens(s: string): (ts: seq<Token>)
    decreases |s|
  {
    if s == "" then []
    else if IsSpace(s[0]) then Tokens(s[1..])
    else if s[0] == '>' && |s| > 1 && s[1] == '>' then [Sym('+')] + Tokens(s[2..])
    else if IsSymbol(s[0]) then [Sym(s[0])] + Tokens(s[1..])
    else [Word(s[..WordLen(s)])] + Tokens(s[WordLen(s)..])
  }

  /** parsecmd: the whole line is one command. */
  function Parse(s: string): (r: Parsed<Cmd<string>>) {
    var r := LineOf(Tokens(s));
    if r.Ok? && r.rest == [] then r else Bad
  }
}
