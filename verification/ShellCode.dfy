/**
 The parser of sh.c as it runs: a cursor that moves along the line, loops that skip blanks and
 collect words, and commands that point into the line. The methods agree with the grammar of
 ShellSpec on the tokens that lie ahead of the cursor. A panic is a result: `ok` is false.
 */
module ShellCode {
  import opened ShellSpec

  datatype Span = Span(start: nat, end: nat)

  predicate CString(s: string) {
    forall i :: 0 <= i < |s| ==> s[i] != '\0'
  }

  /** A whole word of the line: it could not go on. */
  predicate SpanOk(buf: string, sp: Span) {
    && sp.start < sp.end <= |buf|
    && (forall i :: sp.start <= i < sp.end ==> WordChar(buf[i]))
    && (sp.end < |buf| ==> !WordChar(buf[sp.end]))
  }

  function Text(buf: string, sp: Span): (w: string) {
    if sp.start <= sp.end <= |buf| then buf[sp.start..sp.end] else ""
  }

  function Texts(buf: string, args: seq<Span>): (ws: seq<string>) {
    seq(|args|, i requires 0 <= i < |args| => Text(buf, args[i]))
  }

  function ReadRedirs(buf: string, rs: seq<Redirection<Span>>): (r: seq<Redirection<string>>) {
    seq(|rs|, i requires 0 <= i < |rs| => To(Text(buf, rs[i].file), rs[i].out))
  }

  /** The command with its words read off the line. */
  function Read(buf: string, c: Cmd<Span>): (t: Cmd<string>) {
    match c
    case Exec(args) => Exec(Texts(buf, args))
    case Redir(d, f, out) => Redir(Read(buf, d), Text(buf, f), out)
    case Pipe(l, r) => Pipe(Read(buf, l), Read(buf, r))
    case List(l, r) => List(Read(buf, l), Read(buf, r))
    case Back(d) => Back(Read(buf, d))
  }

  predicate SpansOk(buf: string, args: seq<Span>) {
    forall i :: 0 <= i < |args| ==> SpanOk(buf, args[i])
  }

  predicate FilesOk(buf: string, rs: seq<Redirection<Span>>) {
    forall i :: 0 <= i < |rs| ==> SpanOk(buf, rs[i].file)
  }

  predicate Anchored(buf: string, c: Cmd<Span>) {
    match c
    case Exec(args) => SpansOk(buf, args)
    case Redir(d, f, _) => Anchored(buf, d) && SpanOk(buf, f)
    case Pipe(l, r) => Anchored(buf, l) && Anchored(buf, r)
    case List(l, r) => Anchored(buf, l) && Anchored(buf, r)
    case Back(d) => Anchored(buf, d)
  }

  lemma {:induction false} WrapRead(buf: string, c: Cmd<Span>, rs: seq<Redirection<Span>>)
    ensures Read(buf, Wrap(c, rs)) == Wrap(Read(buf, c), ReadRedirs(buf, rs))
    ensures Anchored(buf, c) && FilesOk(buf, rs) ==> Anchored(buf, Wrap(c, rs))
    decreases |rs|
  {
    if rs != [] {
      WrapRead(buf, Redir(c, rs[0].file, rs[0].out), rs[1..]);
      assert ReadRedirs(buf, rs)[1..] == ReadRedirs(buf, rs[1..]);
    }
  }

  // ---------------------------------------------------------------- tokens ahead of the cursor

  function Ahead(buf: string, ps: nat): (ts: seq<Token>)
    requires ps <= |buf|
  {
    Tokens(buf[ps..])
  }

  lemma SkipOne(buf: string, ps: nat)
    requires ps < |buf| && IsSpace(buf[ps])
    ensures Ahead(buf, ps) == Ahead(buf, ps + 1)
  {
    assert buf[ps..][1..] == buf[ps + 1..];
  }

  /** The loops that step over blanks. */
  method SkipSpace(buf: string, ps: nat) returns (s: nat)
    requires ps <= |buf|
    ensures ps <= s <= |buf| && Ahead(buf, s) == Ahead(buf, ps) && (s < |buf| ==> !IsSpace(buf[s]))
  {
    s := ps;
    while s < |buf| && IsSpace(buf[s])
      invariant ps <= s <= |buf| && Ahead(buf, s) == Ahead(buf, ps)
    {
      SkipOne(buf, s);
      s := s + 1;
    }
  }

  /** The token at a cursor that stands on no blank. */
  lemma TokenAt(buf: string, s: nat)
    requires s <= |buf| && (s < |buf| ==> !IsSpace(buf[s]))
    ensures Ahead(buf, s) == [] <==> s == |buf|
    ensures s < |buf| && buf[s] == '>' && s + 1 < |buf| && buf[s + 1] == '>' ==> Ahead(buf, s) == [Sym('+')] + Ahead(buf, s + 2)
    ensures s < |buf| && IsSymbol(buf[s]) && !(buf[s] == '>' && s + 1 < |buf| && buf[s + 1] == '>') ==>
      Ahead(buf, s) == [Sym(buf[s])] + Ahead(buf, s + 1)
  {
    var t := buf[s..];
    if s < |buf| {
      assert t[1..] == buf[s + 1..] && (s + 1 < |buf| ==> t[2..] == buf[s + 2..]);
    }
  }

  lemma WordAt(buf: string, s: nat, e: nat)
    requires SpanOk(buf, Span(s, e))
    ensures Ahead(buf, s) == [Word(buf[s..e])] + Ahead(buf, e)
  {
    var t := buf[s..];
    var n := WordLen(t);
    assert WordChar(t[0]);
    assert forall i :: 0 <= i < |t| ==> t[i] == buf[s + i];
    assert t[..n] == buf[s..e] && t[n..] == buf[e..];
  }

  /** gettoken: 0 at the end, 'a' for a word and where it lies, else the symbol, '+' for >>. */
  method GetToken(buf: string, ps: nat) returns (tok: char, q: nat, eq: nat, next: nat)
    requires CString(buf) && ps <= |buf|
    ensures ps <= next <= |buf| && (tok == '\0' <==> Ahead(buf, ps) == [])
    ensures tok != '\0' ==> ps < next && Ahead(buf, ps)[1..] == Ahead(buf, next)
    ensures tok == 'a' ==> SpanOk(buf, Span(q, eq)) && Ahead(buf, ps)[0] == Word(Text(buf, Span(q, eq)))
    ensures tok != '\0' && tok != 'a' ==> Ahead(buf, ps)[0] == Sym(tok)
  {
    var s := SkipSpace(buf, ps);
    q := s;
    TokenAt(buf, s);
    if s == |buf| {
      tok := '\0';
    } else if buf[s] == '>' {
      tok := '>';
      s := s + 1;
      if s < |buf| && buf[s] == '>' {
        tok := '+';
        s := s + 1;
      }
    } else if IsSymbol(buf[s]) {
      tok := buf[s];
      s := s + 1;
    } else {
      tok := 'a';
      while s < |buf| && WordChar(buf[s])
        invariant q <= s <= |buf| && (s == q ==> WordChar(buf[q])) && forall i :: q <= i < s ==> WordChar(buf[i])
      {
        s := s + 1;
      }
      WordAt(buf, q, s);
    }
    eq := s;
    next := SkipSpace(buf, s);
  }

  /** peek: whether the next token is one of the given symbols; > stands for >> too. */
  method Peek(buf: string, ps: nat, cs: set<char>) returns (b: bool, next: nat)
    requires CString(buf) && ps <= |buf| && ('>' in cs <==> '+' in cs)
    ensures ps <= next <= |buf| && Ahead(buf, next) == Ahead(buf, ps) && (b <==> Next(Ahead(buf, ps), cs))
    ensures next < |buf| ==> !IsSpace(buf[next])
  {
    next := SkipSpace(buf, ps);
    TokenAt(buf, next);
    b := next < |buf| && IsSymbol(buf[next]) && buf[next] in cs;
    if next < |buf| && !IsSymbol(buf[next]) {
      assert Ahead(buf, next)[0].Word?;
    }
  }

  // ---------------------------------------------------------------- the parser

  function Prepend(rs: seq<Redirection<string>>, r: Parsed<seq<Redirection<string>>>): (p: Parsed<seq<Redirection<string>>>) {
    if r.Bad? then Bad else Ok(rs + r.value, r.rest)
  }

  lemma PrependNone(r: Parsed<seq<Redirection<string>>>)
    ensures Prepend([], r) == r
  {
    if r.Ok? { assert [] + r.value == r.value; }
  }

  lemma PrependEnd(rs: seq<Redirection<string>>, ts: seq<Token>)
    requires !Next(ts, {'<', '>', '+'})
    ensures Prepend(rs, Redirs(ts)) == Ok(rs, ts)
  {
    assert rs + [] == rs;
  }

  lemma ReadMore(buf: string, a: seq<Redirection<Span>>, b: seq<Redirection<Span>>)
    ensures ReadRedirs(buf, a + b) == ReadRedirs(buf, a) + ReadRedirs(buf, b)
    ensures FilesOk(buf, a) && FilesOk(buf, b) ==> FilesOk(buf, a + b)
  {
  }

  /** One < file or > file in front. */
  lemma RedirStep(ts: seq<Token>, done: seq<Redirection<string>>)
    requires Next(ts, {'<', '>', '+'})
    ensures |ts| < 2 || ts[1].Sym? ==> Redirs(ts) == Bad
    ensures |ts| >= 2 && ts[1].Word? ==>
      Prepend(done, Redirs(ts)) == Prepend(done + [To(ts[1].w, ts[0].c != '<')], Redirs(ts[2..]))
  {
    if |ts| >= 2 && ts[1].Word? && Redirs(ts[2..]).Ok? {
      var one := [To(ts[1].w, ts[0].c != '<')];
      assert done + (one + Redirs(ts[2..]).value) == done + one + Redirs(ts[2..]).value;
    }
  }

  /** One turn of the loop of parseredirs. */
  method ParseRedir(buf: string, ps: nat) returns (ok: bool, r: Redirection<Span>, next: nat)
    requires CString(buf) && ps <= |buf| && Next(Ahead(buf, ps), {'<', '>', '+'})
    ensures var ts := Ahead(buf, ps); ok <==> |ts| >= 2 && ts[1].Word?
    ensures ok ==> ps < next <= |buf| && SpanOk(buf, r.file) && Ahead(buf, next) == Ahead(buf, ps)[2..]
    ensures ok ==> Ahead(buf, ps)[1] == Word(Text(buf, r.file)) && r.out == (Ahead(buf, ps)[0].c != '<')
  {
    ghost var ts := Ahead(buf, ps);
    var tok, q, eq;
    tok, q, eq, next := GetToken(buf, ps);
    var out := tok != '<';
    tok, q, eq, next := GetToken(buf, next);
    ok, r := tok == 'a', To(Span(q, eq), out);
    if ok { assert ts[1..][1..] == ts[2..]; }
  }

  /** parseredirs. The command they are wrapped around is put together by the caller. */
  method ParseRedirs(buf: string, ps: nat) returns (ok: bool, rs: seq<Redirection<Span>>, next: nat)
    requires CString(buf) && ps <= |buf|
    ensures ok <==> Redirs(Ahead(buf, ps)).Ok?
    ensures ok ==> ps <= next <= |buf| && FilesOk(buf, rs)
    ensures ok ==> Redirs(Ahead(buf, ps)) == Ok(ReadRedirs(buf, rs), Ahead(buf, next))
  {
    ghost var goal := Redirs(Ahead(buf, ps));
    ghost var done: seq<Redirection<string>> := [];
    var more, r;
    rs := [];
    more, next := Peek(buf, ps, {'<', '>', '+'});
    PrependNone(goal);
    assert ReadRedirs(buf, rs) == done;
    while more
      invariant ps <= next <= |buf| && FilesOk(buf, rs) && (more <==> Next(Ahead(buf, next), {'<', '>', '+'}))
      invariant done == ReadRedirs(buf, rs) && goal == Prepend(done, Redirs(Ahead(buf, next)))
      decreases |buf| - next
    {
      RedirStep(Ahead(buf, next), done);
      ok, r, next := ParseRedir(buf, next);
      if !ok {
        return;
      }
      ReadMore(buf, rs, [r]);
      assert ReadRedirs(buf, [r]) == [To(Text(buf, r.file), r.out)];
      rs, done := rs + [r], done + [To(Text(buf, r.file), r.out)];
      more, next := Peek(buf, next, {'<', '>', '+'});
    }
    PrependEnd(done, Ahead(buf, next));
    ok := true;
  }

  /** What a parsing method returned is what the grammar says. */
  ghost predicate Agrees(buf: string, ps: nat, r: Parsed<Cmd<string>>, ok: bool, c: Cmd<Span>, next: nat) {
    && (ok <==> r.Ok?)
    && (ok ==> ps <= next <= |buf| && Anchored(buf, c) && r == Ok(Read(buf, c), Ahead(buf, next)))
  }

  predicate AtStop(ts: seq<Token>) {
    Next(ts, {'|', ')', '&', ';'})
  }

  /** One turn of the loop of parseexec: a word and the redirections after it. */
  method ParseArg(buf: string, ps: nat) returns (ok: bool, arg: Span, rs: seq<Redirection<Span>>, next: nat)
    requires CString(buf) && ps <= |buf| && Ahead(buf, ps) != []
    ensures var ts := Ahead(buf, ps); ok <==> ts[0].Word? && Redirs(ts[1..]).Ok?
    ensures ok ==> ps < next <= |buf| && SpanOk(buf, arg) && FilesOk(buf, rs) && Ahead(buf, ps)[0] == Word(Text(buf, arg))
    ensures ok ==> Redirs(Ahead(buf, ps)[1..]) == Ok(ReadRedirs(buf, rs), Ahead(buf, next))
  {
    var tok, q, eq;
    tok, q, eq, next := GetToken(buf, ps);
    arg, rs := Span(q, eq), [];
    if tok != 'a' {
      return false, arg, rs, next;
    }
    ok, rs, next := ParseRedirs(buf, next);
  }

  lemma TextsMore(buf: string, args: seq<Span>, arg: Span)
    ensures Texts(buf, args + [arg]) == Texts(buf, args) + [Text(buf, arg)]
    ensures SpansOk(buf, args) && SpanOk(buf, arg) ==> SpansOk(buf, args + [arg])
  {
  }

  /** The loop of parseexec over the words of a command. */
  method ParseArgs(buf: string, ps: nat, first: seq<Redirection<Span>>) returns (ok: bool, c: Cmd<Span>, next: nat)
    requires CString(buf) && ps <= |buf| && FilesOk(buf, first)
    ensures Agrees(buf, ps, Args(Ahead(buf, ps), [], ReadRedirs(buf, first)), ok, c, next)
  {
    ghost var goal := Args(Ahead(buf, ps), [], ReadRedirs(buf, first));
    var args, rs: seq<Redirection<Span>> := [], first;
    var stop;
    c := Exec([]);
    stop, next := Peek(buf, ps, {'|', ')', '&', ';'});
    assert Texts(buf, args) == [];
    while !stop && next < |buf|
      invariant ps <= next <= |buf| && |args| < MAXARGS && SpansOk(buf, args) && FilesOk(buf, rs)
      invariant (stop <==> AtStop(Ahead(buf, next))) && (next < |buf| ==> !IsSpace(buf[next]))
      invariant goal == Args(Ahead(buf, next), Texts(buf, args), ReadRedirs(buf, rs))
      decreases |buf| - next
    {
      TokenAt(buf, next);
      ghost var ts := Ahead(buf, next);
      var arg, more, at;
      ok, arg, more, at := ParseArg(buf, next);
      if !ok || |args| + 1 >= MAXARGS {
        return false, c, next;
      }
      TextsMore(buf, args, arg);
      ReadMore(buf, rs, more);
      args, rs := args + [arg], rs + more;
      stop, next := Peek(buf, at, {'|', ')', '&', ';'});
    }
    TokenAt(buf, next);
    WrapRead(buf, Exec(args), rs);
    return true, Wrap(Exec(args), rs), next;
  }

  /** parseexec and parseblock. */
  method ParseExec(buf: string, ps: nat) returns (ok: bool, c: Cmd<Span>, next: nat)
    requires CString(buf) && ps <= |buf|
    ensures Agrees(buf, ps, ExecOf(Ahead(buf, ps)), ok, c, next)
    decreases |buf| - ps, 0
  {
    var b, tok, q, eq, rs;
    b, next := Peek(buf, ps, {'('});
    if b {
      tok, q, eq, next := GetToken(buf, next);
      ok, c, next := ParseLine(buf, next);
      if !ok {
        return;
      }
      b, next := Peek(buf, next, {')'});
      if !b {
        return false, c, next;
      }
      tok, q, eq, next := GetToken(buf, next);
      ok, rs, next := ParseRedirs(buf, next);
      if ok { WrapRead(buf, c, rs); }
      c := Wrap(c, rs);
      return;
    }
    ok, rs, next := ParseRedirs(buf, next);
    if !ok {
      return false, Exec([]), next;
    }
    ok, c, next := ParseArgs(buf, next, rs);
  }

  method ParsePipe(buf: string, ps: nat) returns (ok: bool, c: Cmd<Span>, next: nat)
    requires CString(buf) && ps <= |buf|
    ensures Agrees(buf, ps, PipeOf(Ahead(buf, ps)), ok, c, next)
    decreases |buf| - ps, 1
  {
    ok, c, next := ParseExec(buf, ps);
    if !ok {
      return;
    }
    var b, tok, q, eq, right;
    b, next := Peek(buf, next, {'|'});
    if b {
      tok, q, eq, next := GetToken(buf, next);
      ok, right, next := ParsePipe(buf, next);
      c := Pipe(c, right);
    }
  }

  method ParseLine(buf: string, ps: nat) returns (ok: bool, c: Cmd<Span>, next: nat)
    requires CString(buf) && ps <= |buf|
    ensures Agrees(buf, ps, LineOf(Ahead(buf, ps)), ok, c, next)
    decreases |buf| - ps, 2
  {
    ok, c, next := ParsePipe(buf, ps);
    if !ok {
      return;
    }
    var b, tok, q, eq, right;
    ghost var goal := Backs(Read(buf, c), Ahead(buf, next));
    b, next := Peek(buf, next, {'&'});
    while b
      invariant ps <= next <= |buf| && Anchored(buf, c) && goal == Backs(Read(buf, c), Ahead(buf, next))
      invariant b <==> Next(Ahead(buf, next), {'&'})
      decreases |buf| - next
    {
      tok, q, eq, next := GetToken(buf, next);
      c := Back(c);
      b, next := Peek(buf, next, {'&'});
    }
    b, next := Peek(buf, next, {';'});
    if b {
      tok, q, eq, next := GetToken(buf, next);
      ok, right, next := ParseLine(buf, next);
      c := List(c, right);
    }
  }

  /** parsecmd up to nulterminate: the whole line, or a syntax error. */
  method ParseCmd(buf: string) returns (ok: bool, c: Cmd<Span>)
    requires CString(buf)
    ensures ok <==> Parse(buf).Ok?
    ensures ok ==> Anchored(buf, c) && Parse(buf) == Ok(Read(buf, c), [])
  {
    var next, b;
    assert buf[0..] == buf;
    ok, c, next := ParseLine(buf, 0);
    if !ok {
      return;
    }
    b, next := Peek(buf, next, {});
    TokenAt(buf, next);
    ok := next == |buf|;
  }

  // ---------------------------------------------------------------- nulterminate

  function Spans(c: Cmd<Span>): (s: set<Span>) {
    match c
    case Exec(args) => set i | 0 <= i < |args| :: args[i]
    case Redir(d, f, _) => Spans(d) + {f}
    case Pipe(l, r) => Spans(l) + Spans(r)
    case List(l, r) => Spans(l) + Spans(r)
    case Back(d) => Spans(d)
  }

  ghost predicate EndsAt(s: set<Span>, i: int) {
    exists sp :: sp in s && sp.end == i
  }

  /** A NUL at the end of every word of the command, everything else as it was. */
  ghost predicate Nulled(was: seq<char>, now: seq<char>, s: set<Span>) {
    |now| == |was| && forall i :: 0 <= i < |was| ==> now[i] == if EndsAt(s, i) then '\0' else was[i]
  }

  lemma NulledTwice(x: seq<char>, y: seq<char>, z: seq<char>, a: set<Span>, b: set<Span>)
    requires Nulled(x, y, a) && Nulled(y, z, b)
    ensures Nulled(x, z, a + b)
  {
    forall i | 0 <= i < |x|
      ensures z[i] == if EndsAt(a + b, i) then '\0' else x[i]
    {
      assert EndsAt(a + b, i) <==> EndsAt(a, i) || EndsAt(b, i) by {
        if sp :| sp in a + b && sp.end == i { assert sp in a || sp in b; }
        if sp :| sp in a && sp.end == i { assert sp in a + b; }
        if sp :| sp in b && sp.end == i { assert sp in a + b; }
      }
    }
  }

  method NulArgs(args: seq<Span>, a: array<char>)
    requires forall i :: 0 <= i < |args| ==> args[i].end < a.Length
    modifies a
    ensures Nulled(old(a[..]), a[..], set i | 0 <= i < |args| :: args[i])
  {
    ghost var was := a[..];
    for n := 0 to |args|
      invariant forall i :: 0 <= i < a.Length ==> a[i] == if (exists j :: 0 <= j < n && args[j].end == i) then '\0' else was[i]
    {
      a[args[n].end] := '\0';
    }
    ghost var s := set i | 0 <= i < |args| :: args[i];
    forall i | 0 <= i < a.Length
      ensures EndsAt(s, i) <==> exists j :: 0 <= j < |args| && args[j].end == i
    {
      if j :| 0 <= j < |args| && args[j].end == i { assert args[j] in s; }
    }
  }

  method NulTerminate(c: Cmd<Span>, a: array<char>)
    requires forall sp :: sp in Spans(c) ==> sp.end < a.Length
    modifies a
    ensures Nulled(old(a[..]), a[..], Spans(c))
    decreases c
  {
    ghost var was := a[..];
    match c
    case Exec(args) =>
      forall i | 0 <= i < |args| ensures args[i].end < a.Length { assert args[i] in Spans(c); }
      NulArgs(args, a);
    case Redir(d, f, _) =>
      NulTerminate(d, a);
      ghost var mid := a[..];
      a[f.end] := '\0';
      assert Nulled(mid, a[..], {f}) by { assert forall i :: EndsAt({f}, i) <==> i == f.end by { assert f in {f}; } }
      NulledTwice(was, mid, a[..], Spans(d), {f});
    case Pipe(l, r) =>
      NulTerminate(l, a);
      ghost var mid := a[..];
      NulTerminate(r, a);
      NulledTwice(was, mid, a[..], Spans(l), Spans(r));
    case List(l, r) =>
      NulTerminate(l, a);
      ghost var mid := a[..];
      NulTerminate(r, a);
      NulledTwice(was, mid, a[..], Spans(l), Spans(r));
    case Back(d) =>
      NulTerminate(d, a);
  }

  /** The C string that starts at `i`. */
  function CStr(a: seq<char>, i: nat): (w: string)
    decreases |a| - i
  {
    if i >= |a| || a[i] == '\0' then "" else [a[i]] + CStr(a, i + 1)
  }

  lemma {:induction false} CStrIs(a: seq<char>, i: nat, e: nat)
    requires i <= e < |a| && a[e] == '\0' && forall k :: i <= k < e ==> a[k] != '\0'
    ensures CStr(a, i) == a[i..e]
    decreases e - i
  {
    if i < e {
      CStrIs(a, i + 1, e);
      assert a[i..e] == [a[i]] + a[i + 1..e];
    }
  }

  lemma {:induction false} SpansAnchored(buf: string, c: Cmd<Span>, sp: Span)
    requires Anchored(buf, c) && sp in Spans(c)
    ensures SpanOk(buf, sp)
  {
    match c
    case Exec(args) =>
    case Redir(d, f, _) => if sp in Spans(d) { SpansAnchored(buf, d, sp); }
    case Pipe(l, r) => if sp in Spans(l) { SpansAnchored(buf, l, sp); } else { SpansAnchored(buf, r, sp); }
    case List(l, r) => if sp in Spans(l) { SpansAnchored(buf, l, sp); } else { SpansAnchored(buf, r, sp); }
    case Back(d) => SpansAnchored(buf, d, sp);
  }

  /** No word's end lies inside another word, so every word of the command reads as itself. */
  lemma WordReads(buf: string, c: Cmd<Span>, a: seq<char>, sp: Span)
    requires CString(buf) && Anchored(buf, c) && sp in Spans(c) && Nulled(buf + "\0", a, Spans(c))
    ensures CStr(a, sp.start) == Text(buf, sp)
  {
    SpansAnchored(buf, c, sp);
    forall k | sp.start <= k < sp.end
      ensures a[k] == buf[k] != '\0'
    {
      assert !EndsAt(Spans(c), k) by {
        if other :| other in Spans(c) && other.end == k { SpansAnchored(buf, c, other); }
      }
    }
    assert EndsAt(Spans(c), sp.end);
    CStrIs(a, sp.start, sp.end);
    assert a[sp.start..sp.end] == buf[sp.start..sp.end];
  }

  /** The command as a program that is handed its pointers sees it. */
  function Seen(a: seq<char>, c: Cmd<Span>): (t: Cmd<string>) {
    match c
    case Exec(args) => Exec(seq(|args|, i requires 0 <= i < |args| => CStr(a, args[i].start)))
    case Redir(d, f, out) => Redir(Seen(a, d), CStr(a, f.start), out)
    case Pipe(l, r) => Pipe(Seen(a, l), Seen(a, r))
    case List(l, r) => List(Seen(a, l), Seen(a, r))
    case Back(d) => Back(Seen(a, d))
  }

  lemma {:induction false} SeenIsRead(buf: string, a: seq<char>, c: Cmd<Span>, whole: Cmd<Span>)
    requires CString(buf) && Anchored(buf, whole) && Nulled(buf + "\0", a, Spans(whole)) && Spans(c) <= Spans(whole)
    ensures Seen(a, c) == Read(buf, c)
    decreases c
  {
    match c
    case Exec(args) =>
      forall i | 0 <= i < |args|
        ensures CStr(a, args[i].start) == Text(buf, args[i])
      {
        assert args[i] in Spans(c);
        WordReads(buf, whole, a, args[i]);
      }
    case Redir(d, f, _) =>
      SeenIsRead(buf, a, d, whole);
      assert f in Spans(c);
      WordReads(buf, whole, a, f);
    case Pipe(l, r) =>
      SeenIsRead(buf, a, l, whole);
      SeenIsRead(buf, a, r, whole);
    case List(l, r) =>
      SeenIsRead(buf, a, l, whole);
      SeenIsRead(buf, a, r, whole);
    case Back(d) => SeenIsRead(buf, a, d, whole);
  }

  /**
   parsecmd: a line in a buffer becomes a command whose pointers, read as C strings in the buffer
   it leaves, spell what the grammar says of the line.
   */
  method ParseCommand(a: array<char>) returns (ok: bool, c: Cmd<Span>)
    requires a.Length > 0 && a[a.Length - 1] == '\0' && forall i :: 0 <= i < a.Length - 1 ==> a[i] != '\0'
    modifies a
    ensures ok <==> Parse(old(a[..a.Length - 1])).Ok?
    ensures ok ==> Parse(old(a[..a.Length - 1])).value == Seen(a[..], c)
  {
    var buf := a[..a.Length - 1];
    assert a[..] == buf + "\0";
    ok, c := ParseCmd(buf);
    if ok {
      forall sp | sp in Spans(c) ensures sp.end < a.Length { SpansAnchored(buf, c, sp); }
      NulTerminate(c, a);
      SeenIsRead(buf, a[..], c, c);
    }
  }
}
