/**
 The regular-expression matcher of grep: literals, `.`, `c*`, a leading `^` and a final `$`. The
 language of a pattern is defined apart from the matcher, on the pattern's list of items. Strings
 are C strings without their NUL.
 */
module Regex {

  /** One character, or any number of it; `.` stands for every character. */
  datatype Item = One(c: char) | Star(c: char)

  datatype Pattern = Pattern(items: seq<Item>, toEnd: bool)

  predicate CString(s: string) {
    forall i :: 0 <= i < |s| ==> s[i] != '\0'
  }

  /** What a C program reads at s[i]. */
  function At(s: string, i: nat): (c: char) {
    if i < |s| then s[i] else '\0'
  }

  predicate Fits(c: char, x: char) {
    c == '.' || c == x
  }

  predicate AllFit(c: char, w: string) {
    forall i :: 0 <= i < |w| ==> Fits(c, w[i])
  }

  /** The items of a pattern; `$` is special only as its last character. */
  function Items(re: string): (p: Pattern) {
    if re == "" then Pattern([], false)
    else if At(re, 1) == '*' && |re| > 1 then
      var p := Items(re[2..]);
      Pattern([Star(re[0])] + p.items, p.toEnd)
    else if re == "$" then Pattern([], true)
    else
      var p := Items(re[1..]);
      Pattern([One(re[0])] + p.items, p.toEnd)
  }

  /** `w` is in the language of the items. */
  ghost predicate Lang(items: seq<Item>, w: string)
    decreases |items|
  {
    if items == [] then w == ""
    else match items[0]
      case One(c) => w != "" && Fits(c, w[0]) && Lang(items[1..], w[1..])
      case Star(c) => exists k :: 0 <= k <= |w| && StarSplit(items, w, c, k)
  }

  ghost predicate StarSplit(items: seq<Item>, w: string, c: char, k: nat)
    requires items != [] && k <= |w|
    decreases |items|, 0
  {
    AllFit(c, w[..k]) && Lang(items[1..], w[k..])
  }

  /** A prefix of `text` is in the language, all of it if the pattern ends in `$`. */
  ghost predicate Prefixed(p: Pattern, text: string, n: nat)
    requires n <= |text|
  {
    (p.toEnd ==> n == |text|) && Lang(p.items, text[..n])
  }

  ghost predicate Here(p: Pattern, text: string) {
    exists n :: 0 <= n <= |text| && Prefixed(p, text, n)
  }

  /** Some suffix of the text has the pattern at its start; the whole text if the pattern starts with `^`. */
  ghost predicate Found(re: string, text: string) {
    if At(re, 0) == '^' && re != "" then Here(Items(re[1..]), text)
    else exists i :: 0 <= i <= |text| && Here(Items(re), text[i..])
  }

  // ---------------------------------------------------------------- patterns as they are written

  /** A character stands for itself, a star follows the character it repeats, `$` comes last. */
  function Written(items: seq<Item>): (s: string) {
    if items == [] then ""
    else (match items[0] case One(c) => [c] case Star(c) => [c, '*']) + Written(items[1..])
  }

  function Print(p: Pattern): (s: string) {
    Written(p.items) + if p.toEnd then "$" else ""
  }

  /** The written form can be read in one way only: no plain character before a `*`, no plain `$` at the end. */
  predicate Clear(p: Pattern) {
    && (forall i :: 0 <= i < |p.items| - 1 && p.items[i].One? ==> p.items[i + 1].c != '*')
    && (!p.toEnd && p.items != [] ==> p.items[|p.items| - 1] != One('$'))
  }

  lemma ClearTail(p: Pattern)
    requires p.items != []
    ensures var q := Pattern(p.items[1..], p.toEnd);
      Clear(p) <==>
      Clear(q) && (p.items[0].One? ==> (q.items != [] ==> q.items[0].c != '*') && (q.items == [] && !p.toEnd ==> p.items[0].c != '$'))
  {
    var q := Pattern(p.items[1..], p.toEnd);
    assert forall i :: 0 <= i < |q.items| ==> q.items[i] == p.items[i + 1];
    if Clear(q) && (p.items[0].One? && q.items != [] ==> q.items[0].c != '*') {
      forall i | 0 <= i < |p.items| - 1 && p.items[i].One?
        ensures p.items[i + 1].c != '*'
      {
        assert i > 0 ==> p.items[i] == q.items[i - 1];
      }
    }
    if Clear(p) {
      forall i | 0 <= i < |q.items| - 1 && q.items[i].One? ensures q.items[i + 1].c != '*' { assert p.items[i + 1].One?; }
    }
  }

  lemma WrittenFirst(items: seq<Item>)
    requires items != []
    ensures Written(items) != "" && Written(items)[0] == items[0].c
  {
  }

  lemma PrintFirst(p: Pattern)
    requires p.items != []
    ensures p.items == [p.items[0]] + p.items[1..]
    ensures var q := Pattern(p.items[1..], p.toEnd);
      Print(p) == (match p.items[0] case One(c) => [c] case Star(c) => [c, '*']) + Print(q)
  {
  }

  lemma ItemsStar(c: char, s: string)
    ensures Items([c, '*'] + s) == Pattern([Star(c)] + Items(s).items, Items(s).toEnd)
  {
    var re := [c, '*'] + s;
    assert re[1] == '*' && re[2..] == s;
  }

  lemma ItemsOne(c: char, s: string)
    requires (s == "" ==> c != '$') && (s != "" ==> s[0] != '*')
    ensures Items([c] + s) == Pattern([One(c)] + Items(s).items, Items(s).toEnd)
  {
    var re := [c] + s;
    assert re[1..] == s && re[0] == c && |re| == 1 + |s|;
    assert re != "$";
    assert s != "" ==> re[1] == s[0];
  }

  /** A pattern written and read is the pattern, if it can be read in one way only. */
  lemma {:induction false} ItemsBack(p: Pattern)
    requires Clear(p)
    ensures Items(Print(p)) == p
    decreases |p.items|
  {
    if p.items == [] {
      assert Print(p) == if p.toEnd then "$" else "";
    } else {
      var q := Pattern(p.items[1..], p.toEnd);
      ClearTail(p);
      ItemsBack(q);
      PrintFirst(p);
      if q.items != [] { WrittenFirst(q.items); }
      if p.items[0].Star? { ItemsStar(p.items[0].c, Print(q)); } else { ItemsOne(p.items[0].c, Print(q)); }
    }
  }

  lemma StarStep(c: char, rest: string)
    requires Print(Items(rest)) == rest && Clear(Items(rest))
    ensures var p := Items([c, '*'] + rest); Print(p) == [c, '*'] + rest && Clear(p)
  {
    var q := Items(rest);
    var p := Pattern([Star(c)] + q.items, q.toEnd);
    ItemsStar(c, rest);
    assert p.items[1..] == q.items;
    ClearTail(p);
    PrintFirst(p);
  }

  lemma OneStep(c: char, rest: string)
    requires Print(Items(rest)) == rest && Clear(Items(rest)) && (rest == "" ==> c != '$') && (rest != "" ==> rest[0] != '*')
    ensures var p := Items([c] + rest); Print(p) == [c] + rest && Clear(p)
  {
    var q := Items(rest);
    var p := Pattern([One(c)] + q.items, q.toEnd);
    ItemsOne(c, rest);
    assert p.items[1..] == q.items;
    if q.items != [] { WrittenFirst(q.items); }
    ClearTail(p);
    PrintFirst(p);
  }

  /** What is read from a string is written as that string, and can be read in one way only. */
  lemma {:induction false} PrintBack(re: string)
    ensures Print(Items(re)) == re && Clear(Items(re))
    decreases |re|
  {
    if re == "$" {
      assert Items(re) == Pattern([], true);
    } else if re != "" {
      if |re| > 1 && re[1] == '*' {
        PrintBack(re[2..]);
        StarStep(re[0], re[2..]);
        assert re == [re[0], '*'] + re[2..];
      } else {
        PrintBack(re[1..]);
        OneStep(re[0], re[1..]);
        assert re == [re[0]] + re[1..];
      }
    }
  }

  /** So a string is read as `p` exactly if it is `p` written and can be read in one way only. */
  lemma ItemsExact(re: string, p: Pattern)
    ensures Items(re) == p <==> re == Print(p) && Clear(p)
  {
    PrintBack(re);
    if Clear(p) { ItemsBack(p); }
  }

  lemma LangOneIs(items: seq<Item>, w: string)
    requires items != [] && items[0].One?
    ensures Lang(items, w) <==> w != "" && Fits(items[0].c, w[0]) && Lang(items[1..], w[1..])
  {
  }

  lemma StarGives(items: seq<Item>, w: string) returns (k: nat)
    requires items != [] && items[0].Star? && Lang(items, w)
    ensures k <= |w| && AllFit(items[0].c, w[..k]) && Lang(items[1..], w[k..])
  {
    var c := items[0].c;
    assert Lang(items, w) && items[0] == Star(c);
    k :| 0 <= k <= |w| && StarSplit(items, w, c, k);
  }

  lemma StarTakes(items: seq<Item>, w: string, k: nat)
    requires items != [] && items[0].Star? && k <= |w| && AllFit(items[0].c, w[..k]) && Lang(items[1..], w[k..])
    ensures Lang(items, w)
  {
    var c := items[0].c;
    assert items[0] == Star(c) && StarSplit(items, w, c, k);
  }

  lemma OneWord(a: Item, w: string)
    ensures a.One? ==> (Lang([a], w) <==> |w| == 1 && Fits(a.c, w[0]))
    ensures a.Star? ==> (Lang([a], w) <==> AllFit(a.c, w))
  {
    var items := [a];
    assert items[1..] == [];
    if a.One? {
      LangOneIs(items, w);
    } else {
      assert w[..|w|] == w && w[|w|..] == "";
      if AllFit(a.c, w) { StarTakes(items, w, |w|); }
      if Lang(items, w) {
        var k := StarGives(items, w);
        assert w[..k] == w;
      }
    }
  }

  /** The words of one item: a letter is itself, `.` any letter, and a star any number of them. */
  lemma LangItem(c: char, w: string)
    requires c != '.'
    ensures Lang([One(c)], w) <==> w == [c]
    ensures Lang([One('.')], w) <==> |w| == 1
    ensures Lang([Star(c)], w) <==> forall i :: 0 <= i < |w| ==> w[i] == c
    ensures Lang([Star('.')], w)
  {
    OneWord(One(c), w);
    OneWord(One('.'), w);
    OneWord(Star(c), w);
    OneWord(Star('.'), w);
  }

  /** The words of a list of items are the words of its first item followed by words of the rest. */
  lemma LangConcat(a: Item, items: seq<Item>, w: string)
    ensures Lang([a] + items, w) <==> exists k :: 0 <= k <= |w| && Lang([a], w[..k]) && Lang(items, w[k..])
  {
    var all := [a] + items;
    assert all[1..] == items;
    forall k | 0 <= k <= |w|
      ensures Lang([a], w[..k]) <==> if a.One? then k == 1 && Fits(a.c, w[0]) else AllFit(a.c, w[..k])
    {
      OneWord(a, w[..k]);
    }
    if a.One? {
      LangOneIs(all, w);
      if Lang(all, w) { assert Lang([a], w[..1]) && Lang(items, w[1..]); }
    } else {
      if Lang(all, w) {
        var k := StarGives(all, w);
        assert Lang([a], w[..k]) && Lang(items, w[k..]);
      }
      if k :| 0 <= k <= |w| && Lang([a], w[..k]) && Lang(items, w[k..]) { StarTakes(all, w, k); }
    }
  }

  /** What match looks for, pattern by pattern: anywhere, or at the start behind `^`; up to the end before `$`. */
  lemma FoundExact(p: Pattern, text: string)
    requires Clear(p)
    ensures Found("^" + Print(p), text) <==> exists n :: 0 <= n <= |text| && Lang(p.items, text[..n]) && (p.toEnd ==> n == |text|)
    ensures Print(p) == "" || Print(p)[0] != '^' ==>
      (Found(Print(p), text) <==>
       exists i, n :: 0 <= i <= n <= |text| && Lang(p.items, text[i..n]) && (p.toEnd ==> n == |text|))
  {
    ItemsBack(p);
    var re := "^" + Print(p);
    assert re[1..] == Print(p) && At(re, 0) == '^';
    if n :| 0 <= n <= |text| && Lang(p.items, text[..n]) && (p.toEnd ==> n == |text|) { assert Prefixed(p, text, n); }
    if Here(p, text) { var n :| 0 <= n <= |text| && Prefixed(p, text, n); assert Lang(p.items, text[..n]); }
    if i, n :| 0 <= i <= n <= |text| && Lang(p.items, text[i..n]) && (p.toEnd ==> n == |text|) {
      assert text[i..][..n - i] == text[i..n] && Prefixed(p, text[i..], n - i);
    }
    if i :| 0 <= i <= |text| && Here(p, text[i..]) {
      var n :| 0 <= n <= |text[i..]| && Prefixed(p, text[i..], n);
      assert text[i..][..n] == text[i..i + n];
    }
  }

  // ---------------------------------------------------------------- matching

  lemma HereEmpty(text: string)
    ensures Here(Pattern([], false), text)
    ensures Here(Pattern([], true), text) <==> text == ""
  {
    assert Prefixed(Pattern([], false), text, 0);
    if text == "" { assert Prefixed(Pattern([], true), text, 0); }
  }

  lemma HereOne(c: char, p: Pattern, text: string)
    ensures Here(Pattern([One(c)] + p.items, p.toEnd), text) <==>
            text != "" && Fits(c, text[0]) && Here(p, text[1..])
  {
    var q := Pattern([One(c)] + p.items, p.toEnd);
    assert q.items[1..] == p.items;
    if n :| 0 <= n <= |text| && Prefixed(q, text, n) {
      assert text[..n][1..] == text[1..][..n - 1];
      assert Prefixed(p, text[1..], n - 1);
    }
    if text != "" && Fits(c, text[0]) {
      if n :| 0 <= n <= |text[1..]| && Prefixed(p, text[1..], n) {
        assert text[..n + 1][1..] == text[1..][..n];
        assert Prefixed(q, text, n + 1);
      }
    }
  }

  /** `k` characters that fit, and then the rest of the pattern. */
  ghost predicate StarAt(c: char, p: Pattern, text: string, k: nat)
    requires k <= |text|
  {
    AllFit(c, text[..k]) && Here(p, text[k..])
  }

  ghost predicate StarHere(c: char, p: Pattern, text: string) {
    exists k :: 0 <= k <= |text| && StarAt(c, p, text, k)
  }

  lemma HereStar(c: char, p: Pattern, text: string)
    ensures Here(Pattern([Star(c)] + p.items, p.toEnd), text) <==> StarHere(c, p, text)
  {
    var q := Pattern([Star(c)] + p.items, p.toEnd);
    assert q.items[1..] == p.items;
    if n :| 0 <= n <= |text| && Prefixed(q, text, n) {
      var w := text[..n];
      assert Lang(q.items, w) && q.items[0] == Star(c);
      var k :| 0 <= k <= |w| && StarSplit(q.items, w, c, k);
      assert w[..k] == text[..k] && w[k..] == text[k..][..n - k];
      assert Prefixed(p, text[k..], n - k);
      assert StarAt(c, p, text, k);
    }
    if k :| 0 <= k <= |text| && StarAt(c, p, text, k) {
      var n :| 0 <= n <= |text[k..]| && Prefixed(p, text[k..], n);
      var w := text[..k + n];
      assert w[..k] == text[..k] && w[k..] == text[k..][..n];
      assert StarSplit(q.items, w, c, k);
      assert Prefixed(q, text, k + n);
    }
  }

  /** matchhere. */
  method MatchHere(re: string, text: string) returns (b: bool)
    requires CString(re) && CString(text)
    ensures b <==> Here(Items(re), text)
    decreases |re|, 0
  {
    if At(re, 0) == '\0' {
      HereEmpty(text);
      return true;
    }
    if At(re, 1) == '*' {
      var rest := Items(re[2..]);
      assert Items(re) == Pattern([Star(re[0])] + rest.items, rest.toEnd);
      HereStar(re[0], rest, text);
      b := MatchStar(re[0], re[2..], text);
      return;
    }
    if At(re, 0) == '$' && At(re, 1) == '\0' {
      assert re == "$";
      HereEmpty(text);
      return At(text, 0) == '\0';
    }
    HereOne(re[0], Items(re[1..]), text);
    if At(text, 0) != '\0' && (re[0] == '.' || re[0] == text[0]) {
      b := MatchHere(re[1..], text[1..]);
      return;
    }
    return false;
  }

  /** matchstar: its loop tries the rest of the pattern after 0, 1, 2... characters that fit. */
  method MatchStar(c: char, re: string, text: string) returns (b: bool)
    requires CString(re) && CString(text)
    ensures b <==> StarHere(c, Items(re), text)
    decreases |re|, 1
  {
    var k := 0;
    while true
      invariant 0 <= k <= |text| && AllFit(c, text[..k])
      invariant forall j :: 0 <= j < k ==> !StarAt(c, Items(re), text, j)
      decreases |text| - k
    {
      b := MatchHere(re, text[k..]);
      if b {
        assert StarAt(c, Items(re), text, k);
        return;
      }
      if !(k < |text| && (text[k] == c || c == '.')) {
        forall j | k < j <= |text|
          ensures !StarAt(c, Items(re), text, j)
        {
          assert text[..j][k] == text[k];
        }
        return;
      }
      k := k + 1;
    }
  }

  /** match: 1 if and only if the pattern is found in the text. */
  method Match(re: string, text: string) returns (b: bool)
    requires CString(re) && CString(text)
    ensures b <==> Found(re, text)
  {
    if At(re, 0) == '^' {
      b := MatchHere(re[1..], text);
      return;
    }
    var i := 0;
    while true
      invariant 0 <= i <= |text| && forall j :: 0 <= j < i ==> !Here(Items(re), text[j..])
      decreases |text| - i
    {
      b := MatchHere(re, text[i..]);
      if b || i == |text| {
        return;
      }
      i := i + 1;
    }
  }
}
