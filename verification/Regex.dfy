/**
  The pattern matcher of grep.  A pattern is read left to right: `x*` is a repeated
  character, a `$` that ends the pattern is the end anchor, a `^` that starts it is the
  start anchor, `.` stands for any character, and everything else (a leading `*`, a `^` or
  `$` elsewhere) stands for itself.
  */
module Regex {

  import opened CStrings

  datatype Item = One(c: char) | Many(c: char)
  datatype Pattern = Pattern(items: seq<Item>, end: bool)

  predicate Fits(c: char, x: char) { c == '.' || c == x }

  /** What a pattern without its start anchor denotes. */
  function Parse(re: string): (p: Pattern) {
    if re == "" then Pattern([], false)
    else if 1 < |re| && re[1] == '*' then
      var p := Parse(re[2..]);
      Pattern([Many(re[0])] + p.items, p.end)
    else if re == "$" then Pattern([], true)
    else
      var p := Parse(re[1..]);
      Pattern([One(re[0])] + p.items, p.end)
  }

  /** The text of a pattern. */
  function Print(p: Pattern): (re: string)
    decreases |p.items|
  {
    if p.items == [] then (if p.end then "$" else "")
    else
      var item, rest := p.items[0], Print(Pattern(p.items[1..], p.end));
      match item
      case One(c) => [c] + rest
      case Many(c) => [c, '*'] + rest
  }

  /** Reading a pattern forgets none of it. */
  lemma {:induction false} PrintParse(re: string)
    ensures Print(Parse(re)) == re
    decreases |re|
  {
    if re == "" || re == "$" {
    } else if 1 < |re| && re[1] == '*' {
      var p := Parse(re[2..]);
      PrintParse(re[2..]);
      assert Parse(re).items[1..] == p.items && Pattern(p.items, p.end) == p;
    } else {
      var p := Parse(re[1..]);
      PrintParse(re[1..]);
      assert Parse(re).items[1..] == p.items && Pattern(p.items, p.end) == p;
    }
  }

  /** No single character stands before a `*`, and none that is a last `$` stands for itself. */
  ghost predicate Readable(p: Pattern)
    decreases |p.items|
  {
    p.items != [] ==>
      var rest := Pattern(p.items[1..], p.end);
      && Readable(rest)
      && (p.items[0].One? ==> (Print(rest) == "" ==> p.items[0].c != '$') && (Print(rest) != "" ==> Print(rest)[0] != '*'))
  }

  /** Every pattern that its text can express is read back as itself. */
  lemma {:induction false} ParsePrint(p: Pattern)
    requires Readable(p)
    ensures Parse(Print(p)) == p
    decreases |p.items|
  {
    if p.items != [] {
      var rest, re := Pattern(p.items[1..], p.end), Print(p);
      ParsePrint(rest);
      assert p.items == [p.items[0]] + rest.items;
      assert re == (if p.items[0].One? then [p.items[0].c] else [p.items[0].c, '*']) + Print(rest);
      assert re[if p.items[0].One? then 1 else 2..] == Print(rest);
    }
  }

  // ----- the language of a list of items

  ghost predicate Denotes(item: Item, piece: string) {
    match item
    case One(c) => |piece| == 1 && Fits(c, piece[0])
    case Many(c) => forall i :: 0 <= i < |piece| ==> Fits(c, piece[i])
  }

  ghost function Flatten(pieces: seq<string>): (s: string) {
    if pieces == [] then "" else pieces[0] + Flatten(pieces[1..])
  }

  /** `pieces` cuts `s` into one piece for each item. */
  ghost predicate Cut(items: seq<Item>, s: string, pieces: seq<string>) {
    && |pieces| == |items| && Flatten(pieces) == s
    && forall i :: 0 <= i < |items| ==> Denotes(items[i], pieces[i])
  }

  /** `s` is a concatenation of strings that the items denote, in order. */
  ghost predicate Language(items: seq<Item>, s: string) {
    exists pieces :: Cut(items, s, pieces)
  }

  /** Some prefix of `s` is in the language; all of `s` when the pattern is anchored at the end. */
  ghost predicate Here(p: Pattern, s: string) {
    exists j :: 0 <= j <= |s| && Language(p.items, s[..j]) && (p.end ==> j == |s|)
  }

  /** Some substring of `text`, as the anchors allow, is in the language of `re`. */
  ghost predicate Matches(re: string, text: string) {
    if re != "" && re[0] == '^' then Found(Parse(re[1..]), text, 0)
    else exists i :: 0 <= i <= |text| && Found(Parse(re), text, i)
  }

  ghost predicate Found(p: Pattern, text: string, i: nat) {
    exists j :: i <= j <= |text| && Language(p.items, text[i..j]) && (p.end ==> j == |text|)
  }

  // ----- unfolding the language item by item

  lemma LanguageEmpty(s: string)
    ensures Language([], s) <==> s == ""
  {
    if s == "" {
      assert Cut([], s, []);
    }
  }

  /** A first item takes a prefix. */
  lemma LanguageSplit(item: Item, rest: seq<Item>, s: string)
    requires Language([item] + rest, s)
    ensures exists k :: 0 <= k <= |s| && Denotes(item, s[..k]) && Language(rest, s[k..])
  {
    var items := [item] + rest;
    var pieces :| Cut(items, s, pieces);
    var k := |pieces[0]|;
    assert s[..k] == pieces[0] && s[k..] == Flatten(pieces[1..]);
    assert Denotes(items[0], pieces[0]);
    assert forall i :: 0 <= i < |rest| ==> rest[i] == items[i + 1];
    assert Cut(rest, s[k..], pieces[1..]);
  }

  lemma LanguageJoin(item: Item, rest: seq<Item>, s: string, k: nat)
    requires k <= |s| && Denotes(item, s[..k]) && Language(rest, s[k..])
    ensures Language([item] + rest, s)
  {
    var pieces :| Cut(rest, s[k..], pieces);
    var all := [s[..k]] + pieces;
    assert all[1..] == pieces && s == s[..k] + s[k..];
    assert Cut([item] + rest, s, all);
  }

  // ----- matching at the start of the text, case by case

  lemma HereEmpty(s: string)
    ensures Here(Pattern([], false), s)
  {
    LanguageEmpty(s[..0]);
  }

  lemma HereEnd(s: string)
    ensures Here(Pattern([], true), s) <==> s == ""
  {
    LanguageEmpty(s);
    assert s[..|s|] == s;
    if s == "" {
      assert Language([], s[..0]);
    }
  }

  lemma HereOne(c: char, p: Pattern, s: string)
    ensures Here(Pattern([One(c)] + p.items, p.end), s) <==> s != "" && Fits(c, s[0]) && Here(p, s[1..])
  {
    var q := Pattern([One(c)] + p.items, p.end);
    if Here(q, s) {
      var j :| 0 <= j <= |s| && Language(q.items, s[..j]) && (q.end ==> j == |s|);
      LanguageSplit(One(c), p.items, s[..j]);
      assert s[..j][1..] == s[1..][..j - 1];
    }
    if s != "" && Fits(c, s[0]) && Here(p, s[1..]) {
      var j :| 0 <= j <= |s[1..]| && Language(p.items, s[1..][..j]) && (p.end ==> j == |s[1..]|);
      assert s[..j + 1][1..] == s[1..][..j];
      assert s[..j + 1][..1] == [s[0]];
      LanguageJoin(One(c), p.items, s[..j + 1], 1);
    }
  }

  /** A repeated character takes any run of fitting characters. */
  lemma HereMany(c: char, p: Pattern, s: string)
    ensures Here(Pattern([Many(c)] + p.items, p.end), s) <==> Star(c, p, s)
  {
    hide Here, Language, StarAt;
    if Here(Pattern([Many(c)] + p.items, p.end), s) {
      HereStar(c, p, s);
    }
    if k :| 0 <= k <= |s| && StarAt(c, p, s, k) {
      StarHere(c, p, s, k);
    }
  }

  lemma HereStar(c: char, p: Pattern, s: string)
    requires Here(Pattern([Many(c)] + p.items, p.end), s)
    ensures Star(c, p, s)
  {
    hide Language;
    var items := [Many(c)] + p.items;
    var j :| 0 <= j <= |s| && Language(items, s[..j]) && (p.end ==> j == |s|);
    LanguageSplit(Many(c), p.items, s[..j]);
    var k :| 0 <= k <= |s[..j]| && Denotes(Many(c), s[..j][..k]) && Language(p.items, s[..j][k..]);
    assert s[..j][..k] == s[..k] && s[..j][k..] == s[k..][..j - k];
    assert StarAt(c, p, s, k);
  }

  lemma StarHere(c: char, p: Pattern, s: string, k: nat)
    requires k <= |s| && StarAt(c, p, s, k)
    ensures Here(Pattern([Many(c)] + p.items, p.end), s)
  {
    hide Language;
    var j :| 0 <= j <= |s[k..]| && Language(p.items, s[k..][..j]) && (p.end ==> j == |s[k..]|);
    assert s[..k + j][..k] == s[..k] && s[..k + j][k..] == s[k..][..j];
    LanguageJoin(Many(c), p.items, s[..k + j], k);
  }

  ghost predicate Star(c: char, p: Pattern, s: string) {
    exists k :: 0 <= k <= |s| && StarAt(c, p, s, k)
  }

  ghost predicate StarAt(c: char, p: Pattern, s: string, k: nat)
    requires k <= |s|
  {
    Denotes(Many(c), s[..k]) && Here(p, s[k..])
  }

  lemma HereFound(p: Pattern, text: string, i: nat)
    requires i <= |text|
    ensures Here(p, text[i..]) <==> Found(p, text, i)
  {
    if Here(p, text[i..]) {
      var j :| 0 <= j <= |text[i..]| && Language(p.items, text[i..][..j]) && (p.end ==> j == |text[i..]|);
      assert text[i..][..j] == text[i..i + j];
    }
    if Found(p, text, i) {
      var j :| i <= j <= |text| && Language(p.items, text[i..j]) && (p.end ==> j == |text|);
      assert text[i..][..j - i] == text[i..j];
    }
  }

  // ----- the matcher

  method Match(re: CString, text: CString) returns (r: bool)
    ensures r <==> Matches(re, text)
  {
    if At(re, 0) == '^' {
      r := MatchHere(re[1..], text);
      assert text[0..] == text;
      HereFound(Parse(re[1..]), text, 0);
      return;
    }
    var t := 0;
    while true
      invariant 0 <= t <= |text|
      invariant forall i :: 0 <= i < t ==> !Found(Parse(re), text, i)
      decreases |text| - t
    {
      var m := MatchHere(re, text[t..]);
      HereFound(Parse(re), text, t);
      if m {
        return true;
      }
      if At(text, t) == '\0' {
        return false;
      }
      t := t + 1;
    }
  }

  /** matchhere: `re` at the start of `text`. */
  method MatchHere(re: CString, text: CString) returns (r: bool)
    ensures r <==> Here(Parse(re), text)
    decreases |re|, 0
  {
    hide Here;
    if At(re, 0) == '\0' {
      HereEmpty(text);
      return true;
    }
    if At(re, 1) == '*' {
      var p := Parse(re[2..]);
      assert Parse(re) == Pattern([Many(re[0])] + p.items, p.end);
      HereMany(re[0], p, text);
      r := MatchStar(re[0], re[2..], text);
      return;
    }
    if At(re, 0) == '$' && At(re, 1) == '\0' {
      assert re == "$";
      HereEnd(text);
      return At(text, 0) == '\0';
    }
    HereOne(re[0], Parse(re[1..]), text);
    if At(text, 0) != '\0' && (At(re, 0) == '.' || At(re, 0) == At(text, 0)) {
      r := MatchHere(re[1..], text[1..]);
      return;
    }
    return false;
  }

  /** matchstar: any run of `c`, then `re`, at the start of `text`. */
  method MatchStar(c: char, re: CString, text: CString) returns (r: bool)
    ensures r <==> Star(c, Parse(re), text)
    decreases |re|, 1
  {
    hide Here;
    var t := 0;
    while true
      invariant 0 <= t <= |text| && Denotes(Many(c), text[..t])
      invariant forall k :: 0 <= k < t ==> !StarAt(c, Parse(re), text, k)
      decreases |text| - t
    {
      var m := MatchHere(re, text[t..]);
      assert m <==> StarAt(c, Parse(re), text, t);
      if m {
        return true;
      }
      if At(text, t) == '\0' || !(At(text, t) == c || c == '.') {
        RunEnds(c, Parse(re), text, t);
        return false;
      }
      t := t + 1;
    }
  }

  /** No run goes past a character that does not fit. */
  lemma RunEnds(c: char, p: Pattern, text: string, t: nat)
    requires t <= |text| && (t < |text| ==> !Fits(c, text[t]))
    ensures forall k :: t < k <= |text| ==> !StarAt(c, p, text, k)
  {
    forall k | t < k <= |text| ensures !StarAt(c, p, text, k) {
      assert text[..k][t] == text[t];
    }
  }
}
