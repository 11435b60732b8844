/**
  What the tokens of a command line are, without the tokenizer: a line is its tokens with
  gaps of white space around them, and gettoken finds exactly those tokens.
  */
module ShellLexing {
  import opened ShellGrammar

  /** Tab, line feed, vertical tab, carriage return, space. */
  predicate White(c: char) { c as int == 9 || c as int == 10 || c as int == 11 || c as int == 13 || c as int == 32 }

  predicate Operator(c: char) { c == '<' || c == '|' || c == '>' || c == '&' || c == ';' || c == '(' || c == ')' }

  ghost predicate Gap(s: string) { forall i :: 0 <= i < |s| ==> White(s[i]) }

  /** A word is any run of other characters; the operators are tokens, and so is `>>`. */
  ghost predicate GoodToken(t: Token) {
    match t
    case Word(w) => w != "" && forall i :: 0 <= i < |w| ==> !White(w[i]) && !Operator(w[i])
    case Sym(c) => c == '+' || Operator(c)
  }

  /** Written without a gap, the two tokens would run together. */
  predicate Merge(t: Token, u: Token) {
    (t.Word? && u.Word?) || (t == Sym('>') && (u == Sym('>') || u == Sym('+')))
  }

  /** The tokens with a gap before each and one at the end. */
  function Spaced(ts: seq<Token>, gaps: seq<string>): (s: string)
    requires |gaps| == |ts| + 1
    decreases |ts|
  {
    if ts == [] then gaps[0] else gaps[0] + TokenText(ts[0]) + Spaced(ts[1..], gaps[1..])
  }

  ghost predicate Spacing(ts: seq<Token>, gaps: seq<string>) {
    && |gaps| == |ts| + 1
    && (forall i :: 0 <= i < |gaps| ==> Gap(gaps[i]))
    && (forall i :: 0 <= i < |ts| ==> GoodToken(ts[i]))
    && (forall i :: 0 <= i < |ts| - 1 && Merge(ts[i], ts[i + 1]) ==> gaps[i + 1] != "")
  }

  lemma SameClasses(c: char)
    ensures Blank(c) <==> White(c)
    ensures Symbol(c) <==> Operator(c)
  {
    assert " \t\r\n\U{000B}" == [' ', '\t', '\r', '\n', '\U{000B}'];
    assert "<|>&;()" == ['<', '|', '>', '&', ';', '(', ')'];
  }

  lemma {:induction false} SkipGap(gap: string, s: string)
    requires Gap(gap)
    ensures Lex(gap + s) == Lex(s)
    decreases |gap|
  {
    if gap == "" {
      assert gap + s == s;
    } else {
      SameClasses(gap[0]);
      assert (gap + s)[0] == gap[0] && (gap + s)[1..] == gap[1..] + s;
      SkipGap(gap[1..], s);
    }
  }

  /** What can follow a token without running into it. */
  ghost predicate Follows(t: Token, s: string) {
    && (t.Word? && s != "" ==> White(s[0]) || Operator(s[0]))
    && (t == Sym('>') && s != "" ==> s[0] != '>')
  }

  lemma TokenFirst(t: Token, s: string)
    requires GoodToken(t) && Follows(t, s)
    ensures Lex(TokenText(t) + s) == [t] + Lex(s)
  {
    var x, n := TokenText(t) + s, |TokenText(t)|;
    assert n > 0 && x[0] == TokenText(t)[0];
    assert x[n..] == s && x[..n] == TokenText(t);
    FirstIs(t, s);
  }

  lemma FirstIs(t: Token, s: string)
    requires GoodToken(t) && Follows(t, s)
    ensures var x := TokenText(t) + s; x != "" && !Blank(x[0]) && TokenLen(x) == |TokenText(t)| && TokenAt(x) == t
  {
    var x, n := TokenText(t) + s, |TokenText(t)|;
    assert x[0] == TokenText(t)[0] && (s != "" ==> x[n] == s[0]);
    SameClasses(x[0]);
    match t
    case Word(w) =>
      WordFirstIs(w, s);
      assert x[..n] == w;
    case Sym(c) =>
      if c == '+' {
        assert x[..2] == ">>";
      } else {
        assert ">>"[0] == '>' == ">>"[1];
      }
  }

  lemma WordFirstIs(w: string, s: string)
    requires GoodToken(Word(w)) && Follows(Word(w), s)
    ensures WordLen(w + s) == |w| && PlainChar(w[0]) && !(">>" <= w + s)
  {
    var x := w + s;
    assert forall i :: 0 <= i < |w| ==> x[i] == w[i];
    forall i | 0 <= i < |w| ensures PlainChar(x[i]) {
      SameClasses(w[i]);
    }
    if s != "" {
      assert x[|w|] == s[0];
      SameClasses(s[0]);
    }
    assert x[0] == w[0] != ">>"[0];
  }

  lemma SpacedFollows(t: Token, ts: seq<Token>, gaps: seq<string>)
    requires Spacing(ts, gaps) && (ts != [] && Merge(t, ts[0]) ==> gaps[0] != "")
    ensures Follows(t, Spaced(ts, gaps))
  {
    var s := Spaced(ts, gaps);
    if gaps[0] != "" {
      assert s[0] == gaps[0][0] && White(gaps[0][0]);
    } else if ts != [] {
      assert GoodToken(ts[0]);
      assert s == TokenText(ts[0]) + Spaced(ts[1..], gaps[1..]);
    }
  }

  lemma SpacingTail(ts: seq<Token>, gaps: seq<string>)
    requires Spacing(ts, gaps) && ts != []
    ensures Spacing(ts[1..], gaps[1..])
  {
    forall i | 0 <= i < |ts[1..]| - 1 && Merge(ts[1..][i], ts[1..][i + 1]) ensures gaps[1..][i + 1] != "" {
      assert Merge(ts[i + 1], ts[i + 1 + 1]);
    }
  }

  lemma {:induction false} LexSpaced(ts: seq<Token>, gaps: seq<string>)
    requires Spacing(ts, gaps)
    ensures Lex(Spaced(ts, gaps)) == ts
    decreases |ts|
  {
    hide TokenText, GoodToken, Merge, Follows;
    if ts == [] {
      SkipGap(gaps[0], "");
      assert gaps[0] + "" == gaps[0];
    } else {
      var more := Spaced(ts[1..], gaps[1..]);
      assert Spaced(ts, gaps) == gaps[0] + (TokenText(ts[0]) + more);
      SkipGap(gaps[0], TokenText(ts[0]) + more);
      SpacingTail(ts, gaps);
      assert |ts| > 1 ==> ts[1..][0] == ts[1] && (Merge(ts[0], ts[0 + 1]) ==> gaps[0 + 1] != "");
      SpacedFollows(ts[0], ts[1..], gaps[1..]);
      TokenFirst(ts[0], more);
      LexSpaced(ts[1..], gaps[1..]);
    }
  }

  /** Nothing of a line is lost: it is its tokens with gaps. */
  lemma {:induction false} LexGaps(s: string) returns (gaps: seq<string>)
    ensures Spacing(Lex(s), gaps) && s == Spaced(Lex(s), gaps)
    decreases |s|
  {
    if s == "" {
      gaps := [""];
    } else if Blank(s[0]) {
      SameClasses(s[0]);
      var more := LexGaps(s[1..]);
      gaps := [[s[0]] + more[0]] + more[1..];
      MoreGap(s, Lex(s[1..]), more, gaps);
    } else {
      var t, n := TokenAt(s), TokenLen(s);
      var more := LexGaps(s[n..]);
      gaps := [""] + more;
      TokenOf(s);
      MoreToken(s, t, s[n..], Lex(s[n..]), more);
    }
  }

  lemma MoreGap(s: string, ts: seq<Token>, gaps: seq<string>, gaps': seq<string>)
    requires s != "" && White(s[0]) && Spacing(ts, gaps) && s[1..] == Spaced(ts, gaps) && gaps' == [[s[0]] + gaps[0]] + gaps[1..]
    ensures Spacing(ts, gaps') && s == Spaced(ts, gaps')
  {
    hide GoodToken, TokenText, Merge;
    assert gaps'[1..] == gaps[1..];
    assert s == [s[0]] + s[1..];
    if ts != [] {
      var more := TokenText(ts[0]) + Spaced(ts[1..], gaps[1..]);
      assert [s[0]] + (gaps[0] + more) == gaps'[0] + more;
      assert Spaced(ts, gaps) == gaps[0] + more && Spaced(ts, gaps') == gaps'[0] + more;
    }
    forall i | 0 <= i < |gaps'| ensures Gap(gaps'[i]) {
      assert Gap(gaps[i]);
    }
    forall i | 0 <= i < |ts| - 1 && Merge(ts[i], ts[i + 1]) ensures gaps'[i + 1] != "" {
      assert gaps'[i + 1] == gaps[i + 1];
    }
  }

  /** The token at the front of a text is a good one, and what follows does not belong to it. */
  lemma TokenOf(s: string)
    requires s != "" && !Blank(s[0])
    ensures GoodToken(TokenAt(s)) && s == TokenText(TokenAt(s)) + s[TokenLen(s)..] && Follows(TokenAt(s), s[TokenLen(s)..])
  {
    var n := TokenLen(s);
    SameClasses(s[0]);
    assert s == s[..n] + s[n..];
    if ">>" <= s {
    } else if Symbol(s[0]) {
      assert s[..1] == [s[0]];
      assert |s| > 1 ==> s[..2] == [s[0], s[1]];
    } else {
      forall i | 0 <= i < n ensures !White(s[i]) && !Operator(s[i]) {
        SameClasses(s[i]);
      }
      if n < |s| {
        SameClasses(s[n]);
      }
    }
  }

  lemma MoreToken(s: string, t: Token, rest: string, ts: seq<Token>, gaps: seq<string>)
    requires GoodToken(t) && s == TokenText(t) + rest && Follows(t, rest) && Spacing(ts, gaps) && rest == Spaced(ts, gaps)
    ensures Spacing([t] + ts, [""] + gaps) && s == Spaced([t] + ts, [""] + gaps)
  {
    var us, gs := [t] + ts, [""] + gaps;
    assert us[1..] == ts && gs[1..] == gaps;
    assert "" + TokenText(t) + rest == s;
    forall i | 0 <= i < |us| - 1 && Merge(us[i], us[i + 1]) ensures gs[i + 1] != "" {
      if i == 0 {
        RunsTogether(t, ts, gaps);
      } else {
        assert Merge(ts[i - 1], ts[i - 1 + 1]);
      }
    }
    forall i | 0 <= i < |gs| ensures Gap(gs[i]) {
      assert i > 0 ==> gs[i] == gaps[i - 1];
    }
  }

  lemma RunsTogether(t: Token, ts: seq<Token>, gaps: seq<string>)
    requires ts != [] && Spacing(ts, gaps) && Follows(t, Spaced(ts, gaps)) && Merge(t, ts[0])
    ensures gaps[0] != ""
  {
    var s := Spaced(ts, gaps);
    assert GoodToken(ts[0]);
    assert s == gaps[0] + (TokenText(ts[0]) + Spaced(ts[1..], gaps[1..]));
    assert s[|gaps[0]|] == TokenText(ts[0])[0];
  }

  /** The tokens of a line are exactly those it can be spaced out from. */
  lemma TokensAreExact(s: string, ts: seq<Token>)
    ensures Lex(s) == ts <==> exists gaps :: Spacing(ts, gaps) && s == Spaced(ts, gaps)
  {
    if Lex(s) == ts {
      var gaps := LexGaps(s);
    }
    forall gaps | Spacing(ts, gaps) && s == Spaced(ts, gaps) ensures Lex(s) == ts {
      LexSpaced(ts, gaps);
    }
  }
}
