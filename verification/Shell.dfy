/**
  The shell's parser as it runs: a cursor over the command line, words as pairs of
  positions in it, and nulterminate, which ends each word in the buffer itself.
  */
module Shell {
  import opened CStrings
  import opened ShellGrammar

  /** A word of the command line: where it starts and where it ends. */
  datatype Span = Span(q: nat, eq: nat)

  datatype Outcome<T> = Done(v: T) | Panic(why: Error)

  /** A span is a maximal run of plain characters from its start. */
  ghost predicate SpanOk(s: string, sp: Span) {
    && sp.q < sp.eq <= |s|
    && (forall i :: sp.q <= i < sp.eq ==> PlainChar(s[i]))
    && (sp.eq < |s| ==> !PlainChar(s[sp.eq]))
  }

  ghost function Sub(s: string, sp: Span): (w: string) {
    if sp.q <= sp.eq <= |s| then s[sp.q..sp.eq] else ""
  }

  // ----- a command over spans, and the command over strings it stands for

  ghost function WordsOf(argv: seq<Span>, s: string): (r: seq<string>)
    ensures |r| == |argv|
  {
    seq(|argv|, i requires 0 <= i < |argv| => Sub(s, argv[i]))
  }

  ghost function RedirOf(r: Redirection<Span>, s: string): (t: Redirection<string>) {
    Redirection(Sub(s, r.file), r.mode, r.fd)
  }

  ghost function RedirsOf(rs: seq<Redirection<Span>>, s: string): (t: seq<Redirection<string>>)
    ensures |t| == |rs|
  {
    seq(|rs|, i requires 0 <= i < |rs| => RedirOf(rs[i], s))
  }

  ghost function Resolve(c: Cmd<Span>, s: string): (r: Cmd<string>) {
    match c
    case Exec(argv) => Exec(WordsOf(argv, s))
    case Redir(b, r) => Redir(Resolve(b, s), RedirOf(r, s))
    case Pipe(l, r) => Pipe(Resolve(l, s), Resolve(r, s))
    case List(l, r) => List(Resolve(l, s), Resolve(r, s))
    case Back(b) => Back(Resolve(b, s))
  }

  ghost predicate ArgsOk(argv: seq<Span>, s: string) {
    forall i :: 0 <= i < |argv| ==> SpanOk(s, argv[i])
  }

  ghost predicate RedirsOk(rs: seq<Redirection<Span>>, s: string) {
    forall i :: 0 <= i < |rs| ==> SpanOk(s, rs[i].file)
  }

  ghost predicate SpansOk(c: Cmd<Span>, s: string) {
    match c
    case Exec(argv) => ArgsOk(argv, s)
    case Redir(b, r) => SpansOk(b, s) && SpanOk(s, r.file)
    case Pipe(l, r) => SpansOk(l, s) && SpansOk(r, s)
    case List(l, r) => SpansOk(l, s) && SpansOk(r, s)
    case Back(b) => SpansOk(b, s)
  }

  lemma {:induction false} ResolveWrap(c: Cmd<Span>, rs: seq<Redirection<Span>>, s: string)
    requires SpansOk(c, s) && RedirsOk(rs, s)
    ensures Resolve(Wrap(c, rs), s) == Wrap(Resolve(c, s), RedirsOf(rs, s)) && SpansOk(Wrap(c, rs), s)
    decreases |rs|
  {
    if rs != [] {
      var n := |rs| - 1;
      ResolveWrap(c, rs[..n], s);
      assert RedirsOf(rs, s)[..n] == RedirsOf(rs[..n], s);
    }
  }

  // ----- tokens at the cursor

  /** What gettoken returned for a token. */
  ghost predicate TokenIs(s: string, ret: char, sp: Span, t: Token) {
    match t
    case Word(w) => ret == 'a' && SpanOk(s, sp) && Sub(s, sp) == w
    case Sym(c) => ret == c && (c == '+' || Symbol(c))
  }

  lemma LexBlank(s: string, i: nat)
    requires i < |s| && Blank(s[i])
    ensures Lex(s[i..]) == Lex(s[i + 1..])
  {
    assert s[i..][1..] == s[i + 1..];
  }

  lemma LexToken(s: string, i: nat)
    requires i < |s| && !Blank(s[i])
    ensures var n := TokenLen(s[i..]);
      Lex(s[i..]) == [TokenAt(s[i..])] + Lex(s[i + n..])
  {
    assert s[i..][TokenLen(s[i..])..] == s[i + TokenLen(s[i..])..];
  }

  /** Over the blanks. */
  method Skip(s: CString, ps: nat) returns (p: nat)
    requires ps <= |s|
    ensures ps <= p <= |s| && (p < |s| ==> !Blank(s[p])) && Lex(s[p..]) == Lex(s[ps..])
  {
    hide Lex;
    p := ps;
    while p < |s| && Blank(s[p])
      invariant ps <= p <= |s| && Lex(s[p..]) == Lex(s[ps..])
    {
      LexBlank(s, p);
      p := p + 1;
    }
  }

  method GetToken(s: CString, ps: nat) returns (ret: char, sp: Span, p: nat)
    requires ps <= |s|
    ensures ps <= p <= |s|
    ensures ret == '\0' <==> Lex(s[ps..]) == []
    ensures ret != '\0' ==> ps < p && Lex(s[p..]) == Lex(s[ps..])[1..] && TokenIs(s, ret, sp, Lex(s[ps..])[0])
  {
    hide Lex;
    var q := Skip(s, ps);
    p := q;
    ret := At(s, q);
    if ret == '\0' {
      LexEnd(s);
      return ret, Span(q, q), q;
    }
    LexToken(s, q);
    if Symbol(ret) {
      p := p + 1;
      if ret == '>' && At(s, p) == '>' {
        ret := '+';
        p := p + 1;
      }
      TwoChars(s, q);
    } else {
      ret := 'a';
      ghost var n := WordLen(s[q..]);
      while p < |s| && !Blank(s[p]) && !Symbol(s[p])
        invariant q <= p <= q + n
      {
        assert s[q..][p - q] == s[p];
        p := p + 1;
      }
      WordHere(s, q, p);
    }
    sp := Span(q, p);
    p := Skip(s, p);
  }

  lemma LexEnd(s: string)
    ensures Lex(s[|s|..]) == []
  {
  }

  lemma TwoChars(s: string, q: nat)
    requires q < |s|
    ensures ">>" <= s[q..] <==> s[q] == '>' && q + 1 < |s| && s[q + 1] == '>'
  {
    var u := s[q..];
    assert u[0] == s[q];
    if q + 1 < |s| {
      assert u[1] == s[q + 1];
    }
  }

  lemma WordHere(s: string, q: nat, p: nat)
    requires q < |s| && PlainChar(s[q]) && q <= p <= q + WordLen(s[q..]) && (p == |s| || !PlainChar(s[p]))
    ensures p == q + WordLen(s[q..]) && SpanOk(s, Span(q, p)) && Sub(s, Span(q, p)) == s[q..][..p - q]
    ensures !(">>" <= s[q..]) && !Symbol(s[q..][0])
  {
    var n := WordLen(s[q..]);
    assert forall i :: q <= i < q + n ==> s[i] == s[q..][i - q];
    TwoChars(s, q);
  }

  method Peek(s: CString, ps: nat, toks: string) returns (b: bool, p: nat)
    requires ps <= |s| && forall c :: c in toks ==> Symbol(c)
    ensures ps <= p <= |s| && Lex(s[p..]) == Lex(s[ps..])
    ensures p == |s| <==> Lex(s[ps..]) == []
    ensures b <==> Starts(Lex(s[ps..]), toks)
  {
    hide Lex;
    p := Skip(s, ps);
    if p < |s| {
      LexToken(s, p);
      FirstChar(s, p);
    } else {
      LexEnd(s);
    }
    b := At(s, p) != '\0' && At(s, p) in toks;
  }

  lemma FirstChar(s: string, p: nat)
    requires p < |s| && !Blank(s[p])
    ensures match TokenAt(s[p..]) { case Word(_) => !Symbol(s[p]) case Sym(c) => (c == s[p] && Symbol(c)) || (c == '+' && s[p] == '>') }
  {
    TwoChars(s, p);
  }

  // ----- the parser

  /** The result of a parsing method against the grammar's. */
  ghost predicate Agrees(s: string, spec: Result, r: Outcome<Cmd<Span>>, p: nat)
    requires p <= |s|
  {
    match r
    case Done(c) => spec == Ok(Resolve(c, s), Lex(s[p..])) && SpansOk(c, s)
    case Panic(e) => spec == Err(e)
  }

  method ParseRedirs(s: CString, rs0: seq<Redirection<Span>>, ps: nat) returns (r: Outcome<seq<Redirection<Span>>>, p: nat)
    requires ps <= |s| && RedirsOk(rs0, s)
    ensures ps <= p <= |s|
    ensures match r
      case Done(rs) => RedirsOk(rs, s) && Redirs(RedirsOf(rs0, s), Lex(s[ps..])) == RedirOk(RedirsOf(rs, s), Lex(s[p..]))
      case Panic(e) => Redirs(RedirsOf(rs0, s), Lex(s[ps..])) == RedirErr(e)
  {
    hide Lex, Sub, SpanOk;
    var rs := rs0;
    p := ps;
    while true
      invariant ps <= p <= |s| && RedirsOk(rs, s)
      invariant Redirs(RedirsOf(rs0, s), Lex(s[ps..])) == Redirs(RedirsOf(rs, s), Lex(s[p..]))
      decreases |s| - p
    {
      ghost var t := Lex(s[p..]);
      var more, p1 := Peek(s, p, "<>");
      if !more {
        return Done(rs), p1;
      }
      var tok, _, p2 := GetToken(s, p1);
      assert Lex(s[p2..]) == t[1..];
      var kind, sp, p3 := GetToken(s, p2);
      if kind != 'a' {
        assert |t| < 2 || !t[1].Word?;
        return Panic(MissingFile), p3;
      }
      assert t[1] == t[1..][0] && t[1].Word? && t[2..] == t[1..][1..];
      var rd := RedirectionOf(tok, sp);
      assert RedirOf(rd, s) == RedirectionOf(t[0].c, t[1].w);
      assert RedirsOf(rs + [rd], s) == RedirsOf(rs, s) + [RedirOf(rd, s)];
      rs := rs + [rd];
      p := p3;
    }
  }

  method ParseLine(s: CString, ps: nat) returns (r: Outcome<Cmd<Span>>, p: nat)
    requires ps <= |s|
    ensures ps <= p <= |s| && Agrees(s, Line(Lex(s[ps..])), r, p)
    decreases |s| - ps, 3
  {
    hide Lex, PipeLine;
    r, p := ParsePipe(s, ps);
    if r.Panic? {
      return;
    }
    var cmd := r.v;
    while true
      invariant ps <= p <= |s| && SpansOk(cmd, s)
      invariant Line(Lex(s[ps..])) == LineTail(Resolve(cmd, s), Lex(s[p..]))
      decreases |s| - p
    {
      var amp, p1 := Peek(s, p, "&");
      p := p1;
      if !amp {
        break;
      }
      var _, _, p2 := GetToken(s, p);
      p := p2;
      cmd := Back(cmd);
    }
    var semi, p3 := Peek(s, p, ";");
    p := p3;
    if semi {
      var _, _, p4 := GetToken(s, p);
      r, p := ParseLine(s, p4);
      if r.Panic? {
        return;
      }
      cmd := List(cmd, r.v);
    }
    return Done(cmd), p;
  }

  method ParsePipe(s: CString, ps: nat) returns (r: Outcome<Cmd<Span>>, p: nat)
    requires ps <= |s|
    ensures ps <= p <= |s| && Agrees(s, PipeLine(Lex(s[ps..])), r, p)
    decreases |s| - ps, 2
  {
    hide Lex, Command;
    r, p := ParseExec(s, ps);
    if r.Panic? {
      return;
    }
    var cmd := r.v;
    var bar, p1 := Peek(s, p, "|");
    p := p1;
    if bar {
      var _, _, p2 := GetToken(s, p);
      r, p := ParsePipe(s, p2);
      if r.Panic? {
        return;
      }
      cmd := Pipe(cmd, r.v);
    }
    return Done(cmd), p;
  }

  method ParseBlock(s: CString, ps: nat) returns (r: Outcome<Cmd<Span>>, p: nat)
    requires ps <= |s| && Starts(Lex(s[ps..]), "(")
    ensures ps <= p <= |s| && Agrees(s, Block(Lex(s[ps..])), r, p)
    decreases |s| - ps, 0
  {
    hide Lex, Line;
    var open, p1 := Peek(s, ps, "(");
    assert open;    // the panic is unreachable
    var _, _, p2 := GetToken(s, p1);
    r, p := ParseLine(s, p2);
    if r.Panic? {
      return;
    }
    var cmd := r.v;
    var close, p3 := Peek(s, p, ")");
    if !close {
      return Panic(MissingParen), p3;
    }
    var _, _, p4 := GetToken(s, p3);
    var rr, p5 := ParseRedirs(s, [], p4);
    assert RedirsOf([], s) == [];
    if rr.Panic? {
      return Panic(rr.why), p5;
    }
    ResolveWrap(cmd, rr.v, s);
    return Done(Wrap(cmd, rr.v)), p5;
  }

  method ParseExec(s: CString, ps: nat) returns (r: Outcome<Cmd<Span>>, p: nat)
    requires ps <= |s|
    ensures ps <= p <= |s| && Agrees(s, Command(Lex(s[ps..])), r, p)
    decreases |s| - ps, 1
  {
    hide Lex, Block, SpanOk, Sub;
    var paren, p0 := Peek(s, ps, "(");
    if paren {
      r, p := ParseBlock(s, p0);
      return;
    }
    var argv: seq<Span> := [];
    var rr, p1 := ParseRedirs(s, [], p0);
    assert RedirsOf([], s) == [] && WordsOf([], s) == [];
    p := p1;
    if rr.Panic? {
      return Panic(rr.why), p;
    }
    var rs := rr.v;
    while true
      invariant ps <= p <= |s| && ArgsOk(argv, s) && RedirsOk(rs, s) && |argv| < MAXARGS
      invariant Command(Lex(s[ps..])) == Args(WordsOf(argv, s), RedirsOf(rs, s), Lex(s[p..]))
      decreases |s| - p
    {
      ghost var t := Lex(s[p..]);
      var stop, p2 := Peek(s, p, "|)&;");
      p := p2;
      if stop {
        break;
      }
      var tok, sp, p3 := GetToken(s, p);
      p := p3;
      if tok == '\0' {
        break;
      }
      if tok != 'a' {
        return Panic(Syntax), p;
      }
      assert t[0].Word?;
      assert WordsOf(argv + [sp], s) == WordsOf(argv, s) + [t[0].w];
      argv := argv + [sp];
      if |argv| >= MAXARGS {
        return Panic(TooManyArgs), p;
      }
      var rr', p4 := ParseRedirs(s, rs, p);
      p := p4;
      if rr'.Panic? {
        return Panic(rr'.why), p;
      }
      rs := rr'.v;
    }
    ResolveWrap(Exec(argv), rs, s);
    return Done(Wrap(Exec(argv), rs)), p;
  }

  // ----- nulterminate

  /** The buffer holds the line, but for NULs written over characters that are in no word. */
  ghost predicate Marked(b: seq<char>, s: string) {
    && |s| < |b| && b[|s|] == '\0'
    && forall i :: 0 <= i < |s| ==> b[i] == s[i] || (b[i] == '\0' && !PlainChar(s[i]))
  }

  ghost predicate EndedAt(b: seq<char>, sp: Span) {
    sp.eq < |b| && b[sp.eq] == '\0'
  }

  /** Every word of the command ends with a NUL. */
  ghost predicate Ended(c: Cmd<Span>, b: seq<char>) {
    match c
    case Exec(argv) => forall i :: 0 <= i < |argv| ==> EndedAt(b, argv[i])
    case Redir(d, r) => Ended(d, b) && EndedAt(b, r.file)
    case Pipe(l, r) => Ended(l, b) && Ended(r, b)
    case List(l, r) => Ended(l, b) && Ended(r, b)
    case Back(d) => Ended(d, b)
  }

  ghost predicate KeepsNuls(b: seq<char>, b': seq<char>) {
    |b'| == |b| && forall i :: 0 <= i < |b| ==> b[i] == '\0' ==> b'[i] == '\0'
  }

  lemma {:induction false} StaysEnded(c: Cmd<Span>, b: seq<char>, b': seq<char>)
    requires Ended(c, b) && KeepsNuls(b, b')
    ensures Ended(c, b')
    decreases c
  {
    match c
    case Exec(argv) =>
      assert forall i :: 0 <= i < |argv| ==> EndedAt(b, argv[i]);
    case Redir(d, _) => StaysEnded(d, b, b');
    case Pipe(l, r) =>
      StaysEnded(l, b, b');
      StaysEnded(r, b, b');
    case List(l, r) =>
      StaysEnded(l, b, b');
      StaysEnded(r, b, b');
    case Back(d) => StaysEnded(d, b, b');
  }

  method Nulterminate(c: Cmd<Span>, buf: array<char>, ghost s: string)
    requires SpansOk(c, s) && Marked(buf[..], s)
    modifies buf
    ensures Marked(buf[..], s) && Ended(c, buf[..]) && KeepsNuls(old(buf[..]), buf[..])
    decreases c
  {
    match c
    case Exec(argv) =>
      var i := 0;
      while i < |argv|
        invariant 0 <= i <= |argv| && Marked(buf[..], s) && KeepsNuls(old(buf[..]), buf[..])
        invariant forall j :: 0 <= j < i ==> EndedAt(buf[..], argv[j])
      {
        assert SpanOk(s, argv[i]);
        buf[argv[i].eq] := '\0';
        i := i + 1;
      }
    case Redir(d, r) =>
      Nulterminate(d, buf, s);
      ghost var b := buf[..];
      buf[r.file.eq] := '\0';
      StaysEnded(d, b, buf[..]);
    case Pipe(l, r) =>
      Nulterminate(l, buf, s);
      ghost var b := buf[..];
      Nulterminate(r, buf, s);
      StaysEnded(l, b, buf[..]);
    case List(l, r) =>
      Nulterminate(l, buf, s);
      ghost var b := buf[..];
      Nulterminate(r, buf, s);
      StaysEnded(l, b, buf[..]);
    case Back(d) =>
      Nulterminate(d, buf, s);
  }

  /** The C string at the start of a word. */
  ghost function StringAt(b: seq<char>, sp: Span): (w: string) {
    if sp.q <= |b| then CStr(b[sp.q..]) else ""
  }

  /** The command as runcmd sees it: each word is the C string at its start. */
  ghost function Strings(c: Cmd<Span>, b: seq<char>): (r: Cmd<string>) {
    match c
    case Exec(argv) => Exec(seq(|argv|, i requires 0 <= i < |argv| => StringAt(b, argv[i])))
    case Redir(d, r) => Redir(Strings(d, b), Redirection(StringAt(b, r.file), r.mode, r.fd))
    case Pipe(l, r) => Pipe(Strings(l, b), Strings(r, b))
    case List(l, r) => List(Strings(l, b), Strings(r, b))
    case Back(d) => Back(Strings(d, b))
  }

  /** A word that ends with a NUL reads as exactly that word: no other NUL falls inside it. */
  lemma WordReads(b: seq<char>, s: string, sp: Span)
    requires '\0' !in s && Marked(b, s) && SpanOk(s, sp) && EndedAt(b, sp)
    ensures StringAt(b, sp) == Sub(s, sp)
  {
    var u, w := b[sp.q..], s[sp.q..sp.eq];
    assert u[|w|] == b[sp.eq];
    forall i | 0 <= i < |w| ensures u[i] == w[i] {
      assert u[i] == b[sp.q + i] && w[i] == s[sp.q + i] && PlainChar(s[sp.q + i]);
    }
    assert u[..|w|] == w;
    assert '\0' !in w;
    CStrIs(u, w);
  }

  lemma {:induction false} StringsRead(c: Cmd<Span>, b: seq<char>, s: string)
    requires '\0' !in s && Marked(b, s) && SpansOk(c, s) && Ended(c, b)
    ensures Strings(c, b) == Resolve(c, s)
    decreases c
  {
    hide Marked, SpanOk, StringAt, Sub;
    match c
    case Exec(argv) =>
      forall i | 0 <= i < |argv| ensures StringAt(b, argv[i]) == Sub(s, argv[i]) {
        WordReads(b, s, argv[i]);
      }
    case Redir(d, r) =>
      StringsRead(d, b, s);
      WordReads(b, s, r.file);
    case Pipe(l, r) =>
      StringsRead(l, b, s);
      StringsRead(r, b, s);
    case List(l, r) =>
      StringsRead(l, b, s);
      StringsRead(r, b, s);
    case Back(d) => StringsRead(d, b, s);
  }

  /** parsecmd: the words of the result are read in the buffer itself, after nulterminate. */
  method ParseCmd(buf: array<char>) returns (r: Outcome<Cmd<Span>>)
    requires Len(buf[..]) < buf.Length
    modifies buf
    ensures match r
      case Done(c) => ParseText(old(CStr(buf[..]))) == Ok(Strings(c, buf[..]), [])
      case Panic(e) => ParseText(old(CStr(buf[..]))) == Err(e) && buf[..] == old(buf[..])
  {
    hide Lex, Line;
    var s: CString := CStr(buf[..]);
    assert s[0..] == s;
    var p;
    r, p := ParseLine(s, 0);
    if r.Panic? {
      return;
    }
    var cmd := r.v;
    var _, p1 := Peek(s, p, "");
    if p1 != |s| {
      return Panic(Leftovers);
    }
    Nulterminate(cmd, buf, s);
    StringsRead(cmd, buf[..], s);
    return Done(cmd);
  }
}
