/**
  The grammar of the shell: commands, their tokens, the parser as functions on a list of
  tokens, and a printer.  A word is a `string` here; in the shell itself it is a pair of
  pointers into the command line.
  */
module ShellGrammar {

  const MAXARGS: nat := 10
  const O_RDONLY := 0
  const O_WRONLY := 1
  const O_CREATE := 0x200

  datatype Cmd<W> =
    | Exec(argv: seq<W>)
    | Redir(cmd: Cmd<W>, to: Redirection<W>)
    | Pipe(left: Cmd<W>, right: Cmd<W>)
    | List(first: Cmd<W>, second: Cmd<W>)
    | Back(job: Cmd<W>)

  datatype Redirection<W> = Redirection(file: W, mode: nat, fd: nat)

  /** `>>` is Sym('+'). */
  datatype Token = Word(w: string) | Sym(c: char)

  datatype Error = MissingFile | MissingParen | Syntax | TooManyArgs | Leftovers
  datatype Result = Ok(cmd: Cmd<string>, rest: seq<Token>) | Err(why: Error)
  datatype RedirResult = RedirOk(rs: seq<Redirection<string>>, rest: seq<Token>) | RedirErr(why: Error)

  /** The next token is one of the symbols in `toks`; `>` stands for `>>` too. */
  predicate Starts(t: seq<Token>, toks: string) {
    t != [] && t[0].Sym? && (t[0].c in toks || (t[0].c == '+' && '>' in toks))
  }

  /** The redirections, the first of them innermost. */
  function Wrap<W>(c: Cmd<W>, rs: seq<Redirection<W>>): (r: Cmd<W>)
    decreases |rs|
  {
    if rs == [] then c else Redir(Wrap(c, rs[..|rs| - 1]), rs[|rs| - 1])
  }

  function RedirectionOf<W>(c: char, file: W): (r: Redirection<W>) {
    if c == '<' then Redirection(file, O_RDONLY, 0) else Redirection(file, O_WRONLY + O_CREATE, 1)
  }

  // ----- tokens in a text

  predicate Blank(c: char) { c in " \t\r\n\U{000B}" }
  predicate Symbol(c: char) { c in "<|>&;()" }
  predicate PlainChar(c: char) { !Blank(c) && !Symbol(c) }

  ghost predicate PlainWord(w: string) {
    w != "" && '\0' !in w && forall i :: 0 <= i < |w| ==> PlainChar(w[i])
  }

  /** The run of plain characters at the start. */
  function WordLen(s: string): (n: nat)
    ensures n <= |s| && (n < |s| ==> !PlainChar(s[n]))
    ensures forall i :: 0 <= i < n ==> PlainChar(s[i])
    ensures s != "" && PlainChar(s[0]) ==> n > 0
  {
    if s == "" || !PlainChar(s[0]) then 0 else 1 + WordLen(s[1..])
  }

  function TokenLen(s: string): (n: nat)
    requires s != "" && !Blank(s[0])
    ensures 0 < n <= |s|
  {
    if ">>" <= s then 2 else if Symbol(s[0]) then 1 else WordLen(s)
  }

  function TokenAt(s: string): (t: Token)
    requires s != "" && !Blank(s[0])
  {
    if ">>" <= s then Sym('+') else if Symbol(s[0]) then Sym(s[0]) else Word(s[..WordLen(s)])
  }

  function Lex(s: string): (t: seq<Token>) {
    if s == "" then []
    else if Blank(s[0]) then Lex(s[1..])
    else [TokenAt(s)] + Lex(s[TokenLen(s)..])
  }

  function TokenText(t: Token): (s: string) {
    match t
    case Word(w) => w
    case Sym(c) => if c == '+' then ">>" else [c]
  }

  /** The tokens, a blank after each. */
  function Text(t: seq<Token>): (s: string) {
    if t == [] then "" else TokenText(t[0]) + " " + Text(t[1..])
  }

  /** parsecmd up to nulterminate. */
  function ParseText(s: string): (r: Result)
    ensures r.Ok? ==> r.rest == []
  {
    var r := Line(Lex(s));
    if r.Err? || r.rest == [] then r else Err(Leftovers)
  }

  // ----- the parser

  function Redirs(rs: seq<Redirection<string>>, t: seq<Token>): (r: RedirResult)
    ensures r.RedirOk? ==> |r.rest| <= |t| && !Starts(r.rest, "<>")
    decreases |t|
  {
    if !Starts(t, "<>") then RedirOk(rs, t)
    else if |t| < 2 || !t[1].Word? then RedirErr(MissingFile)
    else Redirs(rs + [RedirectionOf(t[0].c, t[1].w)], t[2..])
  }

  function Line(t: seq<Token>): (r: Result)
    ensures r.Ok? ==> |r.rest| <= |t|
    decreases |t|, 4
  {
    var p := PipeLine(t);
    if p.Err? then p else LineTail(p.cmd, p.rest)
  }

  function LineTail(c: Cmd<string>, t: seq<Token>): (r: Result)
    ensures r.Ok? ==> |r.rest| <= |t|
    decreases |t|, 3
  {
    if Starts(t, "&") then LineTail(Back(c), t[1..])
    else if Starts(t, ";") then
      var r := Line(t[1..]);
      if r.Err? then r else Ok(List(c, r.cmd), r.rest)
    else Ok(c, t)
  }

  function PipeLine(t: seq<Token>): (r: Result)
    ensures r.Ok? ==> |r.rest| <= |t|
    decreases |t|, 2
  {
    var e := Command(t);
    if e.Err? || !Starts(e.rest, "|") then e
    else
      var r := PipeLine(e.rest[1..]);
      if r.Err? then r else Ok(Pipe(e.cmd, r.cmd), r.rest)
  }

  function Command(t: seq<Token>): (r: Result)
    ensures r.Ok? ==> |r.rest| <= |t|
    decreases |t|, 1
  {
    if Starts(t, "(") then Block(t)
    else
      var rr := Redirs([], t);
      if rr.RedirErr? then Err(rr.why) else Args([], rr.rs, rr.rest)
  }

  function Block(t: seq<Token>): (r: Result)
    requires Starts(t, "(")
    ensures r.Ok? ==> |r.rest| <= |t|
    decreases |t|, 0
  {
    var l := Line(t[1..]);
    if l.Err? then l
    else if !Starts(l.rest, ")") then Err(MissingParen)
    else
      var rr := Redirs([], l.rest[1..]);
      if rr.RedirErr? then Err(rr.why) else Ok(Wrap(l.cmd, rr.rs), rr.rest)
  }

  /** The words of a command, each followed by redirections. */
  function Args(argv: seq<string>, rs: seq<Redirection<string>>, t: seq<Token>): (r: Result)
    ensures r.Ok? ==> |r.rest| <= |t|
    decreases |t|
  {
    if Starts(t, "|)&;") || t == [] then Ok(Wrap(Exec(argv), rs), t)
    else if !t[0].Word? then Err(Syntax)
    else if |argv| + 1 >= MAXARGS then Err(TooManyArgs)
    else
      var rr := Redirs(rs, t[1..]);
      if rr.RedirErr? then Err(rr.why) else Args(argv + [t[0].w], rr.rs, rr.rest)
  }

  // ----- the printer

  /** How tightly a command binds: the place in the grammar where it needs no parentheses. */
  function Level<W>(c: Cmd<W>): (n: nat) {
    match c
    case List(_, _) => 0
    case Back(_) => 1
    case Pipe(_, _) => 2
    case _ => 3
  }

  function Words(argv: seq<string>): (t: seq<Token>)
    ensures |t| == |argv|
  {
    seq(|argv|, i requires 0 <= i < |argv| => Word(argv[i]))
  }

  function RedirTokens(r: Redirection<string>): (t: seq<Token>) {
    [Sym(if r.fd == 0 then '<' else '>'), Word(r.file)]
  }

  function Body(c: Cmd<string>): (t: seq<Token>)
    decreases c, 0
  {
    match c
    case Exec(argv) => Words(argv)
    case Redir(b, r) => Print(3, b) + RedirTokens(r)
    case Pipe(l, r) => Print(3, l) + [Sym('|')] + Print(2, r)
    case List(l, r) => Print(1, l) + [Sym(';')] + Print(0, r)
    case Back(b) => Print(1, b) + [Sym('&')]
  }

  /** A command at a place that takes commands of a level or tighter. */
  function Print(level: nat, c: Cmd<string>): (t: seq<Token>)
    decreases c, 1
  {
    if level <= Level(c) then Body(c) else [Sym('(')] + Body(c) + [Sym(')')]
  }

  // ----- the commands the grammar can build

  ghost predicate BuildableRedir(r: Redirection<string>) {
    && PlainWord(r.file)
    && ((r.mode == O_RDONLY && r.fd == 0) || (r.mode == O_WRONLY + O_CREATE && r.fd == 1))
  }

  /** At most nine arguments in each command, only the two kinds of redirection, and only plain words. */
  ghost predicate Buildable(c: Cmd<string>) {
    match c
    case Exec(argv) => |argv| < MAXARGS && forall i :: 0 <= i < |argv| ==> PlainWord(argv[i])
    case Redir(b, r) => Buildable(b) && BuildableRedir(r)
    case Pipe(l, r) => Buildable(l) && Buildable(r)
    case List(l, r) => Buildable(l) && Buildable(r)
    case Back(b) => Buildable(b)
  }

  /** A token that can stand in a command line. */
  ghost predicate PlainToken(t: Token) {
    match t
    case Word(w) => PlainWord(w)
    case Sym(c) => c == '+' || Symbol(c)
  }

  ghost predicate PlainTokens(t: seq<Token>) {
    forall i :: 0 <= i < |t| ==> PlainToken(t[i])
  }

  // the parser builds nothing else

  lemma {:induction false} RedirsBuildable(rs: seq<Redirection<string>>, t: seq<Token>)
    requires PlainTokens(t) && forall i :: 0 <= i < |rs| ==> BuildableRedir(rs[i])
    ensures var r := Redirs(rs, t); r.RedirOk? ==> PlainTokens(r.rest) && forall i :: 0 <= i < |r.rs| ==> BuildableRedir(r.rs[i])
    decreases |t|
  {
    if Starts(t, "<>") && |t| >= 2 && t[1].Word? {
      assert PlainToken(t[1]);
      RedirsBuildable(rs + [RedirectionOf(t[0].c, t[1].w)], t[2..]);
    }
  }

  lemma {:induction false} WrapBuildable(c: Cmd<string>, rs: seq<Redirection<string>>)
    requires Buildable(c) && forall i :: 0 <= i < |rs| ==> BuildableRedir(rs[i])
    ensures Buildable(Wrap(c, rs))
    decreases |rs|
  {
    if rs != [] {
      WrapBuildable(c, rs[..|rs| - 1]);
    }
  }

  ghost predicate GoodResult(r: Result) {
    r.Ok? ==> Buildable(r.cmd) && PlainTokens(r.rest)
  }

  lemma {:induction false} ArgsBuildable(argv: seq<string>, rs: seq<Redirection<string>>, t: seq<Token>)
    requires PlainTokens(t) && |argv| < MAXARGS && forall i :: 0 <= i < |argv| ==> PlainWord(argv[i])
    requires forall i :: 0 <= i < |rs| ==> BuildableRedir(rs[i])
    ensures GoodResult(Args(argv, rs, t))
    decreases |t|
  {
    if Starts(t, "|)&;") || t == [] {
      WrapBuildable(Exec(argv), rs);
    } else if t[0].Word? && |argv| + 1 < MAXARGS {
      assert PlainToken(t[0]);
      RedirsBuildable(rs, t[1..]);
      var rr := Redirs(rs, t[1..]);
      if rr.RedirOk? {
        ArgsBuildable(argv + [t[0].w], rr.rs, rr.rest);
      }
    }
  }

  lemma {:induction false} LineBuildable(t: seq<Token>)
    requires PlainTokens(t)
    ensures GoodResult(Line(t))
    decreases |t|, 4
  {
    hide Buildable, PlainToken;
    PipeBuildable(t);
    var p := PipeLine(t);
    if p.Ok? {
      TailBuildable(p.cmd, p.rest);
    }
  }

  lemma {:induction false} TailBuildable(c: Cmd<string>, t: seq<Token>)
    requires PlainTokens(t) && Buildable(c)
    ensures GoodResult(LineTail(c, t))
    decreases |t|, 3
  {
    if Starts(t, "&") {
      TailBuildable(Back(c), t[1..]);
    } else if Starts(t, ";") {
      LineBuildable(t[1..]);
    }
  }

  lemma {:induction false} PipeBuildable(t: seq<Token>)
    requires PlainTokens(t)
    ensures GoodResult(PipeLine(t))
    decreases |t|, 2
  {
    CommandBuildable(t);
    var e := Command(t);
    if e.Ok? && Starts(e.rest, "|") {
      PipeBuildable(e.rest[1..]);
    }
  }

  lemma {:induction false} CommandBuildable(t: seq<Token>)
    requires PlainTokens(t)
    ensures GoodResult(Command(t))
    decreases |t|, 1
  {
    if Starts(t, "(") {
      LineBuildable(t[1..]);
      var l := Line(t[1..]);
      if l.Ok? && Starts(l.rest, ")") {
        RedirsBuildable([], l.rest[1..]);
        var rr := Redirs([], l.rest[1..]);
        if rr.RedirOk? { WrapBuildable(l.cmd, rr.rs); }
      }
    } else {
      RedirsBuildable([], t);
      var rr := Redirs([], t);
      if rr.RedirOk? { ArgsBuildable([], rr.rs, rr.rest); }
    }
  }

  // ----- reading a printed command

  /** What may follow a whole command, a pipeline, and a line. */
  ghost predicate AfterUnit(t: seq<Token>) { t == [] || Starts(t, "|)&;") }
  ghost predicate AfterPipe(t: seq<Token>) { t == [] || Starts(t, ")&;") }
  ghost predicate AfterLine(t: seq<Token>) { t == [] || Starts(t, ")") }

  /** The command under the redirections, and the redirections. */
  function Base(c: Cmd<string>): (b: Cmd<string>) { if c.Redir? then Base(c.cmd) else c }
  function Spine(c: Cmd<string>): (rs: seq<Redirection<string>>) {
    if c.Redir? then Spine(c.cmd) + [c.to] else []
  }

  function SpineTokens(rs: seq<Redirection<string>>): (t: seq<Token>)
    decreases |rs|
  {
    if rs == [] then [] else RedirTokens(rs[0]) + SpineTokens(rs[1..])
  }

  lemma {:induction false} SpineTokensSnoc(rs: seq<Redirection<string>>, r: Redirection<string>)
    ensures SpineTokens(rs + [r]) == SpineTokens(rs) + RedirTokens(r)
    decreases |rs|
  {
    if rs == [] {
      assert rs + [r] == [r] && SpineTokens([r][1..]) == [];
    } else {
      assert (rs + [r])[0] == rs[0] && (rs + [r])[1..] == rs[1..] + [r];
      SpineTokensSnoc(rs[1..], r);
    }
  }

  lemma {:induction false} Unwrap(c: Cmd<string>)
    ensures Wrap(Base(c), Spine(c)) == c && !Base(c).Redir?
    ensures Print(3, c) == Print(3, Base(c)) + SpineTokens(Spine(c))
    ensures Buildable(c) ==> Buildable(Base(c)) && forall i :: 0 <= i < |Spine(c)| ==> BuildableRedir(Spine(c)[i])
    decreases c
  {
    if c.Redir? {
      Unwrap(c.cmd);
      var rs := Spine(c.cmd);
      assert (rs + [c.to])[..|rs|] == rs;
      SpineTokensSnoc(rs, c.to);
    }
  }

  /** Printed redirections are read back. */
  lemma {:induction false} RedirsRead(done: seq<Redirection<string>>, rs: seq<Redirection<string>>, rest: seq<Token>)
    requires !Starts(rest, "<>") && forall i :: 0 <= i < |rs| ==> BuildableRedir(rs[i])
    ensures Redirs(done, SpineTokens(rs) + rest) == RedirOk(done + rs, rest)
    decreases |rs|
  {
    var t := SpineTokens(rs) + rest;
    if rs == [] {
      assert t == rest && done + rs == done;
    } else {
      assert t[0] == RedirTokens(rs[0])[0] && t[1] == RedirTokens(rs[0])[1] && t[2..] == SpineTokens(rs[1..]) + rest;
      assert BuildableRedir(rs[0]) && RedirectionOf(t[0].c, t[1].w) == rs[0];
      RedirsRead(done + [rs[0]], rs[1..], rest);
      assert done + [rs[0]] + rs[1..] == done + rs;
    }
  }

  lemma ArgsStep(argv: seq<string>, t: seq<Token>, rs: seq<Redirection<string>>, rest: seq<Token>)
    requires t != [] && t[0].Word? && |argv| + 1 < MAXARGS && Redirs([], t[1..]) == RedirOk(rs, rest)
    ensures Args(argv, [], t) == Args(argv + [t[0].w], rs, rest)
  {
  }

  /** Printed words are read back, with the redirections that follow the last. */
  lemma {:induction false} ArgsRead(done: seq<string>, argv: seq<string>, rs: seq<Redirection<string>>, rest: seq<Token>)
    requires AfterUnit(rest) && |done| + |argv| < MAXARGS && argv != []
    requires forall i :: 0 <= i < |rs| ==> BuildableRedir(rs[i])
    ensures Args(done, [], Words(argv) + (SpineTokens(rs) + rest)) == Ok(Wrap(Exec(done + argv), rs), rest)
    decreases |argv|
  {
    hide Args, BuildableRedir, Wrap, SpineTokens;
    var tail := SpineTokens(rs) + rest;
    var t := Words(argv) + tail;
    assert t[0] == Word(argv[0]) && t[1..] == Words(argv[1..]) + tail;
    if |argv| == 1 {
      assert t[1..] == tail && done + argv == done + [argv[0]];
      RedirsRead([], rs, rest);
      assert [] + rs == rs;
      ArgsStep(done, t, rs, rest);
      ArgsEnd(done + argv, rs, rest);
    } else {
      assert t[1..][0] == Word(argv[1]);
      ArgsStep(done, t, [], t[1..]);
      ArgsRead(done + [argv[0]], argv[1..], rs, rest);
      assert done + [argv[0]] + argv[1..] == done + argv;
    }
  }

  lemma CommandStep(t: seq<Token>, rs: seq<Redirection<string>>, rest: seq<Token>)
    requires !Starts(t, "(") && Redirs([], t) == RedirOk(rs, rest)
    ensures Command(t) == Args([], rs, rest)
  {
  }

  lemma ArgsEnd(argv: seq<string>, rs: seq<Redirection<string>>, rest: seq<Token>)
    requires AfterUnit(rest)
    ensures Args(argv, rs, rest) == Ok(Wrap(Exec(argv), rs), rest)
  {
  }

  lemma WordFirst(t: seq<Token>)
    requires t != [] && t[0].Word?
    ensures !Starts(t, "(") && Redirs([], t) == RedirOk([], t)
  {
  }

  lemma NoParen(rs: seq<Redirection<string>>, rest: seq<Token>)
    requires AfterUnit(rest)
    ensures !Starts(SpineTokens(rs) + rest, "(")
  {
    var t := SpineTokens(rs) + rest;
    if rs == [] {
      assert t == rest;
    } else {
      assert t[0] == RedirTokens(rs[0])[0];
    }
  }

  lemma ExecRead(argv: seq<string>, rs: seq<Redirection<string>>, rest: seq<Token>)
    requires AfterUnit(rest) && |argv| < MAXARGS && forall i :: 0 <= i < |rs| ==> BuildableRedir(rs[i])
    ensures Command(Words(argv) + (SpineTokens(rs) + rest)) == Ok(Wrap(Exec(argv), rs), rest)
  {
    hide Command, Args, BuildableRedir, Wrap, SpineTokens, Redirs;
    var tail := SpineTokens(rs) + rest;
    var t := Words(argv) + tail;
    if argv == [] {
      assert t == tail;
      RedirsRead([], rs, rest);
      assert [] + rs == rs;
      NoParen(rs, rest);
      CommandStep(tail, rs, rest);
      ArgsEnd([], rs, rest);
    } else {
      assert t[0] == Word(argv[0]);
      WordFirst(t);
      CommandStep(t, [], t);
      ArgsRead([], argv, rs, rest);
      assert [] + argv == argv;
    }
  }

  // one step of each function of the parser

  lemma BlockStep(t: seq<Token>, c: Cmd<string>, inner: seq<Token>, rs: seq<Redirection<string>>, rest: seq<Token>)
    requires Starts(t, "(") && Line(t[1..]) == Ok(c, inner) && Starts(inner, ")") && Redirs([], inner[1..]) == RedirOk(rs, rest)
    ensures Command(t) == Ok(Wrap(c, rs), rest)
  {
  }

  lemma PipeEnd(t: seq<Token>, c: Cmd<string>, rest: seq<Token>)
    requires Command(t) == Ok(c, rest) && AfterPipe(rest)
    ensures PipeLine(t) == Ok(c, rest)
  {
  }

  lemma PipeStep(t: seq<Token>, l: Cmd<string>, more: seq<Token>, r: Cmd<string>, rest: seq<Token>)
    requires Command(t) == Ok(l, [Sym('|')] + more) && PipeLine(more) == Ok(r, rest)
    ensures PipeLine(t) == Ok(Pipe(l, r), rest)
  {
    assert ([Sym('|')] + more)[1..] == more;
  }

  lemma LineStep(t: seq<Token>, c: Cmd<string>, rest: seq<Token>)
    requires PipeLine(t) == Ok(c, rest)
    ensures Line(t) == LineTail(c, rest)
  {
  }

  lemma TailBack(c: Cmd<string>, rest: seq<Token>)
    ensures LineTail(c, [Sym('&')] + rest) == LineTail(Back(c), rest)
  {
    assert ([Sym('&')] + rest)[1..] == rest;
  }

  lemma TailList(c: Cmd<string>, more: seq<Token>, r: Cmd<string>, rest: seq<Token>)
    requires Line(more) == Ok(r, rest)
    ensures LineTail(c, [Sym(';')] + more) == Ok(List(c, r), rest)
  {
    assert ([Sym(';')] + more)[1..] == more;
  }

  lemma TailEnd(c: Cmd<string>, rest: seq<Token>)
    requires AfterLine(rest)
    ensures LineTail(c, rest) == Ok(c, rest)
  {
  }

  /** A command at the place of a unit. */
  lemma {:induction false} UnitRead(c: Cmd<string>, rest: seq<Token>)
    requires Buildable(c) && AfterUnit(rest)
    ensures Command(Print(3, c) + rest) == Ok(c, rest)
    decreases c, 2
  {
    hide Command, Line, Redirs, Body, Wrap, SpineTokens, Buildable;
    Unwrap(c);
    var b, rs := Base(c), Spine(c);
    var tail := SpineTokens(rs) + rest;
    assert Print(3, c) + rest == Print(3, b) + tail;
    BaseSmaller(c);
    if b.Exec? {
      ExecPrint(b);
      ExecRead(b.argv, rs, rest);
    } else {
      var t, inner := Print(3, b) + tail, [Sym(')')] + tail;
      assert t[0] == Sym('(') && t[1..] == Body(b) + inner;
      LineRead(b, inner);
      assert inner[1..] == tail;
      RedirsRead([], rs, rest);
      assert [] + rs == rs;
      BlockStep(t, b, inner, rs, rest);
    }
  }

  lemma ExecPrint(c: Cmd<string>)
    requires c.Exec?
    ensures Print(3, c) == Words(c.argv) && (Buildable(c) ==> |c.argv| < MAXARGS)
  {
  }

  lemma BaseSmaller(c: Cmd<string>)
    ensures c.Redir? ==> Base(c) < c
    ensures !c.Redir? ==> Base(c) == c
  {
  }

  /** A command at the place of a pipeline. */
  lemma {:induction false} PipeRead(c: Cmd<string>, rest: seq<Token>)
    requires Buildable(c) && AfterPipe(rest)
    ensures PipeLine(Print(2, c) + rest) == Ok(c, rest)
    decreases c, 3
  {
    hide Command, PipeLine;
    if c.Pipe? {
      PipeBody(c, rest);
    } else {
      assert Print(2, c) == Print(3, c);
      UnitRead(c, rest);
      PipeEnd(Print(2, c) + rest, c, rest);
    }
  }

  lemma {:induction false} PipeBody(c: Cmd<string>, rest: seq<Token>)
    requires c.Pipe? && Buildable(c) && AfterPipe(rest)
    ensures PipeLine(Body(c) + rest) == Ok(c, rest)
    decreases c, 0
  {
    hide Command, PipeLine;
    var more := Print(2, c.right) + rest;
    assert Body(c) + rest == Print(3, c.left) + ([Sym('|')] + more);
    UnitRead(c.left, [Sym('|')] + more);
    PipeRead(c.right, rest);
    PipeStep(Body(c) + rest, c.left, more, c.right, rest);
  }

  /** A command at the head of a line; `&` and `;` may follow. */
  lemma {:induction false} HeadRead(c: Cmd<string>, rest: seq<Token>)
    requires Buildable(c) && AfterPipe(rest)
    ensures Line(Print(1, c) + rest) == LineTail(c, rest)
    decreases c, 4
  {
    hide Line, LineTail, PipeLine;
    if c.Back? {
      BackBody(c, rest);
    } else {
      assert Print(1, c) == Print(2, c);
      PipeRead(c, rest);
      LineStep(Print(1, c) + rest, c, rest);
    }
  }

  lemma {:induction false} BackBody(c: Cmd<string>, rest: seq<Token>)
    requires c.Back? && Buildable(c) && AfterPipe(rest)
    ensures Line(Body(c) + rest) == LineTail(c, rest)
    decreases c, 0
  {
    hide Line, LineTail;
    assert Body(c) + rest == Print(1, c.job) + ([Sym('&')] + rest);
    HeadRead(c.job, [Sym('&')] + rest);
    TailBack(c.job, rest);
  }

  /** A printed command is read back as itself. */
  lemma {:induction false} LineRead(c: Cmd<string>, rest: seq<Token>)
    requires Buildable(c) && AfterLine(rest)
    ensures Line(Body(c) + rest) == Ok(c, rest)
    decreases c, if Level(c) < 3 then 1 else 5
  {
    hide Line, LineTail, PipeLine, Command;
    var t := Body(c) + rest;
    match c
    case List(l, r) =>
      var more := Print(0, r) + rest;
      assert t == Print(1, l) + ([Sym(';')] + more);
      HeadRead(l, [Sym(';')] + more);
      assert Print(0, r) == Body(r);
      LineRead(r, rest);
      TailList(l, more, r, rest);
    case Back(_) =>
      BackBody(c, rest);
      TailEnd(c, rest);
    case Pipe(_, _) =>
      PipeBody(c, rest);
      LineStep(t, c, rest);
      TailEnd(c, rest);
    case _ =>
      assert Print(3, c) == Body(c);
      UnitRead(c, rest);
      PipeEnd(t, c, rest);
      LineStep(t, c, rest);
      TailEnd(c, rest);
  }

  // ----- the text of a command

  lemma WordLenIs(w: string, rest: string)
    requires PlainWord(w) && (rest == "" || !PlainChar(rest[0]))
    ensures WordLen(w + rest) == |w|
  {
    var s := w + rest;
    assert forall i :: 0 <= i < |w| ==> s[i] == w[i];
    assert rest != "" ==> s[|w|] == rest[0];
  }

  /** A token is read off the front of its text and a blank. */
  lemma TokenRead(t: Token, rest: string)
    requires PlainToken(t) && rest != "" && rest[0] == ' '
    ensures var s, n := TokenText(t) + rest, |TokenText(t)|;
      && s != "" && !Blank(s[0]) && TokenLen(s) == n && TokenAt(s) == t && s[n..] == rest
  {
    var s, n := TokenText(t) + rest, |TokenText(t)|;
    assert s[0] == TokenText(t)[0] && s[n] == ' ';
    match t
    case Word(w) =>
      WordLenIs(w, rest);
      assert s[..n] == w;
    case Sym(c) =>
      NotBlank(if c == '+' then '>' else c);
      if c == '+' {
        assert s[1] == '>' && s[..2] == ">>";
      } else {
        assert s[1] == ' ' != ">>"[1];
      }
  }

  lemma NotBlank(c: char)
    requires Symbol(c)
    ensures !Blank(c) && c != ' '
  {
  }

  /** The tokens of a text are the tokens it was made of. */
  lemma {:induction false} LexText(t: seq<Token>)
    requires PlainTokens(t)
    ensures Lex(Text(t)) == t
    decreases |t|
  {
    hide TokenLen, TokenAt, TokenText, PlainToken;
    if t != [] {
      var rest := " " + Text(t[1..]);
      var s := TokenText(t[0]) + rest;
      assert s == Text(t);
      TokenRead(t[0], rest);
      LexText(t[1..]);
      assert rest[1..] == Text(t[1..]);
      assert Lex(rest) == t[1..];
      assert Lex(s) == [t[0]] + Lex(rest);
    }
  }

  lemma {:induction false} LexPlain(s: string)
    requires '\0' !in s
    ensures PlainTokens(Lex(s))
    decreases |s|
  {
    if s != "" {
      if Blank(s[0]) {
        LexPlain(s[1..]);
      } else {
        LexPlain(s[TokenLen(s)..]);
      }
    }
  }

  lemma PlainConcat(a: seq<Token>, b: seq<Token>)
    requires PlainTokens(a) && PlainTokens(b)
    ensures PlainTokens(a + b)
  {
  }

  lemma PlainSym(c: char)
    requires c == '+' || Symbol(c)
    ensures PlainTokens([Sym(c)])
  {
  }

  lemma {:induction false} PrintPlain(level: nat, c: Cmd<string>)
    requires Buildable(c)
    ensures PlainTokens(Print(level, c)) && PlainTokens(Body(c))
    decreases c
  {
    hide PlainTokens;
    BodyPlain(c);
    PlainSym('(');
    PlainSym(')');
    PlainConcat([Sym('(')], Body(c));
    PlainConcat([Sym('(')] + Body(c), [Sym(')')]);
  }

  lemma {:induction false} BodyPlain(c: Cmd<string>)
    requires Buildable(c)
    ensures PlainTokens(Body(c))
    decreases c, 0
  {
    match c
    case Exec(_) =>
    case Redir(b, _) =>
      PrintPlain(3, b);
    case Pipe(l, r) =>
      PrintPlain(3, l);
      PrintPlain(2, r);
      JoinPlain(Print(3, l), '|', Print(2, r));
    case List(l, r) =>
      PrintPlain(1, l);
      PrintPlain(0, r);
      JoinPlain(Print(1, l), ';', Print(0, r));
    case Back(b) =>
      PrintPlain(1, b);
      PlainSym('&');
      PlainConcat(Print(1, b), [Sym('&')]);
  }

  lemma JoinPlain(a: seq<Token>, c: char, b: seq<Token>)
    requires PlainTokens(a) && PlainTokens(b) && Symbol(c)
    ensures PlainTokens(a + [Sym(c)] + b)
  {
    PlainSym(c);
    PlainConcat(a, [Sym(c)]);
    PlainConcat(a + [Sym(c)], b);
  }

  /** Every command the grammar can build is read back from its text. */
  lemma RoundTrip(c: Cmd<string>)
    requires Buildable(c)
    ensures ParseText(Text(Print(0, c))) == Ok(c, [])
  {
    hide Lex, Text, Line, Body, Buildable;
    PrintPlain(0, c);
    LexText(Print(0, c));
    assert Body(c) + [] == Body(c) == Print(0, c);
    LineRead(c, []);
  }

  /** And the parser builds nothing else: what it accepts, it would accept in printed form. */
  lemma ParsedIsBuildable(s: string)
    requires '\0' !in s
    ensures ParseText(s).Ok? ==> Buildable(ParseText(s).cmd) && ParseText(Text(Print(0, ParseText(s).cmd))) == ParseText(s)
  {
    hide Lex, Text, Line, Body, Print;
    LexPlain(s);
    LineBuildable(Lex(s));
    if ParseText(s).Ok? {
      RoundTrip(ParseText(s).cmd);
    }
  }
}
