/**
  Every way to write a command line, as data: words and redirections of a command in any
  order, all three redirection symbols, and parentheses wherever they may stand.  A form has
  a spelling, the list of its tokens, and a meaning, the command it stands for; the parser
  accepts exactly the spellings and builds exactly the meanings.
  */
module ShellForms {
  import opened ShellGrammar

  /** A word of a command, `< file`, `> file`, or `>> file`. */
  datatype Item = Arg(w: string) | Input(file: string) | Output(file: string, twice: bool)

  datatype UnitForm = Simple(items: seq<Item>) | Group(line: LineForm, redirs: seq<Item>)
  datatype PipeForm = One(u: UnitForm) | More(u: UnitForm, next: PipeForm)
  datatype LineForm = LineForm(pipe: PipeForm, tail: TailForm)
  datatype TailForm = End | Amp(next: TailForm) | Semi(line: LineForm)

  // ----- spelling

  function ItemTokens(i: Item): (t: seq<Token>) {
    match i
    case Arg(w) => [Word(w)]
    case Input(f) => [Sym('<'), Word(f)]
    case Output(f, twice) => [Sym(if twice then '+' else '>'), Word(f)]
  }

  function SpellItems(items: seq<Item>): (t: seq<Token>) {
    if items == [] then [] else ItemTokens(items[0]) + SpellItems(items[1..])
  }

  function SpellUnit(u: UnitForm): (t: seq<Token>) {
    match u
    case Simple(items) => SpellItems(items)
    case Group(l, rs) => [Sym('(')] + SpellLine(l) + [Sym(')')] + SpellItems(rs)
  }

  function SpellPipe(p: PipeForm): (t: seq<Token>) {
    match p
    case One(u) => SpellUnit(u)
    case More(u, q) => SpellUnit(u) + [Sym('|')] + SpellPipe(q)
  }

  function SpellLine(l: LineForm): (t: seq<Token>) { SpellPipe(l.pipe) + SpellTail(l.tail) }

  function SpellTail(e: TailForm): (t: seq<Token>) {
    match e
    case End => []
    case Amp(n) => [Sym('&')] + SpellTail(n)
    case Semi(l) => [Sym(';')] + SpellLine(l)
  }

  // ----- meaning

  /** The words of the command, in order. */
  function ArgsOf(items: seq<Item>): (a: seq<string>) {
    if items == [] then [] else (if items[0].Arg? then [items[0].w] else []) + ArgsOf(items[1..])
  }

  /** `<` reads the file as descriptor 0; `>` and `>>` create it and write it as descriptor 1. */
  function RedirsOf(items: seq<Item>): (rs: seq<Redirection<string>>) {
    if items == [] then []
    else
      (match items[0]
       case Arg(_) => []
       case Input(f) => [Redirection(f, O_RDONLY, 0)]
       case Output(f, _) => [Redirection(f, O_WRONLY + O_CREATE, 1)]) + RedirsOf(items[1..])
  }

  function UnitMeans(u: UnitForm): (c: Cmd<string>) {
    match u
    case Simple(items) => Wrap(Exec(ArgsOf(items)), RedirsOf(items))
    case Group(l, rs) => Wrap(LineMeans(l), RedirsOf(rs))
  }

  function PipeMeans(p: PipeForm): (c: Cmd<string>) {
    match p
    case One(u) => UnitMeans(u)
    case More(u, q) => Pipe(UnitMeans(u), PipeMeans(q))
  }

  function LineMeans(l: LineForm): (c: Cmd<string>) { TailMeans(PipeMeans(l.pipe), l.tail) }

  function TailMeans(c: Cmd<string>, e: TailForm): (r: Cmd<string>)
    decreases e
  {
    match e
    case End => c
    case Amp(n) => TailMeans(Back(c), n)
    case Semi(l) => List(c, LineMeans(l))
  }

  // ----- forms within the limits of the shell

  ghost predicate NoArgs(items: seq<Item>) {
    forall i :: 0 <= i < |items| ==> !items[i].Arg?
  }

  /** At most nine words in a command, and only redirections after a closing parenthesis. */
  ghost predicate GoodUnit(u: UnitForm) {
    match u
    case Simple(items) => |ArgsOf(items)| < MAXARGS
    case Group(l, rs) => GoodLine(l) && NoArgs(rs)
  }

  ghost predicate GoodPipe(p: PipeForm) {
    GoodUnit(p.u) && (p.More? ==> GoodPipe(p.next))
  }

  ghost predicate GoodLine(l: LineForm) { GoodPipe(l.pipe) && GoodTail(l.tail) }

  ghost predicate GoodTail(e: TailForm) {
    match e
    case End => true
    case Amp(n) => GoodTail(n)
    case Semi(l) => GoodLine(l)
  }

  // ----- lists of items

  lemma {:induction false} SpellConcat(a: seq<Item>, b: seq<Item>)
    ensures SpellItems(a + b) == SpellItems(a) + SpellItems(b)
    decreases |a|
  {
    hide ItemTokens;
    if a == [] {
      assert a + b == b;
    } else {
      assert (a + b)[0] == a[0] && (a + b)[1..] == a[1..] + b;
      SpellConcat(a[1..], b);
    }
  }

  lemma {:induction false} ArgsConcat(a: seq<Item>, b: seq<Item>)
    ensures ArgsOf(a + b) == ArgsOf(a) + ArgsOf(b)
    decreases |a|
  {
    if a == [] {
      assert a + b == b;
    } else {
      assert (a + b)[0] == a[0] && (a + b)[1..] == a[1..] + b;
      ArgsConcat(a[1..], b);
    }
  }

  lemma {:induction false} RedirsConcat(a: seq<Item>, b: seq<Item>)
    ensures RedirsOf(a + b) == RedirsOf(a) + RedirsOf(b)
    decreases |a|
  {
    if a == [] {
      assert a + b == b;
    } else {
      assert (a + b)[0] == a[0] && (a + b)[1..] == a[1..] + b;
      RedirsConcat(a[1..], b);
    }
  }

  lemma ItemsConcat(a: seq<Item>, b: seq<Item>)
    ensures SpellItems(a + b) == SpellItems(a) + SpellItems(b)
    ensures ArgsOf(a + b) == ArgsOf(a) + ArgsOf(b) && RedirsOf(a + b) == RedirsOf(a) + RedirsOf(b)
  {
    hide SpellItems, ArgsOf, RedirsOf;
    SpellConcat(a, b);
    ArgsConcat(a, b);
    RedirsConcat(a, b);
  }

  lemma {:induction false} NoArgsNone(items: seq<Item>)
    requires NoArgs(items)
    ensures ArgsOf(items) == []
  {
    if items != [] {
      NoArgsNone(items[1..]);
    }
  }

  /** The redirections at the front. */
  function LeadLen(items: seq<Item>): (k: nat)
    ensures k <= |items| && (forall i :: 0 <= i < k ==> !items[i].Arg?) && (k < |items| ==> items[k].Arg?)
  {
    if items == [] || items[0].Arg? then 0 else 1 + LeadLen(items[1..])
  }

  lemma ItemStep(items: seq<Item>, rest: seq<Token>)
    requires items != []
    ensures SpellItems(items) + rest == ItemTokens(items[0]) + (SpellItems(items[1..]) + rest)
  {
  }

  // ----- every good form is read as its meaning

  lemma {:induction false} RedirsSound(done: seq<Redirection<string>>, items: seq<Item>, rest: seq<Token>)
    requires !Starts(rest, "<>")
    ensures var k := LeadLen(items);
      Redirs(done, SpellItems(items) + rest) == RedirOk(done + RedirsOf(items[..k]), SpellItems(items[k..]) + rest)
    decreases |items|
  {
    hide RedirectionOf, Redirs, SpellItems, RedirsOf, ItemTokens;
    var t, k := SpellItems(items) + rest, LeadLen(items);
    NoItems();
    if k == 0 {
      NoneFirst(done, items, rest);
      assert items[..0] == [] && done + [] == done && items[0..] == items;
    } else {
      ItemStep(items, rest);
      var i, tail := items[0], items[1..];
      RedirStep(done, i, SpellItems(tail) + rest);
      RedirsSound(done + RedirsOf([i]), tail, rest);
      assert items[..k] == [i] + tail[..k - 1] && items[k..] == tail[k - 1..];
      ItemsConcat([i], tail[..k - 1]);
      assert done + RedirsOf([i]) + RedirsOf(tail[..k - 1]) == done + RedirsOf(items[..k]);
    }
  }

  lemma NoneFirst(done: seq<Redirection<string>>, items: seq<Item>, rest: seq<Token>)
    requires LeadLen(items) == 0 && !Starts(rest, "<>")
    ensures Redirs(done, SpellItems(items) + rest) == RedirOk(done, SpellItems(items) + rest)
  {
    if items == [] {
      assert SpellItems(items) + rest == rest;
    } else {
      ArgFirst(items, rest);
    }
  }

  lemma RedirStep(done: seq<Redirection<string>>, i: Item, more: seq<Token>)
    requires !i.Arg?
    ensures |RedirsOf([i])| == 1 && Redirs(done, ItemTokens(i) + more) == Redirs(done + RedirsOf([i]), more)
  {
    var t := ItemTokens(i) + more;
    assert t[0] == ItemTokens(i)[0] && t[1] == Word(i.file) && t[2..] == more;
    assert Starts(t, "<>");
    assert [i][1..] == [];
    assert RedirsOf([i]) == [RedirectionOf(t[0].c, t[1].w)];
  }

  lemma {:induction false} ArgsSound(argv: seq<string>, rs: seq<Redirection<string>>, items: seq<Item>, rest: seq<Token>)
    requires AfterUnit(rest) && |argv| + |ArgsOf(items)| < MAXARGS && (items != [] ==> items[0].Arg?)
    ensures Args(argv, rs, SpellItems(items) + rest) == Ok(Wrap(Exec(argv + ArgsOf(items)), rs + RedirsOf(items)), rest)
    decreases |items|
  {
    hide Wrap, Args, Redirs, SpellItems, RedirsOf, AfterUnit;
    NoItems();
    var t := SpellItems(items) + rest;
    if items == [] {
      assert t == rest && argv + [] == argv && rs + [] == rs;
      ArgsEnd(argv, rs, rest);
    } else {
      var w, tail := items[0].w, items[1..];
      var k := LeadLen(tail);
      ArgFirst(items, rest);
      UnitNotRedir(rest);
      RedirsSound(rs, tail, rest);
      LeadSplit(tail);
      ArgsMore(argv, rs, t, rs + RedirsOf(tail[..k]), SpellItems(tail[k..]) + rest);
      ArgsSound(argv + [w], rs + RedirsOf(tail[..k]), tail[k..], rest);
      assert argv + [w] + ArgsOf(tail[k..]) == argv + ArgsOf(items);
      assert rs + RedirsOf(tail[..k]) + RedirsOf(tail[k..]) == rs + RedirsOf(items);
    }
  }

  lemma ArgFirst(items: seq<Item>, rest: seq<Token>)
    requires items != [] && items[0].Arg?
    ensures var t := SpellItems(items) + rest; t != [] && t[0] == Word(items[0].w) && t[1..] == SpellItems(items[1..]) + rest
    ensures ArgsOf(items) == [items[0].w] + ArgsOf(items[1..]) && RedirsOf(items) == RedirsOf(items[1..])
  {
    ItemStep(items, rest);
  }

  lemma UnitNotRedir(rest: seq<Token>)
    requires AfterUnit(rest)
    ensures !Starts(rest, "<>")
  {
  }

  /** One round of parseexec's loop. */
  lemma ArgsMore(argv: seq<string>, rs: seq<Redirection<string>>, t: seq<Token>, rs': seq<Redirection<string>>, rest: seq<Token>)
    requires t != [] && t[0].Word? && |argv| + 1 < MAXARGS && Redirs(rs, t[1..]) == RedirOk(rs', rest)
    ensures Args(argv, rs, t) == Args(argv + [t[0].w], rs', rest)
  {
  }

  /** And what a successful round was. */
  lemma ArgsWas(argv: seq<string>, rs: seq<Redirection<string>>, t: seq<Token>)
    requires Args(argv, rs, t).Ok? && !AfterUnit(t)
    ensures t != [] && t[0].Word? && |argv| + 1 < MAXARGS && Redirs(rs, t[1..]).RedirOk?
    ensures Args(argv, rs, t) == Args(argv + [t[0].w], Redirs(rs, t[1..]).rs, Redirs(rs, t[1..]).rest)
  {
  }

  lemma LeadSplit(items: seq<Item>)
    ensures var k := LeadLen(items);
      ArgsOf(items) == ArgsOf(items[k..]) && RedirsOf(items) == RedirsOf(items[..k]) + RedirsOf(items[k..])
  {
    var k := LeadLen(items);
    assert items == items[..k] + items[k..];
    ItemsConcat(items[..k], items[k..]);
    NoArgsNone(items[..k]);
  }

  lemma SimpleSound(items: seq<Item>, rest: seq<Token>)
    requires AfterUnit(rest) && |ArgsOf(items)| < MAXARGS
    ensures Command(SpellItems(items) + rest) == Ok(Wrap(Exec(ArgsOf(items)), RedirsOf(items)), rest)
  {
    hide Wrap, Redirs, Args, Command;
    var t, k := SpellItems(items) + rest, LeadLen(items);
    NotOpen(items, rest);
    RedirsSound([], items, rest);
    LeadSplit(items);
    assert [] + RedirsOf(items[..k]) == RedirsOf(items[..k]);
    CommandStep(t, RedirsOf(items[..k]), SpellItems(items[k..]) + rest);
    ArgsSound([], RedirsOf(items[..k]), items[k..], rest);
    assert [] + ArgsOf(items[k..]) == ArgsOf(items);
  }

  lemma NotOpen(items: seq<Item>, rest: seq<Token>)
    requires AfterUnit(rest)
    ensures !Starts(SpellItems(items) + rest, "(")
  {
    if items == [] {
      assert SpellItems(items) + rest == rest;
    } else {
      ItemStep(items, rest);
    }
  }

  /** A unit, a pipeline, the end of a line and a line are read as what they mean. */
  lemma {:induction false} UnitSound(u: UnitForm, rest: seq<Token>)
    requires GoodUnit(u) && AfterUnit(rest)
    ensures Command(SpellUnit(u) + rest) == Ok(UnitMeans(u), rest)
    decreases u
  {
    hide Command, Wrap, Redirs, Line;
    match u
    case Simple(items) =>
      SimpleSound(items, rest);
    case Group(l, rs) =>
      var inner := [Sym(')')] + (SpellItems(rs) + rest);
      LineSound(l, inner);
      GroupSound(l, rs, rest);
  }

  lemma GroupSound(l: LineForm, rs: seq<Item>, rest: seq<Token>)
    requires AfterUnit(rest) && NoArgs(rs)
    requires var inner := [Sym(')')] + (SpellItems(rs) + rest); Line(SpellLine(l) + inner) == Ok(LineMeans(l), inner)
    ensures Command(SpellUnit(Group(l, rs)) + rest) == Ok(Wrap(LineMeans(l), RedirsOf(rs)), rest)
  {
    hide Command, Wrap, Redirs, Line, SpellItems, RedirsOf, LineMeans, SpellLine, AfterUnit;
    var t, inner := SpellUnit(Group(l, rs)) + rest, [Sym(')')] + (SpellItems(rs) + rest);
    assert t == [Sym('(')] + (SpellLine(l) + inner);
    assert t[0] == Sym('(') && t[1..] == SpellLine(l) + inner;
    assert inner[1..] == SpellItems(rs) + rest;
    UnitNotRedir(rest);
    RedirsSound([], rs, rest);
    NoItems();
    assert rs[..|rs|] == rs && rs[|rs|..] == [] && [] + rest == rest && [] + RedirsOf(rs) == RedirsOf(rs);
    BlockStep(t, LineMeans(l), inner, RedirsOf(rs), rest);
  }

  lemma {:induction false} PipeSound(p: PipeForm, rest: seq<Token>)
    requires GoodPipe(p) && AfterPipe(rest)
    ensures PipeLine(SpellPipe(p) + rest) == Ok(PipeMeans(p), rest)
    decreases p
  {
    hide Command, PipeLine;
    match p
    case One(u) =>
      UnitSound(u, rest);
      PipeEnd(SpellPipe(p) + rest, UnitMeans(u), rest);
    case More(u, q) =>
      var more := SpellPipe(q) + rest;
      assert SpellPipe(p) + rest == SpellUnit(u) + ([Sym('|')] + more);
      UnitSound(u, [Sym('|')] + more);
      PipeSound(q, rest);
      PipeStep(SpellPipe(p) + rest, UnitMeans(u), more, PipeMeans(q), rest);
  }

  lemma {:induction false} LineSound(l: LineForm, rest: seq<Token>)
    requires GoodLine(l) && AfterLine(rest)
    ensures Line(SpellLine(l) + rest) == Ok(LineMeans(l), rest)
    decreases l
  {
    hide Line, PipeLine, LineTail;
    var more := SpellTail(l.tail) + rest;
    assert SpellLine(l) + rest == SpellPipe(l.pipe) + more;
    TailFirst(l.tail, rest);
    PipeSound(l.pipe, more);
    LineStep(SpellLine(l) + rest, PipeMeans(l.pipe), more);
    TailSound(PipeMeans(l.pipe), l.tail, rest);
  }

  lemma TailFirst(e: TailForm, rest: seq<Token>)
    requires AfterLine(rest)
    ensures AfterPipe(SpellTail(e) + rest)
  {
    if e.End? {
      assert SpellTail(e) + rest == rest;
    }
  }

  lemma {:induction false} TailSound(c: Cmd<string>, e: TailForm, rest: seq<Token>)
    requires GoodTail(e) && AfterLine(rest)
    ensures LineTail(c, SpellTail(e) + rest) == Ok(TailMeans(c, e), rest)
    decreases e
  {
    hide LineTail, Line;
    match e
    case End =>
      assert SpellTail(e) + rest == rest;
      TailEnd(c, rest);
    case Amp(n) =>
      assert SpellTail(e) + rest == [Sym('&')] + (SpellTail(n) + rest);
      TailBack(c, SpellTail(n) + rest);
      TailSound(Back(c), n, rest);
    case Semi(l) =>
      assert SpellTail(e) + rest == [Sym(';')] + (SpellLine(l) + rest);
      LineSound(l, rest);
      TailList(c, SpellLine(l) + rest, LineMeans(l), rest);
  }

  // ----- whatever the parser accepts is a good form

  lemma {:induction false} RedirsComplete(done: seq<Redirection<string>>, t: seq<Token>) returns (items: seq<Item>)
    requires Redirs(done, t).RedirOk?
    ensures var r := Redirs(done, t);
      NoArgs(items) && t == SpellItems(items) + r.rest && r.rs == done + RedirsOf(items)
    decreases |t|
  {
    hide SpellItems, RedirsOf, ItemTokens, RedirectionOf, Redirs;
    NoItems();
    RedirsWas(done, t);
    if !Starts(t, "<>") {
      items := [];
      assert t == [] + t && done == done + [];
    } else {
      var i := if t[0].c == '<' then Input(t[1].w) else Output(t[1].w, t[0].c == '+');
      FirstItem(t, i);
      RedirStep(done, i, t[2..]);
      var more := RedirsComplete(done + RedirsOf([i]), t[2..]);
      items := [i] + more;
      ItemsConcat([i], more);
      assert done + RedirsOf([i]) + RedirsOf(more) == done + RedirsOf(items);
      assert t == ItemTokens(i) + SpellItems(more) + Redirs(done, t).rest;
    }
  }

  lemma RedirsWas(done: seq<Redirection<string>>, t: seq<Token>)
    requires Redirs(done, t).RedirOk?
    ensures if Starts(t, "<>") then |t| >= 2 && t[1].Word? else Redirs(done, t) == RedirOk(done, t)
  {
  }

  lemma FirstItem(t: seq<Token>, i: Item)
    requires Starts(t, "<>") && |t| >= 2 && t[1].Word? && i == if t[0].c == '<' then Input(t[1].w) else Output(t[1].w, t[0].c == '+')
    ensures t == ItemTokens(i) + t[2..] && SpellItems([i]) == ItemTokens(i)
  {
    assert [i][1..] == [];
  }

  lemma {:induction false} ArgsComplete(argv: seq<string>, rs: seq<Redirection<string>>, t: seq<Token>) returns (items: seq<Item>)
    requires Args(argv, rs, t).Ok? && |argv| < MAXARGS
    ensures var r := Args(argv, rs, t);
      && t == SpellItems(items) + r.rest && |argv| + |ArgsOf(items)| < MAXARGS
      && r.cmd == Wrap(Exec(argv + ArgsOf(items)), rs + RedirsOf(items))
    decreases |t|
  {
    hide Wrap, Redirs, Args, AfterUnit, SpellItems, ArgsOf, RedirsOf;
    NoItems();
    if AfterUnit(t) {
      items := [];
      ArgsEnd(argv, rs, t);
      assert t == [] + t && argv == argv + [] && rs == rs + [];
    } else {
      ArgsWas(argv, rs, t);
      var w := t[0].w;
      var rr := Redirs(rs, t[1..]);
      var lead := RedirsComplete(rs, t[1..]);
      var more := ArgsComplete(argv + [w], rr.rs, rr.rest);
      items := [Arg(w)] + lead + more;
      ItemsConcat([Arg(w)] + lead, more);
      ItemsConcat([Arg(w)], lead);
      OneArg(w);
      NoArgsNone(lead);
      assert t == [t[0]] + t[1..];
      assert argv + [w] + ArgsOf(more) == argv + ArgsOf(items);
      assert rs + RedirsOf(lead) + RedirsOf(more) == rs + RedirsOf(items);
    }
  }

  lemma NoItems()
    ensures SpellItems([]) == [] && ArgsOf([]) == [] && RedirsOf([]) == []
  {
  }

  lemma OneArg(w: string)
    ensures SpellItems([Arg(w)]) == [Word(w)] && ArgsOf([Arg(w)]) == [w] && RedirsOf([Arg(w)]) == []
  {
    assert [Arg(w)][1..] == [];
  }

  lemma {:induction false} UnitComplete(t: seq<Token>) returns (u: UnitForm)
    requires Command(t).Ok?
    ensures GoodUnit(u) && t == SpellUnit(u) + Command(t).rest && Command(t).cmd == UnitMeans(u)
    decreases |t|, 1
  {
    hide Wrap, Redirs, Args, Line, RedirsOf, SpellItems;
    if Starts(t, "(") {
      var l := Line(t[1..]);
      var line := LineComplete(t[1..]);
      var rs := RedirsComplete([], l.rest[1..]);
      u := Group(line, rs);
      assert t == [Sym('(')] + t[1..] && l.rest == [Sym(')')] + l.rest[1..];
      assert [] + RedirsOf(rs) == RedirsOf(rs);
    } else {
      u := SimpleComplete(t);
    }
  }

  lemma SimpleComplete(t: seq<Token>) returns (u: UnitForm)
    requires !Starts(t, "(") && Command(t).Ok?
    ensures GoodUnit(u) && t == SpellUnit(u) + Command(t).rest && Command(t).cmd == UnitMeans(u)
  {
    hide Wrap, Redirs, Args, RedirsOf, SpellItems, ArgsOf;
    var rr := Redirs([], t);
    var lead := RedirsComplete([], t);
    var more := ArgsComplete([], rr.rs, rr.rest);
    u := Simple(lead + more);
    ItemsConcat(lead, more);
    NoArgsNone(lead);
    assert [] + ArgsOf(more) == ArgsOf(lead + more) && [] + RedirsOf(lead) + RedirsOf(more) == RedirsOf(lead + more);
  }

  lemma {:induction false} PipeComplete(t: seq<Token>) returns (p: PipeForm)
    requires PipeLine(t).Ok?
    ensures GoodPipe(p) && t == SpellPipe(p) + PipeLine(t).rest && PipeLine(t).cmd == PipeMeans(p)
    decreases |t|, 2
  {
    hide Command, SpellUnit, UnitMeans, GoodUnit;
    var e := Command(t);
    var u := UnitComplete(t);
    if Starts(e.rest, "|") {
      var q := PipeComplete(e.rest[1..]);
      p := More(u, q);
      assert e.rest == [Sym('|')] + e.rest[1..];
    } else {
      p := One(u);
    }
  }

  lemma {:induction false} LineComplete(t: seq<Token>) returns (l: LineForm)
    requires Line(t).Ok?
    ensures GoodLine(l) && t == SpellLine(l) + Line(t).rest && Line(t).cmd == LineMeans(l)
    decreases |t|, 4
  {
    hide PipeLine, LineTail;
    var p := PipeComplete(t);
    var e := TailComplete(PipeLine(t).cmd, PipeLine(t).rest);
    l := LineForm(p, e);
  }

  lemma {:induction false} TailComplete(c: Cmd<string>, t: seq<Token>) returns (e: TailForm)
    requires LineTail(c, t).Ok?
    ensures GoodTail(e) && t == SpellTail(e) + LineTail(c, t).rest && LineTail(c, t).cmd == TailMeans(c, e)
    decreases |t|, 3
  {
    hide Line;
    if Starts(t, "&") {
      var n := TailComplete(Back(c), t[1..]);
      e := Amp(n);
      assert t == [Sym('&')] + t[1..];
    } else if Starts(t, ";") {
      var l := LineComplete(t[1..]);
      e := Semi(l);
      assert t == [Sym(';')] + t[1..];
    } else {
      e := End;
    }
  }

  // ----- command lines

  /** A line that spells a good form is parsed as what the form means. */
  lemma FormIsRead(s: string, l: LineForm)
    requires GoodLine(l) && Lex(s) == SpellLine(l)
    ensures ParseText(s) == Ok(LineMeans(l), [])
  {
    assert SpellLine(l) + [] == SpellLine(l);
    LineSound(l, []);
  }

  /** The shell accepts a line exactly when it spells a good form. */
  lemma AcceptedIffForm(s: string)
    ensures ParseText(s).Ok? <==> exists l :: GoodLine(l) && SpellLine(l) == Lex(s)
  {
    if ParseText(s).Ok? {
      var l := LineComplete(Lex(s));
      assert SpellLine(l) + [] == SpellLine(l);
    }
    forall l | GoodLine(l) && SpellLine(l) == Lex(s) ensures ParseText(s).Ok? {
      FormIsRead(s, l);
    }
  }

  /** Words and redirections of one command, in any order: `echo > f hi` is `echo hi > f`. */
  lemma AnyOrder(s: string, items: seq<Item>)
    requires Lex(s) == SpellItems(items) && |ArgsOf(items)| < MAXARGS
    ensures ParseText(s) == Ok(Wrap(Exec(ArgsOf(items)), RedirsOf(items)), [])
  {
    hide Wrap;
    var l := LineForm(One(Simple(items)), End);
    assert SpellPipe(l.pipe) == SpellUnit(l.pipe.u) == SpellItems(items) && SpellTail(End) == [];
    assert SpellLine(l) == SpellItems(items) + [] == SpellItems(items);
    assert PipeMeans(l.pipe) == UnitMeans(l.pipe.u) && LineMeans(l) == TailMeans(PipeMeans(l.pipe), End);
    FormIsRead(s, l);
  }

  lemma OneItem(i: Item)
    requires !i.Arg?
    ensures SpellItems([i]) == ItemTokens(i) && ArgsOf([i]) == [] && |RedirsOf([i])| == 1
  {
    assert [i][1..] == [];
  }

  /** The form with one more redirection at its end. */
  lemma OneMore(u: UnitForm, i: Item) returns (v: UnitForm)
    requires GoodUnit(u) && !i.Arg?
    ensures |RedirsOf([i])| == 1
    ensures GoodUnit(v) && SpellUnit(v) == SpellUnit(u) + ItemTokens(i) && UnitMeans(v) == Redir(UnitMeans(u), RedirsOf([i])[0])
  {
    hide SpellItems, ArgsOf, RedirsOf, ItemTokens, Wrap, SpellLine, LineMeans, GoodLine;
    OneItem(i);
    var r := RedirsOf([i])[0];
    assert RedirsOf([i]) == [r];
    match u
    case Simple(items) =>
      v := Simple(items + [i]);
      ItemsConcat(items, [i]);
      assert ArgsOf(items) + [] == ArgsOf(items);
      WrapSnoc(Exec(ArgsOf(items)), RedirsOf(items), r);
    case Group(l, rs) =>
      v := Group(l, rs + [i]);
      ItemsConcat(rs, [i]);
      WrapSnoc(LineMeans(l), RedirsOf(rs), r);
      var open := [Sym('(')] + SpellLine(l) + [Sym(')')];
      assert open + (SpellItems(rs) + ItemTokens(i)) == open + SpellItems(rs) + ItemTokens(i);
  }

  lemma WrapSnoc(c: Cmd<string>, rs: seq<Redirection<string>>, r: Redirection<string>)
    ensures Wrap(c, rs + [r]) == Redir(Wrap(c, rs), r)
  {
    assert (rs + [r])[..|rs|] == rs;
  }

  /** What each redirection symbol does to a command. */
  lemma Redirected(c: Cmd<string>, file: string)
    requires Buildable(c) && PlainWord(file)
    ensures ParseText(Text(Print(3, c) + [Sym('<'), Word(file)])) == Ok(Redir(c, Redirection(file, O_RDONLY, 0)), [])
    ensures ParseText(Text(Print(3, c) + [Sym('>'), Word(file)])) == Ok(Redir(c, Redirection(file, O_WRONLY + O_CREATE, 1)), [])
    ensures ParseText(Text(Print(3, c) + [Sym('+'), Word(file)])) == Ok(Redir(c, Redirection(file, O_WRONLY + O_CREATE, 1)), [])
  {
    RedirectedBy(c, Input(file));
    RedirectedBy(c, Output(file, false));
    RedirectedBy(c, Output(file, true));
    assert [Input(file)][1..] == [] && [Output(file, false)][1..] == [] && [Output(file, true)][1..] == [];
  }

  lemma RedirectedBy(c: Cmd<string>, i: Item)
    requires Buildable(c) && !i.Arg? && PlainWord(i.file)
    ensures |RedirsOf([i])| == 1
    ensures ParseText(Text(Print(3, c) + ItemTokens(i))) == Ok(Redir(c, RedirsOf([i])[0]), [])
  {
    hide Lex, Text, Line, PipeLine, Command, Body, Buildable, SpellUnit, UnitMeans, PlainTokens, LineTail;
    assert [i][1..] == [] && |RedirsOf([i])| == 1;
    var t := Print(3, c);
    UnitRead(c, []);
    assert t + [] == t;
    var u := UnitComplete(t);
    var v := OneMore(u, i);
    assert SpellUnit(u) + [] == SpellUnit(u);
    var text := t + ItemTokens(i);
    UnitSound(v, []);
    assert SpellUnit(v) + [] == SpellUnit(v) == text;
    PipeEnd(text, UnitMeans(v), []);
    LineStep(text, UnitMeans(v), []);
    TailEnd(UnitMeans(v), []);
    PrintPlain(3, c);
    ItemPlain(i);
    PlainConcat(t, ItemTokens(i));
    LexText(text);
  }

  lemma ItemPlain(i: Item)
    requires !i.Arg? && PlainWord(i.file)
    ensures PlainTokens(ItemTokens(i))
  {
  }
}
