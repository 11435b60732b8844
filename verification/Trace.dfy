/**
  The system-call tracer: the decimal text of a number, the text of a trace record, the
  filter, and the ring of the last ten records.
  */
module Trace {
  import opened CStrings

  const N: nat := 10
  const ROW: nat := 1000
  const NAME: nat := 31       // longest command or system-call name the record has room for
  const MIN32: int := -0x8000_0000
  const MAX32: int := 0x7fff_ffff

  type Int32 = n: int | MIN32 <= n <= MAX32

  // ----- C arithmetic on 32-bit integers

  /** Unary minus wraps at the least number. */
  function Neg(n: Int32): (r: Int32) { if n == MIN32 then n else -n }

  /** Division by ten rounds towards zero, and the remainder takes the sign of the number. */
  function Quot(n: int): (q: int) { if n >= 0 then n / 10 else -((-n) / 10) }
  function Rem(n: int): (r: int)
    ensures -10 < r < 10 && n == 10 * Quot(n) + r
  {
    n - 10 * Quot(n)
  }

  // ----- itoa

  function DigitChar(r: int): (c: char)
    requires -10 < r < 10
  {
    ('0' as int + r) as char
  }

  /** The digits that the loop of itoa writes, lowest first. */
  function LowFirst(n: int): (s: string)
    decreases if n >= 0 then n else -n
  {
    if n == 0 then "" else [DigitChar(Rem(n))] + LowFirst(Quot(n))
  }

  function Reversed(s: string): (r: string)
    ensures |r| == |s|
  {
    seq(|s|, i requires 0 <= i < |s| => s[|s| - 1 - i])
  }

  /** The text that itoa leaves for `n` in base ten. */
  function Decimal(n: Int32): (s: string) {
    if n == 0 then "0"
    else if n > 0 then Reversed(LowFirst(n))
    else Reversed(LowFirst(Neg(n)) + "-")
  }

  // ----- reading a decimal back

  predicate IsDigit(c: char) { '0' <= c <= '9' }

  ghost predicate AllDigits(s: string) {
    forall i :: 0 <= i < |s| ==> IsDigit(s[i])
  }

  function Horner(s: string): (n: int) {
    if s == "" then 0 else 10 * Horner(s[..|s| - 1]) + (s[|s| - 1] as int - '0' as int)
  }

  /** `s` is a decimal numeral for `n`. */
  ghost predicate Reads(s: string, n: int) {
    if s != "" && s[0] == '-' then s != "-" && AllDigits(s[1..]) && n == -Horner(s[1..])
    else s != "" && AllDigits(s) && n == Horner(s)
  }

  lemma ReversedSnoc(x: char, s: string)
    ensures Reversed([x] + s) == Reversed(s) + [x]
  {
  }

  lemma ReversedPush(s: string, x: char)
    ensures Reversed(s + [x]) == [x] + Reversed(s)
  {
  }

  lemma {:induction false} DigitsRead(n: nat)
    ensures AllDigits(Reversed(LowFirst(n))) && Horner(Reversed(LowFirst(n))) == n && (n > 0 ==> LowFirst(n) != "")
    decreases n
  {
    if n > 0 {
      DigitsRead(Quot(n));
      var c, s := DigitChar(Rem(n)), LowFirst(Quot(n));
      ReversedSnoc(c, s);
      assert (Reversed(s) + [c])[..|s|] == Reversed(s);
    }
  }

  /** The digits of a negative number are below '0', but for those that are '0'. */
  lemma {:induction false} NegativeDigits(n: int)
    requires n < 0
    ensures !AllDigits(Reversed(LowFirst(n)))
    decreases -n
  {
    var c, s := DigitChar(Rem(n)), LowFirst(Quot(n));
    ReversedSnoc(c, s);
    if Quot(n) == 0 {
      assert LowFirst(n) == [c] && (Reversed(s) + [c])[|s|] == c && !IsDigit(c);
    } else {
      NegativeDigits(Quot(n));
      var i :| 0 <= i < |Reversed(s)| && !IsDigit(Reversed(s)[i]);
      assert (Reversed(s) + [c])[i] == Reversed(s)[i];
    }
  }

  /** The decimal text of a number reads back as that number, for every number but the least. */
  lemma DecimalReads(n: Int32)
    ensures Reads(Decimal(n), n) <==> n != MIN32
  {
    if n == 0 {
      assert "0"[..0] == "";
    } else if n > 0 {
      DigitsRead(n);
    } else {
      var s := LowFirst(Neg(n));
      ReversedPush(s, '-');
      assert (['-'] + Reversed(s))[1..] == Reversed(s);
      if n == MIN32 {
        NegativeDigits(n);
      } else {
        DigitsRead(-n);
      }
    }
  }

  /** No decimal text has a NUL or a blank in it, and none is longer than 11 characters. */
  lemma DecimalChars(n: Int32)
    ensures |Decimal(n)| <= 11 && '\0' !in Decimal(n) && ' ' !in Decimal(n)
  {
    hide LowFirst, Reversed, Pow10;
    if n != 0 {
      var m := if n < 0 then Neg(n) else n;
      TenDigits();
      DigitRange(m, 10);
      NotReversed(LowFirst(m) + "-", '\0');
      NotReversed(LowFirst(m) + "-", ' ');
      NotReversed(LowFirst(m), '\0');
      NotReversed(LowFirst(m), ' ');
    }
  }

  lemma NotReversed(s: string, c: char)
    requires forall i :: 0 <= i < |s| ==> s[i] != c
    ensures c !in Reversed(s)
  {
  }

  lemma TenDigits()
    ensures Pow10(10) == 10_000_000_000
  {
    assert Pow10(4) == 10_000;
    assert Pow10(8) == 10_000 * Pow10(4);
  }

  ghost function Pow10(k: nat): (p: int)
    ensures p > 0
  {
    if k == 0 then 1 else 10 * Pow10(k - 1)
  }

  lemma {:induction false} DigitRange(n: int, k: nat)
    requires -Pow10(k) < n < Pow10(k)
    ensures |LowFirst(n)| <= k && forall i :: 0 <= i < |LowFirst(n)| ==> '\'' <= LowFirst(n)[i] <= '9'
    decreases k
  {
    if n != 0 && k > 0 {
      DigitRange(Quot(n), k - 1);
    }
  }

  /** reverse: the first `length` characters. */
  method Reverse(str: array<char>, length: nat)
    requires length <= str.Length
    modifies str
    ensures str[..length] == Reversed(old(str[..length])) && str[length..] == old(str[length..])
  {
    var start, end := 0, length - 1;
    while start < end
      invariant 0 <= start <= end + 2 && end == length - 1 - start
      invariant forall i :: 0 <= i < start ==> str[i] == old(str[..])[length - 1 - i] && str[length - 1 - i] == old(str[..])[i]
      invariant forall i :: start <= i <= end ==> str[i] == old(str[..])[i]
      invariant forall i :: length <= i < str.Length ==> str[i] == old(str[..])[i]
    {
      str[start], str[end] := str[end], str[start];
      start := start + 1;
      end := end - 1;
    }
  }

  /** The loop of itoa: how many digits it wrote. */
  method WriteDigits(m: Int32, str: array<char>) returns (i: nat)
    requires |LowFirst(m)| <= str.Length
    modifies str
    ensures i == |LowFirst(m)| && str[..i] == LowFirst(m)
  {
    var num: int := m;
    i := 0;
    while num != 0
      invariant 0 <= i <= |LowFirst(m)| <= str.Length && str[..i] + LowFirst(num) == LowFirst(m)
      decreases if num >= 0 then num else -num
    {
      var rem := Rem(num);
      ghost var done, rest := str[..i], LowFirst(Quot(num));
      assert LowFirst(m) == done + ([DigitChar(rem)] + rest);
      assert |LowFirst(m)| == i + 1 + |rest|;
      str[i] := DigitChar(rem);
      num := Quot(num);
      i := i + 1;
      assert str[..i] == done + [DigitChar(rem)];
    }
  }

  /** itoa in base ten. */
  method Itoa(n: Int32, str: array<char>)
    requires str.Length >= 12
    modifies str
    ensures CStr(str[..]) == Decimal(n)
  {
    hide LowFirst, Reversed;
    DecimalChars(n);
    if n == 0 {
      str[0] := '0';
      str[1] := '\0';
      CStrIs(str[..], "0");
      return;
    }
    var num: Int32 := n;
    if n < 0 {
      num := Neg(num);
    }
    DigitCount(num);
    var i := WriteDigits(num, str);
    if n < 0 {
      str[i] := '-';
      i := i + 1;
      assert str[..i] == LowFirst(num) + "-";
    }
    str[i] := '\0';
    ghost var text := str[..i];
    assert str[i..][0] == '\0';
    Reverse(str, i);
    assert str[i] == str[i..][0];
    assert |Reversed(text)| == i;
    CStrIs(str[..], Decimal(n));
  }

  lemma DigitCount(n: Int32)
    ensures |LowFirst(n)| <= 10
  {
    TenDigits();
    DigitRange(n, 10);
  }

  // ----- the text of a record

  datatype Record = Record(pid: Int32, name: CString, id: int, sysname: CString, ret: Int32)

  predicate Fits(r: Record) { |r.name| <= NAME && |r.sysname| <= NAME }

  const HEAD: CString := "TRACE: pid = "
  const COMMAND: CString := " | command_name = "
  const SYSCALL: CString := " | syscall = "
  const RETURN: CString := " | return value: "

  /** The line of a record. */
  function Line(r: Record): (s: string) {
    HEAD + Decimal(r.pid) + COMMAND + r.name + SYSCALL + r.sysname + RETURN + Decimal(r.ret)
  }

  /** A line is a C string and leaves room in a row. */
  lemma LineFits(r: Record)
    requires Fits(r)
    ensures '\0' !in Line(r) && |Line(r)| < ROW
  {
    DecimalChars(r.pid);
    DecimalChars(r.ret);
  }

  function BeforeBlank(s: string): (t: string) {
    if s == "" || s[0] == ' ' then "" else [s[0]] + BeforeBlank(s[1..])
  }

  function AfterBlank(s: string): (t: string) {
    if s == "" || s[|s| - 1] == ' ' then "" else AfterBlank(s[..|s| - 1]) + [s[|s| - 1]]
  }

  lemma {:induction false} BeforeBlankIs(t: string, rest: string)
    requires ' ' !in t
    ensures BeforeBlank(t + " " + rest) == t
  {
    var s := t + " " + rest;
    if t != "" {
      BeforeBlankIs(t[1..], rest);
      assert s[1..] == t[1..] + " " + rest;
    }
  }

  lemma {:induction false} AfterBlankIs(rest: string, t: string)
    requires ' ' !in t
    ensures AfterBlank(rest + " " + t) == t
  {
    var s := rest + " " + t;
    if t != "" {
      var u := t[..|t| - 1];
      AfterBlankIs(rest, u);
      assert s[..|s| - 1] == rest + " " + u;
      assert t == u + [t[|t| - 1]];
    }
  }

  /** The pid and the return value can be read off the line, whatever the names; all but the least number. */
  lemma LineReads(r: Record)
    ensures |HEAD| <= |Line(r)| && (Reads(BeforeBlank(Line(r)[|HEAD|..]), r.pid) <==> r.pid != MIN32)
    ensures Reads(AfterBlank(Line(r)), r.ret) <==> r.ret != MIN32
  {
    hide Decimal, Reads, BeforeBlank, AfterBlank, Line;
    DecimalChars(r.pid);
    DecimalChars(r.ret);
    DecimalReads(r.pid);
    DecimalReads(r.ret);
    FirstField(r);
    LastField(r);
  }

  lemma FirstField(r: Record)
    ensures |HEAD| <= |Line(r)| && BeforeBlank(Line(r)[|HEAD|..]) == Decimal(r.pid)
  {
    hide Decimal, BeforeBlank;
    DecimalChars(r.pid);
    var tail := COMMAND[1..] + r.name + SYSCALL + r.sysname + RETURN + Decimal(r.ret);
    assert COMMAND == " " + COMMAND[1..];
    assert Line(r)[|HEAD|..] == Decimal(r.pid) + " " + tail;
    BeforeBlankIs(Decimal(r.pid), tail);
  }

  lemma LastField(r: Record)
    ensures AfterBlank(Line(r)) == Decimal(r.ret)
  {
    hide Decimal, AfterBlank;
    DecimalChars(r.ret);
    var head := HEAD + Decimal(r.pid) + COMMAND + r.name + SYSCALL + r.sysname + RETURN[..|RETURN| - 1];
    assert RETURN == RETURN[..|RETURN| - 1] + " ";
    assert Line(r) == head + " " + Decimal(r.ret);
    AfterBlankIs(head, Decimal(r.ret));
  }

  /** The line without its return value and the words before it, and then without the system call. */
  function ThroughSyscall(line: string): (s: string) {
    var n := |line| - |AfterBlank(line)| - |RETURN|;
    if n < 0 then "" else line[..n]
  }

  function ThroughCommand(line: string): (s: string) {
    var head := ThroughSyscall(line);
    var n := |head| - |AfterBlank(head)| - |SYSCALL|;
    if n < 0 then "" else head[..n]
  }

  function SyscallIn(line: string): (s: string) { AfterBlank(ThroughSyscall(line)) }

  function CommandIn(line: string): (s: string) {
    var head := ThroughCommand(line);
    if |head| < |HEAD| then ""
    else
      var n := |HEAD| + |BeforeBlank(head[|HEAD|..])| + |COMMAND|;
      if |head| < n then "" else head[n..]
  }

  lemma {:induction false} AfterBlankHasNone(s: string)
    ensures ' ' !in AfterBlank(s)
    decreases |s|
  {
    if s != "" {
      AfterBlankHasNone(s[..|s| - 1]);
    }
  }

  /**
    The names can be read off the line too: that of the system call exactly when it has no
    blank in it, and then that of the command, whatever it is.
    */
  lemma LineNames(r: Record)
    ensures SyscallIn(Line(r)) == r.sysname <==> ' ' !in r.sysname
    ensures ' ' !in r.sysname ==> CommandIn(Line(r)) == r.name
  {
    hide Decimal, BeforeBlank, AfterBlank;
    var head := HEAD + Decimal(r.pid) + COMMAND + r.name;
    LastField(r);
    var through := head + SYSCALL + r.sysname;
    assert Line(r) == through + (RETURN + Decimal(r.ret));
    assert ThroughSyscall(Line(r)) == through;
    AfterBlankHasNone(through);
    if ' ' !in r.sysname {
      var before := head + SYSCALL[..|SYSCALL| - 1];
      assert SYSCALL == SYSCALL[..|SYSCALL| - 1] + " ";
      assert through == before + " " + r.sysname;
      AfterBlankIs(before, r.sysname);
      assert through == head + (SYSCALL + r.sysname);
      assert ThroughCommand(Line(r)) == head;
      DecimalChars(r.pid);
      assert COMMAND == " " + COMMAND[1..];
      assert head[|HEAD|..] == Decimal(r.pid) + " " + (COMMAND[1..] + r.name);
      BeforeBlankIs(Decimal(r.pid), COMMAND[1..] + r.name);
    }
  }

  /** strcat. */
  method Strcat(dest: array<char>, src: CString)
    requires Len(dest[..]) + |src| < dest.Length
    modifies dest
    ensures CStr(dest[..]) == old(CStr(dest[..])) + src
    ensures Len(dest[..]) == old(Len(dest[..])) + |src|
  {
    ghost var n, text := Len(dest[..]), CStr(dest[..]);
    var i := 0;
    while dest[i] != '\0'
      invariant 0 <= i <= n && dest[..] == old(dest[..])
      decreases n - i
    {
      i := i + 1;
    }
    var ptr := i;
    var k := 0;
    while k < |src|
      invariant 0 <= k <= |src| && ptr == n + k
      invariant dest[..ptr] == text + src[..k]
    {
      dest[ptr] := src[k];
      ptr := ptr + 1;
      k := k + 1;
    }
    dest[ptr] := '\0';
    CStrIs(dest[..], text + src);
  }

  /** strcat onto a buffer that holds `text` and what has been appended to it. */
  method Append(dest: array<char>, ghost text: string, ghost done: string, src: CString)
    requires CStr(dest[..]) == text + done && Len(dest[..]) + |src| < dest.Length
    modifies dest
    ensures CStr(dest[..]) == text + (done + src) && Len(dest[..]) == old(Len(dest[..])) + |src|
  {
    hide Len, CStr;
    Strcat(dest, src);
    assert text + done + src == text + (done + src);
  }

  /** write_trace: appends the line of a record. */
  method WriteTrace(destination: array<char>, r: Record)
    requires Fits(r) && Len(destination[..]) + |Line(r)| < destination.Length
    modifies destination
    ensures CStr(destination[..]) == old(CStr(destination[..])) + Line(r)
  {
    hide Len, CStr, Decimal;
    var temp := new char[ROW];
    ghost var text := CStr(destination[..]);
    Append(destination, text, "", HEAD);
    Itoa(r.pid, temp);
    Append(destination, text, HEAD, CStr(temp[..]));
    Append(destination, text, HEAD + Decimal(r.pid), COMMAND);
    Append(destination, text, HEAD + Decimal(r.pid) + COMMAND, r.name);
    Append(destination, text, HEAD + Decimal(r.pid) + COMMAND + r.name, SYSCALL);
    Append(destination, text, HEAD + Decimal(r.pid) + COMMAND + r.name + SYSCALL, r.sysname);
    Append(destination, text, HEAD + Decimal(r.pid) + COMMAND + r.name + SYSCALL + r.sysname, RETURN);
    Itoa(r.ret, temp);
    Append(destination, text, HEAD + Decimal(r.pid) + COMMAND + r.name + SYSCALL + r.sysname + RETURN, CStr(temp[..]));
  }

  // ----- the filter and what a history of calls keeps

  datatype Flags = Flags(e: int, f: int, s: int, watch: int)
  datatype Event = Call(r: Record) | Options(e: int, f: int, s: int) | Watch(id: int)

  /** The records that the flags let through. */
  predicate Accept(fl: Flags, r: Record) {
    && (fl.s != 0 ==> r.ret != -1)
    && (fl.s == 0 && fl.f != 0 ==> r.ret == -1)
    && (fl.e != 0 ==> r.id == fl.watch)
  }

  ghost function FlagsAfter(h: seq<Event>): (fl: Flags) {
    if h == [] then Flags(0, 0, 0, 0)
    else
      var fl := FlagsAfter(h[..|h| - 1]);
      match h[|h| - 1]
      case Call(_) => fl
      case Options(e, f, s) => Flags(e, f, s, fl.watch)
      case Watch(id) => fl.(watch := id)
  }

  /** Every record accepted in a history, oldest first. */
  ghost function Accepted(h: seq<Event>): (rs: seq<Record>) {
    if h == [] then []
    else
      var before, last := h[..|h| - 1], h[|h| - 1];
      if last.Call? && Accept(FlagsAfter(before), last.r) then Accepted(before) + [last.r] else Accepted(before)
  }

  lemma HistoryStep(h: seq<Event>, ev: Event)
    ensures FlagsAfter(h + [ev]) == match ev { case Call(_) => FlagsAfter(h) case Options(e, f, s) => Flags(e, f, s, FlagsAfter(h).watch) case Watch(id) => FlagsAfter(h).(watch := id) }
    ensures Accepted(h + [ev]) == if ev.Call? && Accept(FlagsAfter(h), ev.r) then Accepted(h) + [ev.r] else Accepted(h)
  {
    assert (h + [ev])[..|h|] == h;
  }

  /** Of `k` records, the newest that belongs in slot `j`. */
  function Newest(k: nat, j: nat): (i: nat)
    requires j < N && j < k
    ensures i < k <= i + N && i % N == j
  {
    k - 1 - (k - 1 - j) % N
  }

  /** The last ten records have a slot each. */
  lemma OneSlotEach(k: nat, i: nat)
    requires i < k <= i + N
    ensures i % N < k && Newest(k, i % N) == i
  {
  }

  class Tracer {
    const rows: seq<array<char>>        // trace_1 to trace_10
    var sysbuf: seq<array?<char>>
    var callcount: nat
    var flags: Flags
    ghost var history: seq<Event>

    /** The buffers are ten different ones. */
    ghost predicate Shape()
      reads `sysbuf
    {
      && |rows| == N && |sysbuf| == N
      && (forall j :: 0 <= j < N ==> rows[j].Length == ROW)
      && (forall i, j :: 0 <= i < j < N ==> rows[i] != rows[j])
    }

    /** Slot `j` holds the newest accepted record that belongs there, if there is one. */
    ghost predicate SlotOk(rs: seq<Record>, j: nat)
      requires Shape() && j < N
      reads `sysbuf, rows
    {
      if j < |rs| then sysbuf[j] == rows[j] && Len(rows[j][..]) < ROW && CStr(rows[j][..]) == Line(rs[Newest(|rs|, j)]) else sysbuf[j] == null
    }

    /** The ring holds the last ten records that the filter accepted, and `callcount` is one past the newest. */
    ghost predicate Valid()
      reads this, rows
    {
      && Shape() && flags == FlagsAfter(history)
      && var rs := Accepted(history);
      && callcount == (if rs == [] then 0 else (|rs| - 1) % N + 1)
      && forall j :: 0 <= j < N ==> SlotOk(rs, j)
    }

    constructor ()
      ensures Valid() && history == []
    {
      var r0, r1, r2, r3, r4 := new char[ROW], new char[ROW], new char[ROW], new char[ROW], new char[ROW];
      var r5, r6, r7, r8, r9 := new char[ROW], new char[ROW], new char[ROW], new char[ROW], new char[ROW];
      rows := [r0, r1, r2, r3, r4, r5, r6, r7, r8, r9];
      sysbuf := seq(N, _ => null);
      callcount := 0;
      flags := Flags(0, 0, 0, 0);
      history := [];
    }

    /** set_options. */
    method SetOptions(e: int, f: int, s: int)
      requires Valid()
      modifies this
      ensures Valid() && history == old(history) + [Options(e, f, s)]
    {
      hide Line;
      HistoryStep(history, Options(e, f, s));
      flags := Flags(e, f, s, flags.watch);
      history := history + [Options(e, f, s)];
      assert forall j :: 0 <= j < N ==> old(SlotOk(Accepted(history), j));
    }

    /** set_call_flag. */
    method SetCallFlag(id: int) returns (r: int)
      requires Valid()
      modifies this
      ensures Valid() && history == old(history) + [Watch(id)] && r == id
    {
      hide Line;
      HistoryStep(history, Watch(id));
      flags := flags.(watch := id);
      history := history + [Watch(id)];
      assert forall j :: 0 <= j < N ==> old(SlotOk(Accepted(history), j));
      return flags.watch;
    }

    /** store_trace: copies a message into the buffer of a slot. */
    method StoreTrace(message: array<char>, slot: nat)
      requires Shape() && slot < N && message !in rows && Len(message[..]) < ROW && Len(message[..]) < message.Length
      modifies rows[slot], this`sysbuf
      ensures sysbuf == old(sysbuf)[slot := rows[slot]]
      ensures Len(rows[slot][..]) < ROW && CStr(rows[slot][..]) == CStr(message[..])
    {
      var row := rows[slot];
      ghost var n := Len(message[..]);
      forall i | 0 <= i < ROW { row[i] := '\0'; }
      var i := 0;
      while message[i] != '\0'
        invariant 0 <= i <= n && row[..i] == message[..i]
        invariant forall j :: i <= j < ROW ==> row[j] == '\0'
        invariant message[..] == old(message[..])
        modifies row
        decreases n - i
      {
        row[i] := message[i];
        i := i + 1;
      }
      CStrIs(row[..], CStr(message[..]));
      sysbuf := sysbuf[slot := row];
    }

    /** The block that each accepting branch of record_syscall runs. */
    method Insert(r: Record)
      requires Valid() && Fits(r)
      modifies this, rows
      ensures Shape() && flags == old(flags) && history == old(history)
      ensures var rs := Accepted(history) + [r];
        callcount == (|rs| - 1) % N + 1 && forall j :: 0 <= j < N ==> SlotOk(rs, j)
    {
      hide Line, Len, CStr, Accepted, FlagsAfter;
      ghost var rs := Accepted(history);
      if callcount % N == 0 {
        callcount := 0;
      }
      NextSlot(|rs|);
      var message := new char[ROW](_ => '\0');
      LineFits(r);
      EmptyRow(message[..]);
      WriteTrace(message, r);
      RowLen(message[..], Line(r));
      assert forall j :: 0 <= j < N ==> old(SlotOk(rs, j));
      ghost var text := message[..];
      StoreTrace(message, callcount);
      assert message[..] == text;
      forall j | 0 <= j < N ensures SlotOk(rs + [r], j) {
        SlotAfter(|rs|, j);
        if j != callcount {
          assert old(SlotOk(rs, j));
          assert rows[j] != rows[callcount] && rows[j][..] == old(rows[j][..]) && sysbuf[j] == old(sysbuf)[j];
        } else {
          assert (rs + [r])[|rs|] == r;
        }
      }
      callcount := callcount + 1;
    }

    /** record_syscall, without the copy on the console. */
    method RecordSyscall(r: Record)
      requires Valid() && Fits(r)
      modifies this, rows
      ensures Valid() && history == old(history) + [Call(r)]
    {
      hide Line, Accepted, FlagsAfter, SlotOk;
      HistoryStep(history, Call(r));
      if flags.f != 0 || flags.e != 0 || flags.s != 0 {
        if flags.s != 0 {
          if r.ret != -1 {
            if flags.e != 0 {
              if flags.watch == r.id {
                Insert(r);
              }
            } else {
              Insert(r);
            }
          }
        } else if flags.f != 0 {
          if r.ret == -1 {
            if flags.e != 0 {
              if flags.watch == r.id {
                Insert(r);
              }
            } else {
              Insert(r);
            }
          }
        } else if flags.e != 0 && flags.f == 0 {
          if flags.watch == r.id {
            Insert(r);
          }
        }
      } else {
        Insert(r);
      }
      history := history + [Call(r)];
    }

    /** dump: the text of a slot that has been filled. */
    method Dump(index: nat) returns (input: string)
      requires Valid() && index < N && sysbuf[index] != null
      ensures index < |Accepted(history)| && input == Line(Accepted(history)[Newest(|Accepted(history)|, index)])
    {
      hide Line, Accepted, FlagsAfter;
      assert SlotOk(Accepted(history), index);
      var row := rows[index];
      ghost var n := Len(row[..]);
      input := "";
      var i := 0;
      while row[i] != '\0'
        invariant 0 <= i <= n && input == row[..i]
        decreases n - i
      {
        input := input + [row[i]];
        i := i + 1;
      }
    }
  }

  lemma EmptyRow(s: seq<char>)
    requires |s| == ROW && s[0] == '\0'
    ensures Len(s) == 0 && CStr(s) == ""
  {
  }

  lemma RowLen(s: seq<char>, line: string)
    requires |s| == ROW && CStr(s) == "" + line && |line| < ROW
    ensures Len(s) == |line| && CStr(s) == line
  {
    assert "" + line == line;
  }

  /** Where the next record goes. */
  lemma NextSlot(k: nat)
    ensures var c := if k == 0 then 0 else (k - 1) % N + 1;
      k % N == (if c % N == 0 then 0 else c)
  {
  }

  /** Another record moves one slot on, and leaves what is newest in the others. */
  lemma SlotAfter(k: nat, j: nat)
    requires j < N
    ensures j == k % N ==> j < k + 1 && Newest(k + 1, j) == k
    ensures j != k % N && j < k ==> Newest(k + 1, j) == Newest(k, j)
    ensures j != k % N && j >= k ==> j >= k + 1
  {
    if j < k {
      SameSlot(k, j);
      Successor(k - 1 - j);
    } else {
      assert j == k % N ==> j == k;
    }
  }

  lemma SameSlot(k: nat, j: nat)
    requires j < N && j <= k
    ensures (k - j) % N == 0 <==> j == k % N
  {
    var q, c := k / N, k % N;
    if j <= c {
      Residue(q, c - j);
      assert k - j == N * q + (c - j);
    } else {
      Residue(q - 1, N + c - j);
      assert k - j == N * (q - 1) + (N + c - j);
    }
  }

  lemma Successor(x: nat)
    ensures (x + 1) % N == if x % N == N - 1 then 0 else x % N + 1
  {
    var q, c := x / N, x % N;
    if c == N - 1 {
      Residue(q + 1, 0);
      assert x + 1 == N * (q + 1);
    } else {
      Residue(q, c + 1);
      assert x + 1 == N * q + (c + 1);
    }
  }

  lemma Residue(q: nat, r: nat)
    requires r < N
    ensures (N * q + r) % N == r
  {
  }
}
