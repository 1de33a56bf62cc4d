/**
 The boot log of `libbb/bb_persist.c`: a line per boot, printed and scanned back.
 */
module BootLog {
  import opened Options
  import opened TextLines
  import opened Json

  const ROOM: nat := 255           // what fgets takes at most into its 256 bytes
  const U32: nat := 0x1_0000_0000
  const U64: nat := 0x1_0000_0000_0000_0000

  datatype Entry = Entry(timestamp: nat, slot: char, success: int, bootMs: nat)

  // The values the C types can hold.
  predicate InRange(e: Entry) {
    e.timestamp < U64 && -0x8000_0000 <= e.success < 0x8000_0000 && e.bootMs < U32
  }

  // "%llu %c %d %u\n"
  function LogLine(e: Entry): string {
    Digits(e.timestamp) + (" " + ([e.slot] + (" " + (Decimal(e.success) + (" " + (Digits(e.bootMs) + "\n"))))))
  }

  /** The fields stand in the order of the format: time, slot, success, boot time. */
  lemma LineExample()
    ensures LogLine(Entry(12, 'b', -1, 345)) == "12 b -1 345\n"
  {
    assert Digits(12) == "12" && Digits(345) == "345" && Decimal(-1) == "-1";
  }

  // ---- sscanf ----

  function SkipSpace(s: string): string {
    if s != [] && IsSpace(s[0]) then SkipSpace(s[1..]) else s
  }

  function PastDigits(s: string): string {
    if s != [] && IsDigit(s[0]) then PastDigits(s[1..]) else s
  }

  datatype Scan = Scan(value: int, rest: string)

  // White space, a sign, and at least one digit: %d, and before reduction %u and %llu.
  function ScanNumber(s: string): Option<Scan> {
    var t := SkipSpace(s);
    var signed := t != [] && (t[0] == '-' || t[0] == '+');
    var d := if signed then t[1..] else t;
    if d == [] || !IsDigit(d[0]) then None
    else
      var v := LeadingDigits(d, 0);
      Some(Scan(if signed && t[0] == '-' then 0 - v else v, PastDigits(d)))
  }

  // The four items of "%llu %c %d %u", or nothing when fewer were assigned.
  function ScanLine(line: string): Option<Entry> {
    match ScanNumber(line)
    case None => None
    case Some(ts) =>
      var c := SkipSpace(ts.rest);
      if c == [] then None else ScanCounts(ts.value % U64, c[0], c[1..])
  }

  function ScanCounts(timestamp: nat, slot: char, s: string): Option<Entry> {
    match ScanNumber(s)
    case None => None
    case Some(ok) =>
      match ScanNumber(ok.rest)
      case None => None
      case Some(ms) => Some(Entry(timestamp, slot, ok.value, ms.value % U32))
  }

  // bb_persist_boot_log_read: lines that do not scan are passed over, until there are enough
  function Entries(lines: seq<string>, max: nat): seq<Entry> {
    if lines == [] || max == 0 then []
    else
      match ScanLine(lines[0])
      case None => Entries(lines[1..], max)
      case Some(e) => [e] + Entries(lines[1..], max - 1)
  }

  // ---- A line scans back ----

  lemma {:induction false} PastAll(d: string, rest: string)
    requires (forall i :: 0 <= i < |d| ==> IsDigit(d[i])) && (rest == [] || !IsDigit(rest[0]))
    ensures PastDigits(d + rest) == rest
    decreases |d|
  {
    if d == [] {
      assert d + rest == rest;
    } else {
      assert (d + rest)[0] == d[0] && (d + rest)[1..] == d[1..] + rest;
      PastAll(d[1..], rest);
    }
  }

  lemma SpaceSkipped(s: string)
    ensures SkipSpace(" " + s) == SkipSpace(s)
  {
    assert (" " + s)[1..] == s;
  }

  lemma NoSpace(s: string)
    requires s == [] || !IsSpace(s[0])
    ensures SkipSpace(s) == s
  {
  }

  lemma {:induction false} SkippedIsNotSpace(s: string)
    ensures SkipSpace(s) == [] || !IsSpace(SkipSpace(s)[0])
    decreases |s|
  {
    if s != [] && IsSpace(s[0]) {
      SkippedIsNotSpace(s[1..]);
    }
  }

  lemma DigitsScan(n: nat, rest: string)
    requires rest == [] || !IsDigit(rest[0])
    ensures ScanNumber(Digits(n) + rest) == Some(Scan(n, rest))
  {
    var t := Digits(n) + rest;
    assert t[0] == Digits(n)[0];
    NoSpace(t);
    DigitsParse(n, rest);
    StopsAt(rest, n);
    PastAll(Digits(n), rest);
  }

  lemma MinusScan(n: nat, rest: string)
    requires rest == [] || !IsDigit(rest[0])
    ensures ScanNumber("-" + (Digits(n) + rest)) == Some(Scan(0 - n, rest))
  {
    var d := Digits(n) + rest;
    var t := "-" + d;
    assert t[0] == '-' && t[1..] == d && d[0] == Digits(n)[0];
    NoSpace(t);
    DigitsParse(n, rest);
    StopsAt(rest, n);
    PastAll(Digits(n), rest);
  }

  lemma DecimalScan(n: int, rest: string)
    requires rest == [] || !IsDigit(rest[0])
    ensures ScanNumber(Decimal(n) + rest) == Some(Scan(n, rest))
  {
    if n < 0 {
      assert Decimal(n) + rest == "-" + (Digits(-n) + rest);
      MinusScan(-n, rest);
    } else {
      DigitsScan(n, rest);
    }
  }

  lemma SpaceScan(s: string)
    ensures ScanNumber(" " + s) == ScanNumber(s)
  {
    SpaceSkipped(s);
  }

  lemma SpacedDecimal(n: int, rest: string)
    requires rest == [] || !IsDigit(rest[0])
    ensures ScanNumber(" " + (Decimal(n) + rest)) == Some(Scan(n, rest))
  {
    SpaceScan(Decimal(n) + rest);
    DecimalScan(n, rest);
  }

  lemma SpacedDigits(n: nat, rest: string)
    requires rest == [] || !IsDigit(rest[0])
    ensures ScanNumber(" " + (Digits(n) + rest)) == Some(Scan(n, rest))
  {
    SpaceScan(Digits(n) + rest);
    DigitsScan(n, rest);
  }

  lemma CountsFrom(timestamp: nat, slot: char, s: string, success: int, rest: string, bootMs: nat, end: string)
    requires ScanNumber(s) == Some(Scan(success, rest)) && ScanNumber(rest) == Some(Scan(bootMs, end)) && bootMs < U32
    ensures ScanCounts(timestamp, slot, s) == Some(Entry(timestamp, slot, success, bootMs))
  {
  }

  lemma CountsScan(timestamp: nat, slot: char, success: int, bootMs: nat)
    requires bootMs < U32
    ensures ScanCounts(timestamp, slot, " " + (Decimal(success) + (" " + (Digits(bootMs) + "\n")))) ==
              Some(Entry(timestamp, slot, success, bootMs))
  {
    var last := " " + (Digits(bootMs) + "\n");
    SpacedDecimal(success, last);
    SpacedDigits(bootMs, "\n");
    CountsFrom(timestamp, slot, " " + (Decimal(success) + last), success, last, bootMs, "\n");
  }

  lemma SlotSkipped(slot: char, rest: string)
    requires !IsSpace(slot)
    ensures var c := SkipSpace(" " + ([slot] + rest)); c != [] && c[0] == slot && c[1..] == rest
  {
    SpaceSkipped([slot] + rest);
    NoSpace([slot] + rest);
    assert ([slot] + rest)[1..] == rest;
  }

  lemma ScannedSlot(line: string)
    ensures ScanLine(line).Some? ==> !IsSpace(ScanLine(line).value.slot)
  {
    if ScanNumber(line).Some? {
      SkippedIsNotSpace(ScanNumber(line).value.rest);
    }
  }

  lemma SpacedSlotScans(e: Entry)
    requires InRange(e) && !IsSpace(e.slot)
    ensures ScanLine(LogLine(e)) == Some(e)
  {
    var counts := " " + (Decimal(e.success) + (" " + (Digits(e.bootMs) + "\n")));
    DigitsScan(e.timestamp, " " + ([e.slot] + counts));
    SlotSkipped(e.slot, counts);
    CountsScan(e.timestamp, e.slot, e.success, e.bootMs);
  }

  lemma {:induction false} VisibleStops(a: string, rest: string)
    requires '\0' !in a
    ensures Visible(a + (['\0'] + rest)) == a
    decreases |a|
  {
    if a != [] {
      assert (a + (['\0'] + rest))[1..] == a[1..] + (['\0'] + rest);
      VisibleStops(a[1..], rest);
    }
  }

  predicate NoNul(s: string) {
    '\0' !in s
  }

  lemma NoNulJoins(a: string, b: string)
    requires NoNul(a) && NoNul(b)
    ensures NoNul(a + b)
  {
  }

  lemma NoNulNumber(n: int)
    ensures NoNul(Decimal(n)) && (n >= 0 ==> NoNul(Digits(n)))
  {
  }

  lemma LineWithoutNul(e: Entry)
    requires e.slot != '\0'
    ensures NoNul(LogLine(e))
  {
    NoNulNumber(e.timestamp);
    NoNulNumber(e.success);
    NoNulNumber(e.bootMs);
    var p3 := Digits(e.bootMs) + "\n";
    var p2 := Decimal(e.success) + (" " + p3);
    NoNulJoins(Digits(e.bootMs), "\n");
    NoNulJoins(" ", p3);
    NoNulJoins(Decimal(e.success), " " + p3);
    NoNulJoins(" ", p2);
    NoNulJoins([e.slot], " " + p2);
    NoNulJoins(" ", [e.slot] + (" " + p2));
    NoNulJoins(Digits(e.timestamp), " " + ([e.slot] + (" " + p2)));
  }

  // A NUL ends the line behind its first number, and one item is too few.
  lemma NulSlotFails(e: Entry)
    requires e.slot == '\0'
    ensures ScanLine(Visible(LogLine(e))) == None
  {
    var front := Digits(e.timestamp) + " ";
    var counts := " " + (Decimal(e.success) + (" " + (Digits(e.bootMs) + "\n")));
    NoNulNumber(e.timestamp);
    NoNulJoins(Digits(e.timestamp), " ");
    VisibleStops(front, counts);
    NulLine(Digits(e.timestamp), counts);
    OneItem(e.timestamp);
  }

  lemma NulLine(first: string, rest: string)
    ensures first + (" " + (['\0'] + rest)) == (first + " ") + (['\0'] + rest)
  {
  }

  lemma OneItem(n: nat)
    ensures ScanLine(Digits(n) + " ") == None
  {
    DigitsScan(n, " ");
    assert " "[1..] == "" && SkipSpace(" ") == SkipSpace("");
  }

  /** A line reads back to its entry exactly when the slot letter is neither white space nor NUL. */
  lemma LineScans(e: Entry)
    requires InRange(e)
    ensures ScanLine(Visible(LogLine(e))) == Some(e) <==> !IsSpace(e.slot) && e.slot != '\0'
  {
    if e.slot == '\0' {
      NulSlotFails(e);
    } else if IsSpace(e.slot) {
      ScannedSlot(Visible(LogLine(e)));
    } else {
      LineWithoutNul(e);
      SpacedSlotScans(e);
    }
  }

  // ---- The log ----

  function Pow10(k: nat): nat {
    if k == 0 then 1 else 10 * Pow10(k - 1)
  }

  lemma {:induction false} DigitsLength(n: nat, k: nat)
    requires k > 0 && n < Pow10(k)
    ensures |Digits(n)| <= k
    decreases k
  {
    if n >= 10 {
      DigitsLength(n / 10, k - 1);
    }
  }

  lemma PowTwenty()
    ensures Pow10(20) == 100_000_000_000_000_000_000
  {
    assert Pow10(4) == 10_000;
    assert Pow10(6) == 100 * Pow10(4);
    assert Pow10(8) == 100 * Pow10(6);
    assert Pow10(10) == 100 * Pow10(8);
    assert Pow10(12) == 100 * Pow10(10);
    assert Pow10(14) == 100 * Pow10(12);
    assert Pow10(16) == 100 * Pow10(14);
    assert Pow10(18) == 100 * Pow10(16);
  }

  function LineBody(e: Entry): string {
    Digits(e.timestamp) + (" " + ([e.slot] + (" " + (Decimal(e.success) + (" " + Digits(e.bootMs))))))
  }

  lemma BodyLength(e: Entry)
    requires InRange(e)
    ensures |LineBody(e)| <= 66
  {
    PowTwenty();
    DigitsLength(e.timestamp, 20);
    DigitsLength(e.bootMs, 20);
    DigitsLength(if e.success < 0 then -e.success else e.success, 20);
  }

  predicate OneLine(s: string) {
    '\n' !in s
  }

  lemma OneLineJoins(a: string, b: string)
    requires OneLine(a) && OneLine(b)
    ensures OneLine(a + (" " + b))
  {
  }

  lemma BodyIsOneLine(e: Entry)
    requires e.slot != '\n'
    ensures OneLine(LineBody(e))
  {
    OneLineJoins(Decimal(e.success), Digits(e.bootMs));
    OneLineJoins([e.slot], Decimal(e.success) + (" " + Digits(e.bootMs)));
    OneLineJoins(Digits(e.timestamp), [e.slot] + (" " + (Decimal(e.success) + (" " + Digits(e.bootMs)))));
  }

  lemma LineIsWhole(e: Entry)
    requires InRange(e) && e.slot != '\n'
    ensures Whole(LogLine(e), ROOM)
  {
    BodyLength(e);
    BodyIsOneLine(e);
    var body := LineBody(e);
    assert LogLine(e) == body + "\n";
    assert (body + "\n")[..|body|] == body;
  }

  function LogLines(es: seq<Entry>): seq<string> {
    if es == [] then [] else [LogLine(es[0])] + LogLines(es[1..])
  }

  predicate Recorded(e: Entry) {
    InRange(e) && !IsSpace(e.slot)
  }

  // The entries whose lines scan: a NUL for a slot letter loses the entry.
  function Readable(es: seq<Entry>): seq<Entry> {
    if es == [] then [] else (if es[0].slot == '\0' then [] else [es[0]]) + Readable(es[1..])
  }

  lemma {:induction false} LogLinesWhole(es: seq<Entry>)
    requires forall i :: 0 <= i < |es| ==> Recorded(es[i])
    ensures AllWhole(LogLines(es), ROOM)
    decreases |es|
  {
    if es != [] {
      LineIsWhole(es[0]);
      LogLinesWhole(es[1..]);
    }
  }

  function Firsts(es: seq<Entry>, max: nat): seq<Entry> {
    es[..if |es| < max then |es| else max]
  }

  lemma EntriesScanned(line: string, lines: seq<string>, e: Entry, es: seq<Entry>, max: nat)
    requires ScanLine(line) == Some(e) && max > 0 && Entries(lines, max - 1) == Firsts(es, max - 1)
    ensures Entries([line] + lines, max) == Firsts([e] + es, max)
  {
    assert ([line] + lines)[1..] == lines;
  }

  lemma EntriesPassed(line: string, lines: seq<string>, max: nat)
    requires ScanLine(line) == None
    ensures Entries([line] + lines, max) == Entries(lines, max)
  {
    assert ([line] + lines)[1..] == lines;
  }

  lemma {:induction false} LogLinesRead(es: seq<Entry>, max: nat)
    requires forall i :: 0 <= i < |es| ==> Recorded(es[i])
    ensures Entries(AllVisible(LogLines(es)), max) == Firsts(Readable(es), max)
    decreases |es|
  {
    if es != [] {
      var line, lines := Visible(LogLine(es[0])), AllVisible(LogLines(es[1..]));
      VisibleFirst(es);
      if es[0].slot == '\0' {
        NulSlotFails(es[0]);
        EntriesPassed(line, lines, max);
        LogLinesRead(es[1..], max);
        assert [] + Readable(es[1..]) == Readable(es[1..]);
      } else if max > 0 {
        LineScans(es[0]);
        LogLinesRead(es[1..], max - 1);
        EntriesScanned(line, lines, es[0], Readable(es[1..]), max);
      }
    }
  }

  lemma VisibleFirst(es: seq<Entry>)
    requires es != []
    ensures AllVisible(LogLines(es)) == [Visible(LogLine(es[0]))] + AllVisible(LogLines(es[1..]))
  {
    var rest := LogLines(es[1..]);
    assert ([LogLine(es[0])] + rest)[1..] == rest;
  }

  /** Reading a log gives back its first readable entries, in order, as many as are asked for. */
  lemma LogReads(es: seq<Entry>, max: nat)
    requires forall i :: 0 <= i < |es| ==> Recorded(es[i])
    ensures Entries(CutLines(Joined(LogLines(es)), 255), max) == Firsts(Readable(es), max)
  {
    LogLinesRead(es, max);
    LogLinesWhole(es);
    LinesOfJoined(LogLines(es), ROOM);
  }

  // No white space is ever read for a slot letter.
  lemma {:induction false} EntriesSlots(lines: seq<string>, max: nat)
    ensures forall e :: e in Entries(lines, max) ==> !IsSpace(e.slot)
    decreases |lines|
  {
    if lines != [] && max > 0 {
      ScannedSlot(lines[0]);
      EntriesSlots(lines[1..], max);
      EntriesSlots(lines[1..], max - 1);
    }
  }

  lemma {:induction false} ReadableSlots(es: seq<Entry>)
    ensures Readable(es) == es <==> forall i :: 0 <= i < |es| ==> es[i].slot != '\0'
    ensures |Readable(es)| <= |es|
    decreases |es|
  {
    if es != [] {
      ReadableSlots(es[1..]);
      assert forall i :: 0 < i < |es| ==> es[i] == es[1..][i - 1];
      if es[0].slot == '\0' {
        assert |Readable(es)| < |es|;
      } else {
        assert Readable(es)[1..] == Readable(es[1..]);
      }
    }
  }

  /** A whole log reads back as it was written exactly when no slot letter is white space or NUL. */
  lemma WholeLogReads(es: seq<Entry>, max: nat)
    requires (forall i :: 0 <= i < |es| ==> InRange(es[i])) && |es| <= max
    ensures Entries(CutLines(Joined(LogLines(es)), 255), max) == es <==>
            forall i :: 0 <= i < |es| ==> !IsSpace(es[i].slot) && es[i].slot != '\0'
  {
    var read := Entries(CutLines(Joined(LogLines(es)), ROOM), max);
    if i :| 0 <= i < |es| && IsSpace(es[i].slot) {
      EntriesSlots(CutLines(Joined(LogLines(es)), ROOM), max);
      assert es[i] !in read;
    } else {
      LogReads(es, max);
      ReadableSlots(es);
    }
  }

  lemma {:induction false} LogLinesSnoc(es: seq<Entry>, e: Entry)
    ensures LogLines(es + [e]) == LogLines(es) + [LogLine(e)]
    decreases |es|
  {
    if es == [] {
      assert (es + [e])[1..] == [];
    } else {
      assert (es + [e])[1..] == es[1..] + [e];
      LogLinesSnoc(es[1..], e);
    }
  }

  class Log {
    var file: Option<string>

    // bb_persist_boot_log_add
    method Add(e: Entry, opens: bool) returns (rc: int)
      modifies this
      ensures rc == if opens then 0 else -1
      ensures file == if opens then Some((if old(file).Some? then old(file).value else "") + LogLine(e)) else old(file)
      ensures forall es :: opens && old(file) == Some(Joined(LogLines(es))) ==> file == Some(Joined(LogLines(es + [e])))
    {
      if !opens {
        return -1;
      }
      ghost var was := file;
      file := Some((if file.Some? then file.value else "") + LogLine(e));
      forall es | was == Some(Joined(LogLines(es))) ensures file == Some(Joined(LogLines(es + [e]))) {
        LogLinesSnoc(es, e);
        JoinedAppend(LogLines(es), [LogLine(e)]);
        JoinedOne(LogLine(e));
      }
      rc := 0;
    }

    // bb_persist_boot_log_read
    method Read(max: nat) returns (entries: seq<Entry>)
      ensures entries == if file.None? then [] else Entries(CutLines(file.value, 255), max)
    {
      entries := [];
      if file.None? {
        return;
      }
      var rest := file.value;
      while |entries| < max && rest != []
        invariant |entries| <= max
        invariant entries + Entries(CutLines(rest, ROOM), max - |entries|) == Entries(CutLines(file.value, ROOM), max)
        decreases |rest|
      {
        var line, more := Fgets(rest, ROOM);
        EntriesFirst(line, CutLines(more, ROOM), entries, max);
        var e := ScanLine(line);
        if e.Some? {
          entries := entries + [e.value];
        }
        rest := more;
      }
      assert entries + [] == entries;
    }
  }

  lemma EntriesFirst(line: string, lines: seq<string>, before: seq<Entry>, max: nat)
    requires |before| < max
    ensures before + Entries([line] + lines, max - |before|) ==
              match ScanLine(line)
              case None => before + Entries(lines, max - |before|)
              case Some(e) => before + [e] + Entries(lines, max - |before + [e]|)
  {
    assert ([line] + lines)[1..] == lines;
    match ScanLine(line)
    case None =>
    case Some(e) => assert before + ([e] + Entries(lines, max - |before| - 1)) == before + [e] + Entries(lines, max - |before| - 1);
  }
}
