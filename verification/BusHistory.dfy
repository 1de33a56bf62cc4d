/**
 The bus over whole histories: requests of any clients in any order, clients coming and going, and
 what one client's handler is called with in the end.
 */
module BusHistory {
  import B = Broker
  import L = LineBuffer
  import T = BusText
  import D = BusDaemon
  import opened BusClient
  import opened BusRoundTrip

  datatype Happening =
    | Line(fd: int, line: string)     // a complete line from a client
    | Joins(fd: int)
    | Leaves(fd: int)

  function Next(t: B.Table, h: Happening): B.Table {
    match h
    case Line(fd, line) => t.(subs := D.Updated(t.subs, fd, line))
    case Joins(fd) => B.Handle(t, B.Connect(fd))
    case Leaves(fd) => B.Handle(t, B.Disconnect(fd))
  }

  // What the daemon sends, all of it.
  function Sent(t: B.Table, h: Happening): seq<B.Sent> {
    if h.Line? then D.Served(t.subs, h.fd, h.line) else []
  }

  // The bytes on one client's stream after a history.
  function StreamAll(t: B.Table, hs: seq<Happening>, fd: int): string
    decreases |hs|
  {
    if hs == [] then "" else Stream(Sent(t, hs[0]), fd) + StreamAll(Next(t, hs[0]), hs[1..], fd)
  }

  // What a client is owed: every message another one publishes, once per matching entry that lists it.
  ghost function Owed(t: B.Table, h: Happening, fd: int): seq<T.Delivery> {
    if h.Line? && T.Parse(h.line).Pub? && h.fd != fd then
      var m := T.Parse(h.line);
      seq(|B.Entries(t.subs, m.topic, fd)|, i => T.Deliver(m.topic, m.payload))
    else []
  }

  ghost function OwedAll(t: B.Table, hs: seq<Happening>, fd: int): seq<T.Delivery>
    decreases |hs|
  {
    if hs == [] then [] else Owed(t, hs[0], fd) + OwedAll(Next(t, hs[0]), hs[1..], fd)
  }

  // A line as the reassembly hands it out, whose message fits the receivers.
  predicate Regular(line: string) {
    && '\n' !in line && L.NoNul(line)
    && match T.Parse(line)
       case Pub(topic, payload) => |T.PubLine(topic, payload)| + 2 <= T.MAX_LINE
       case _ => true
  }

  // Requests come from connected clients, and `fd` stays.
  predicate Admissible(t: B.Table, h: Happening, fd: int) {
    match h
    case Line(g, line) => g in t.clients && Regular(line)
    case Joins(g) => g !in t.clients
    case Leaves(g) => g in t.clients && g != fd
  }

  predicate AllAdmissible(t: B.Table, hs: seq<Happening>, fd: int)
    decreases |hs|
  {
    hs == [] || (Admissible(t, hs[0], fd) && AllAdmissible(Next(t, hs[0]), hs[1..], fd))
  }

  // ---- Lines that parse can be sent on ----

  lemma {:induction false} WordIsWord(s: string, n: nat)
    ensures T.NoSpace(T.Word(s, n)) && forall c :: c in T.Word(s, n) ==> c in s
    decreases n
  {
    if s != [] && n > 0 && !T.IsSpace(s[0]) {
      WordIsWord(s[1..], n - 1);
    }
  }

  lemma {:induction false} SkippedIsPart(s: string)
    ensures forall c :: c in T.SkipSpace(s) ==> c in s
    decreases |s|
  {
    if s != [] && T.IsSpace(s[0]) {
      SkippedIsPart(s[1..]);
    }
  }

  lemma {:induction false} AfterBlankIsPart(s: string)
    ensures forall c :: c in T.AfterBlank(s) ==> c in s
    decreases |s|
  {
    if s != [] && s[0] != ' ' {
      AfterBlankIsPart(s[1..]);
    }
  }

  lemma ParsedIsSendable(line: string)
    requires Regular(line) && T.Parse(line).Pub?
    ensures Sendable(T.Parse(line).topic, T.Parse(line).payload)
  {
    SkippedIsPart(line[3..]);
    WordIsWord(T.SkipSpace(line[3..]), T.TOPIC_SCAN);
    AfterBlankIsPart(line[4..]);
    assert forall c :: c in line[3..] ==> c in line;
    assert forall c :: c in line[4..] ==> c in line;
  }

  // ---- One step ----

  lemma StepKeeps(t: B.Table, h: Happening, fd: int)
    requires B.Valid(t) && Admissible(t, h, fd)
    ensures B.Valid(Next(t, h))
  {
    match h {
      case Line(g, line) => LineKeeps(t, g, line);
      case Joins(g) => B.ConnectValid(t, g);
      case Leaves(g) => B.DisconnectValid(t, g);
    }
  }

  lemma LineKeeps(t: B.Table, fd: int, line: string)
    requires B.Valid(t) && fd in t.clients && Regular(line)
    ensures B.Valid(t.(subs := D.Updated(t.subs, fd, line)))
  {
    var r := T.Parse(line);
    if r.Sub? {
      B.SubscribeRelation(t, fd, r.topic);
    } else if r.Unsub? {
      B.UnsubscribeRelation(t, fd, r.topic);
    }
  }

  lemma PublishOwed(t: B.Table, topic: string, payload: string, sender: int, fd: int)
    requires B.Valid(t) && Sendable(topic, payload)
    ensures var n := if fd == sender then 0 else |B.Entries(t.subs, topic, fd)|;
            Stream(B.Sends(t.subs, topic, B.Message(topic, payload), sender), fd) == Copies(n, T.PubLine(topic, payload) + "\n")
  {
    SendableLine(topic, payload);
    B.PublishExact(t.subs, topic, B.Message(topic, payload), sender, fd);
    StreamIsCopies(B.Sends(t.subs, topic, B.Message(topic, payload), sender), fd, B.Message(topic, payload));
  }

  ghost predicate Complete(s: string, ds: seq<T.Delivery>) {
    L.Split(s).tail == "" && Deliveries(L.Split(s).lines) == ds && L.LinesFit(s, 0, T.MAX_LINE)
  }

  lemma NothingSent()
    ensures Complete("", [])
  {
    L.NoMoreLines("", 0);
  }

  // A line that is no message calls no handler.
  lemma OtherLine(line: string)
    requires '\n' !in line && L.NoNul(line) && |line| + 2 <= T.MAX_LINE && !T.ReadDelivery(line).Deliver?
    ensures Complete(line + "\n", [])
  {
    OneCopy(line + "\n");
    SplitCopies(1, line);
    CopiesFit(1, line, T.MAX_LINE);
    assert seq(1, i => line) == [line];
    assert [line][1..] == [];
    assert Deliveries([line]) == [];
  }

  lemma OneCopy(msg: string)
    ensures Copies(1, msg) == msg
  {
    assert Copies(0, msg) == "";
    assert msg + "" == msg;
  }

  lemma PongIsNoDelivery()
    ensures Complete("PONG\n", [])
  {
    OtherLine("PONG");
    assert "PONG" + "\n" == "PONG\n";
  }

  lemma LineOwed(t: B.Table, sender: int, line: string, fd: int)
    requires B.Valid(t) && Regular(line) && T.Parse(line).Pub?
    ensures Complete(Stream(D.Served(t.subs, sender, line), fd), Owed(t, Line(sender, line), fd))
  {
    var m := T.Parse(line);
    ParsedIsSendable(line);
    SendableLine(m.topic, m.payload);
    PublishOwed(t, m.topic, m.payload, sender, fd);
    NothingSent();
    CopiesReceived(m.topic, m.payload, |B.Entries(t.subs, m.topic, fd)|);
  }

  lemma PingOwed(sender: int, fd: int)
    ensures Complete(Stream([B.Sent(sender, "PONG\n")], fd), [])
  {
    var pong := B.Sent(sender, "PONG\n");
    StreamFirst(pong, [], fd);
    assert [pong] + [] == [pong];
    NothingSent();
    PongIsNoDelivery();
    assert "PONG\n" + "" == "PONG\n";
  }

  lemma StepOwed(t: B.Table, h: Happening, fd: int)
    requires B.Valid(t) && Admissible(t, h, fd)
    ensures Complete(Stream(Sent(t, h), fd), Owed(t, h, fd))
  {
    if h.Line? && T.Parse(h.line).Pub? {
      LineOwed(t, h.fd, h.line, fd);
    } else if h.Line? && T.Parse(h.line).Ping? {
      PingOwed(h.fd, fd);
    } else {
      NothingSent();
    }
  }

  // ---- Histories ----

  lemma {:induction false} FitAppend(a: string, b: string, from: nat, size: nat)
    requires from <= |a| && L.SplitFrom(a, from).tail == "" && L.LinesFit(a, from, size) && L.LinesFit(b, 0, size)
    ensures L.LinesFit(a + b, from, size)
    decreases |a| - from
  {
    var i := L.FirstNewline(a, from);
    if i < |a| {
      L.NewlineAppend(a, b, from);
      FitAppend(a, b, i + 1, size);
    } else {
      FitShift(a, b, 0, size);
    }
  }

  lemma CompleteAppend(a: string, b: string, ds: seq<T.Delivery>, es: seq<T.Delivery>)
    requires Complete(a, ds) && Complete(b, es)
    ensures Complete(a + b, ds + es)
  {
    L.SplitAppend(a, b, 0);
    assert "" + b == b;
    DeliveriesAppend(L.Split(a).lines, L.Split(b).lines);
    FitAppend(a, b, 0, T.MAX_LINE);
  }

  lemma {:induction false} HistoryOwed(t: B.Table, hs: seq<Happening>, fd: int)
    requires B.Valid(t) && AllAdmissible(t, hs, fd)
    ensures Complete(StreamAll(t, hs, fd), OwedAll(t, hs, fd))
    decreases |hs|
  {
    if hs == [] {
      NothingSent();
    } else {
      StepKeeps(t, hs[0], fd);
      StepOwed(t, hs[0], fd);
      HistoryOwed(Next(t, hs[0]), hs[1..], fd);
      CompleteAppend(Stream(Sent(t, hs[0]), fd), StreamAll(Next(t, hs[0]), hs[1..], fd),
                     Owed(t, hs[0], fd), OwedAll(Next(t, hs[0]), hs[1..], fd));
    }
  }

  // ---- Behind a kept text ----

  // What the first line of the stream, or any of it, must be for a kept text to do no harm.
  predicate Unspoiled(kept: string, lines: seq<string>) {
    || kept == "" || lines == []
    || if L.NoNul(kept)
       then !T.ReadDelivery(lines[0]).Deliver? && !T.ReadDelivery(kept + lines[0]).Deliver?
       else forall i :: 0 <= i < |lines| ==> !T.ReadDelivery(lines[i]).Deliver?
  }

  lemma {:induction false} NewlineBehind(kept: string, s: string, from: nat)
    requires from <= |kept| && L.NoNul(kept) && L.FirstNewline(kept, from) == |kept|
    ensures L.FirstNewline(kept + s, from) == |kept| + L.FirstNewline(s, 0)
    decreases |kept| - from
  {
    if from < |kept| {
      assert (kept + s)[from] == kept[from] && kept[from] != '\0';
      NewlineBehind(kept, s, from + 1);
    } else {
      L.NewlineShift(kept, s, 0);
    }
  }

  lemma HasNewline(s: string)
    requires L.Split(s).lines != []
    ensures L.FirstNewline(s, 0) < |s|
  {
  }

  lemma RestBehind(kept: string, s: string, from: nat, rest: L.Pieces)
    requires from <= |s| && rest == L.SplitFrom(s, from)
    ensures rest == L.SplitFrom(kept + s, |kept| + from)
  {
    L.SplitShift(kept, s, from);
  }

  // The kept text stands in front of the first line and changes no other.
  lemma SplitBehind(kept: string, s: string, p: L.Pieces, q: L.Pieces)
    requires L.NoNul(kept) && L.FirstNewline(kept, 0) == |kept|
    requires p == L.Split(s) && q == L.Split(kept + s) && p.lines != []
    ensures q.lines == [kept + p.lines[0]] + p.lines[1..]
  {
    HasNewline(s);
    SplitBehindAt(kept, s, L.FirstNewline(s, 0), p, q);
  }

  lemma SplitBehindAt(kept: string, s: string, i: nat, p: L.Pieces, q: L.Pieces)
    requires L.NoNul(kept) && L.FirstNewline(kept, 0) == |kept| && i == L.FirstNewline(s, 0) < |s|
    requires p == L.SplitFrom(s, 0) && q == L.SplitFrom(kept + s, 0)
    ensures p.lines != [] && q.lines == [kept + p.lines[0]] + p.lines[1..]
  {
    var line, rest := s[0..i], L.SplitFrom(s, i + 1);
    NewlineBehind(kept, s, 0);
    RestBehind(kept, s, i + 1, rest);
    L.LineAt(s, 0, i, line, rest);
    LineBehind(kept, s, i, line, rest, q);
    FirstSpliced(kept, line, rest, p, q);
  }

  lemma LineBehind(kept: string, s: string, i: nat, line: string, rest: L.Pieces, q: L.Pieces)
    requires i < |s| && L.FirstNewline(kept + s, 0) == |kept| + i && line == s[0..i]
    requires rest == L.SplitFrom(kept + s, |kept| + (i + 1)) && q == L.SplitFrom(kept + s, 0)
    ensures q == L.Prepend([kept + line], rest)
  {
    SliceBehind(kept, s, i);
    L.LineAt(kept + s, 0, |kept| + i, kept + line, rest);
  }

  lemma SliceBehind(kept: string, s: string, i: nat)
    requires i <= |s|
    ensures (kept + s)[0..|kept| + i] == kept + s[0..i]
  {
  }

  lemma FirstSpliced(kept: string, line: string, rest: L.Pieces, p: L.Pieces, q: L.Pieces)
    requires p == L.Prepend([line], rest) && q == L.Prepend([kept + line], rest)
    ensures q.lines == [kept + p.lines[0]] + p.lines[1..]
  {
    assert p.lines[1..] == rest.lines;
  }

  // Reading a line loses nothing, so two lines of different lengths are different messages.
  lemma ReadIsWhole(line: string)
    requires T.ReadDelivery(line).Deliver?
    ensures var d := T.ReadDelivery(line); |line| == 5 + |d.topic| + |d.payload|
  {
  }

  lemma SplicedCalls(kept: string, line: string, rest: seq<T.Delivery>)
    requires kept != ""
    ensures Called(kept + line) + rest == Called(line) + rest <==>
            !T.ReadDelivery(line).Deliver? && !T.ReadDelivery(kept + line).Deliver?
  {
    var a, b := Called(kept + line), Called(line);
    if a != [] && b != [] {
      ReadIsWhole(line);
      ReadIsWhole(kept + line);
      assert (a + rest)[0] != (b + rest)[0];
    } else {
      assert |a + rest| == |a| + |rest| && |b + rest| == |b| + |rest|;
    }
  }

  lemma {:induction false} NothingCalled(lines: seq<string>)
    ensures Deliveries(lines) == [] <==> forall i :: 0 <= i < |lines| ==> !T.ReadDelivery(lines[i]).Deliver?
    decreases |lines|
  {
    if lines != [] {
      NothingCalled(lines[1..]);
      assert forall i :: 0 < i < |lines| ==> lines[i] == lines[1..][i - 1];
    }
  }

  // Whole lines behind a kept text call the handler as without it, or not.
  lemma CalledBehind(kept: string, s: string)
    requires L.FirstNewline(kept, 0) == |kept| && L.Split(s).tail == ""
    ensures Deliveries(L.Split(kept + s).lines) == Deliveries(L.Split(s).lines) <==> Unspoiled(kept, L.Split(s).lines)
  {
    var lines := L.Split(s).lines;
    if kept == "" {
      assert kept + s == s;
    } else if lines == [] {
      assert s == "" && kept + s == kept;
      L.NoMoreLines(kept, 0);
    } else if L.NoNul(kept) {
      SplitBehind(kept, s, L.Split(s), L.Split(kept + s));
      DeliveriesFirst(kept + lines[0], lines[1..]);
      DeliveriesFirst(lines[0], lines[1..]);
      assert lines == [lines[0]] + lines[1..];
      SplicedCalls(kept, lines[0], Deliveries(lines[1..]));
    } else {
      NulBlocks(kept, s, 0);
      L.NoMoreLines(kept + s, 0);
      NothingCalled(lines);
    }
  }

  /**
   Over any history of requests, joins and leaves, a client that stays has its handler called with
   exactly what each publish owed it, in order, however its stream is cut - unless its buffer had
   kept a text before, whose joining the first line takes a message or makes one, or whose NUL
   hides them all. Its stream fits an empty buffer.
   */
  lemma HistoryDelivered(t: B.Table, hs: seq<Happening>, fd: int, kept: string, chunks: seq<string>)
    requires B.Valid(t) && AllAdmissible(t, hs, fd)
    requires L.FirstNewline(kept, 0) == |kept| && L.Concat(chunks) == StreamAll(t, hs, fd)
    ensures Deliveries(L.Feed(kept, chunks).lines) == OwedAll(t, hs, fd) <==>
            Unspoiled(kept, L.Split(StreamAll(t, hs, fd)).lines)
    ensures kept == "" ==> L.Feed(kept, chunks).tail == "" && L.LinesFit(L.Concat(chunks), 0, T.MAX_LINE)
  {
    HistoryOwed(t, hs, fd);
    L.ChunkingIndependent(kept, chunks);
    CalledBehind(kept, L.Concat(chunks));
    assert kept == "" ==> kept + L.Concat(chunks) == L.Concat(chunks);
  }
}
