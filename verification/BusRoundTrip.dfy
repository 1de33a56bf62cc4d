/**
 A message from publisher to subscriber: bb_bus_publish formats a line, the daemon reassembles and
 parses it and sends it to the matching clients, and bb_bus_poll reassembles and delivers it.
 */
module BusRoundTrip {
  import B = Broker
  import L = LineBuffer
  import T = BusText
  import D = BusDaemon
  import opened BusClient

  // A topic of one word and a payload of one line that survive both ends' buffers.
  ghost predicate Sendable(topic: string, payload: string) {
    && topic != [] && T.NoSpace(topic) && |topic| <= T.TOPIC_SCAN && L.NoNul(topic)
    && '\n' !in payload && L.NoNul(payload)
    && |T.PubLine(topic, payload)| + 2 <= T.MAX_LINE
  }

  lemma {:induction false} NoNewline(s: string, from: nat)
    requires from <= |s| && '\n' !in s
    ensures L.FirstNewline(s, from) == |s|
    decreases |s| - from
  {
    if from < |s| {
      NoNewline(s, from + 1);
    }
  }

  lemma {:induction false} NewlineAtEnd(line: string, rest: string, from: nat)
    requires from <= |line| && '\n' !in line && L.NoNul(line)
    ensures L.FirstNewline(line + "\n" + rest, from) == |line|
    decreases |line| - from
  {
    var s := line + "\n" + rest;
    if from < |line| {
      assert s[from] == line[from];
      NewlineAtEnd(line, rest, from + 1);
    } else {
      assert s[from] == '\n';
    }
  }

  // One complete line in front of a text.
  lemma SplitLine(line: string, rest: string)
    requires '\n' !in line && L.NoNul(line)
    ensures L.Split(line + "\n" + rest) == L.Prepend([line], L.Split(rest))
  {
    var s := line + "\n" + rest;
    NewlineAtEnd(line, rest, 0);
    assert s[0..|line|] == line;
    assert s == (line + "\n") + rest;
    L.SplitShift(line + "\n", rest, 0);
    L.FirstLine(s, 0, line);
  }

  function Copies(n: nat, msg: string): string {
    if n == 0 then "" else msg + Copies(n - 1, msg)
  }

  lemma CopiesFirst(n: nat, msg: string)
    requires n > 0
    ensures Copies(n, msg) == msg + Copies(n - 1, msg)
  {
  }

  lemma {:induction false} SplitCopies(n: nat, line: string)
    requires '\n' !in line && L.NoNul(line)
    ensures L.Split(Copies(n, line + "\n")) == L.Pieces(seq(n, i => line), "")
  {
    if n == 0 {
      L.NoMoreLines("", 0);
    } else {
      SplitCopies(n - 1, line);
      CopiesFirst(n, line + "\n");
      SplitLine(line, Copies(n - 1, line + "\n"));
      assert [line] + seq(n - 1, i => line) == seq(n, i => line);
    }
  }

  /** Such a stream never fills a buffer that its line, newline and terminator fit. */
  lemma {:induction false} CopiesFit(n: nat, line: string, size: nat)
    requires '\n' !in line && L.NoNul(line) && |line| + 2 <= size
    ensures L.LinesFit(Copies(n, line + "\n"), 0, size)
  {
    if n > 0 {
      var rest := Copies(n - 1, line + "\n");
      CopiesFit(n - 1, line, size);
      NewlineAtEnd(line, rest, 0);
      assert Copies(n, line + "\n") == line + "\n" + rest == (line + "\n") + rest;
      FitShift(line + "\n", rest, 0, size);
    }
  }

  lemma {:induction false} FitShift(x: string, y: string, from: nat, size: nat)
    requires from <= |y| && L.LinesFit(y, from, size)
    ensures L.LinesFit(x + y, |x| + from, size)
    decreases |y| - from
  {
    L.NewlineShift(x, y, from);
    var i := L.FirstNewline(y, from);
    if i < |y| {
      FitShift(x, y, i + 1, size);
    }
  }

  lemma {:induction false} DeliverCopies(n: nat, topic: string, payload: string)
    requires T.NoSpace(topic)
    ensures Deliveries(seq(n, i => T.PubLine(topic, payload))) == seq(n, i => T.Deliver(topic, payload))
  {
    if n > 0 {
      DeliverCopies(n - 1, topic, payload);
      T.DeliveryInvertsPub(topic, payload);
      assert seq(n, i => T.PubLine(topic, payload))[1..] == seq(n - 1, i => T.PubLine(topic, payload));
    }
  }

  lemma SendableLine(topic: string, payload: string)
    requires Sendable(topic, payload)
    ensures '\n' !in T.PubLine(topic, payload) && L.NoNul(T.PubLine(topic, payload))
    ensures T.ClientBytes(topic, payload) == B.Message(topic, payload) == T.PubLine(topic, payload) + "\n"
    ensures |B.Message(topic, payload)| < B.BUF_SIZE
  {
    forall i | 0 <= i < |topic| ensures topic[i] != '\n' {
      assert !T.IsSpace(topic[i]);
    }
  }

  /**
   Publisher to daemon: however the stream is cut, one call of bb_bus_publish is one request with
   the identical topic and payload - or none at all if the payload is blank throughout.
   */
  lemma PublishArrives(topic: string, payload: string, chunks: seq<string>)
    requires Sendable(topic, payload) && L.Concat(chunks) == T.ClientBytes(topic, payload)
    ensures L.Feed("", chunks) == L.Pieces([T.PubLine(topic, payload)], "")
    ensures T.Parse(T.PubLine(topic, payload)) == if T.AllSpace(payload) then T.Ignored else T.Pub(topic, payload)
  {
    var line := T.PubLine(topic, payload);
    SendableLine(topic, payload);
    L.ChunkingIndependent("", chunks);
    SplitCopies(1, line);
    assert Copies(1, line + "\n") == line + "\n" by {
      assert Copies(0, line + "\n") == "";
    }
    assert "" + L.Concat(chunks) == L.Concat(chunks);
    assert seq(1, i => line) == [line];
    T.ParseInvertsPub(topic, payload);
  }

  // The bytes that a list of sends puts on one descriptor's stream.
  function Stream(sends: seq<B.Sent>, fd: int): string {
    if sends == [] then ""
    else (if sends[0].fd == fd then sends[0].msg else "") + Stream(sends[1..], fd)
  }

  lemma StreamFirst(first: B.Sent, rest: seq<B.Sent>, fd: int)
    ensures Stream([first] + rest, fd) == (if first.fd == fd then first.msg else "") + Stream(rest, fd)
  {
    assert ([first] + rest)[1..] == rest;
  }

  lemma CountFirst(first: B.Sent, rest: seq<B.Sent>, m: B.Sent)
    ensures multiset([first] + rest)[m] == multiset(rest)[m] + if first == m then 1 else 0
  {
    assert multiset([first] + rest) == multiset{first} + multiset(rest);
  }

  lemma {:induction false} StreamIsCopies(sends: seq<B.Sent>, fd: int, msg: string)
    requires forall m :: m in sends ==> m.msg == msg
    ensures Stream(sends, fd) == Copies(multiset(sends)[B.Sent(fd, msg)], msg)
    decreases |sends|
  {
    if sends != [] {
      var first, rest := sends[0], sends[1..];
      assert sends == [first] + rest;
      StreamFirst(first, rest, fd);
      CountFirst(first, rest, B.Sent(fd, msg));
      StreamIsCopies(rest, fd, msg);
      OneMoreCopy(first, Stream(rest, fd), fd, msg, multiset(rest)[B.Sent(fd, msg)]);
    }
  }

  lemma OneMoreCopy(first: B.Sent, stream: string, fd: int, msg: string, n: nat)
    requires first.msg == msg && stream == Copies(n, msg)
    ensures (if first.fd == fd then first.msg else "") + stream == Copies(n + if first == B.Sent(fd, msg) then 1 else 0, msg)
  {
  }

  // ---- What an earlier connection left in the receive buffer ----

  // The kept tail has no newline in front of any NUL; without a NUL it has none at all.
  lemma {:induction false} KeptHasNoNewline(kept: string, from: nat)
    requires from <= |kept| && L.FirstNewline(kept, from) == |kept| && L.NoNul(kept)
    ensures forall i :: from <= i < |kept| ==> kept[i] != '\n'
    decreases |kept| - from
  {
    if from < |kept| {
      assert kept[from] != '\0';
      KeptHasNoNewline(kept, from + 1);
    }
  }

  // Behind a NUL no newline is ever found.
  lemma {:induction false} NulBlocks(kept: string, rest: string, from: nat)
    requires from <= |kept| && L.FirstNewline(kept, from) == |kept| && exists i :: from <= i < |kept| && kept[i] == '\0'
    ensures L.FirstNewline(kept + rest, from) == |kept + rest|
    decreases |kept| - from
  {
    assert (kept + rest)[from] == kept[from];
    if kept[from] != '\0' {
      NulBlocks(kept, rest, from + 1);
    }
  }

  // A line behind a kept tail does not read as the message that was sent.
  lemma SplicedIsAnother(kept: string, topic: string, payload: string)
    requires kept != ""
    ensures T.ReadDelivery(kept + T.PubLine(topic, payload)) != T.Deliver(topic, payload)
  {
    var line := kept + T.PubLine(topic, payload);
    assert |line| == |kept| + 5 + |topic| + |payload|;
  }

  lemma SplicedFirst(kept: string, line: string, n: nat)
    requires '\n' !in kept && L.NoNul(kept) && '\n' !in line && L.NoNul(line) && n > 0
    ensures L.Split(kept + Copies(n, line + "\n")) == L.Prepend([kept + line], L.Pieces(seq(n - 1, i => line), ""))
  {
    var more := Copies(n - 1, line + "\n");
    assert kept + Copies(n, line + "\n") == (kept + line) + "\n" + more;
    SplitLine(kept + line, more);
    SplitCopies(n - 1, line);
  }

  // Copies of a message behind whatever the buffer kept.
  lemma ReceivedBehind(kept: string, topic: string, payload: string, n: nat)
    requires Sendable(topic, payload) && L.FirstNewline(kept, 0) == |kept| && kept != "" && n > 0
    ensures Deliveries(L.Split(kept + Copies(n, T.PubLine(topic, payload) + "\n")).lines) != seq(n, i => T.Deliver(topic, payload))
  {
    var line := T.PubLine(topic, payload);
    var text := kept + Copies(n, line + "\n");
    SendableLine(topic, payload);
    if L.NoNul(kept) {
      KeptHasNoNewline(kept, 0);
      SplicedFirst(kept, line, n);
      DeliverCopies(n - 1, topic, payload);
      DeliveriesAppend([kept + line], seq(n - 1, i => line));
      SplicedIsAnother(kept, topic, payload);
      SplicedDiffers(T.ReadDelivery(kept + line), T.Deliver(topic, payload), n);
    } else {
      NulBlocks(kept, Copies(n, line + "\n"), 0);
      L.NoMoreLines(text, 0);
    }
  }

  lemma SplicedDiffers(first: T.Delivery, d: T.Delivery, n: nat)
    requires first != d && n > 0
    ensures (if first.Deliver? then [first] else []) + seq(n - 1, i => d) != seq(n, i => d)
  {
    if first.Deliver? {
      assert ([first] + seq(n - 1, i => d))[0] == first && seq(n, i => d)[0] == d;
    } else {
      assert |[] + seq(n - 1, i => d)| == n - 1;
    }
  }

  /**
   Daemon to subscriber: a client other than the publisher has its handler called once per matching
   entry that lists it, with the identical topic and payload, however its stream is cut - exactly when the
   receive buffer held nothing before, or nothing is due.
   */
  lemma SubscriberReceives(t: B.Table, topic: string, payload: string, sender: int, fd: int, kept: string, chunks: seq<string>)
    requires B.Valid(t) && Sendable(topic, payload) && fd != sender
    requires L.FirstNewline(kept, 0) == |kept|
    requires L.Concat(chunks) == Stream(B.Sends(t.subs, topic, B.Message(topic, payload), sender), fd)
    ensures var n := |B.Entries(t.subs, topic, fd)|;
            Deliveries(L.Feed(kept, chunks).lines) == seq(n, i => T.Deliver(topic, payload)) <==> kept == "" || n == 0
    ensures kept == "" ==> L.LinesFit(L.Concat(chunks), 0, T.MAX_LINE) && L.Feed(kept, chunks).tail == ""
  {
    var line, msg := T.PubLine(topic, payload), B.Message(topic, payload);
    var n := |B.Entries(t.subs, topic, fd)|;
    SendableLine(topic, payload);
    B.PublishExact(t.subs, topic, msg, sender, fd);
    StreamIsCopies(B.Sends(t.subs, topic, msg, sender), fd, msg);
    L.ChunkingIndependent(kept, chunks);
    if kept == "" {
      CopiesReceived(topic, payload, n);
      assert kept + L.Concat(chunks) == L.Concat(chunks);
    } else if n > 0 {
      ReceivedBehind(kept, topic, payload, n);
    } else {
      assert kept + "" == kept;
      L.NoMoreLines(kept, 0);
      assert seq(n, i => T.Deliver(topic, payload)) == [];
    }
  }

  lemma CopiesReceived(topic: string, payload: string, n: nat)
    requires Sendable(topic, payload)
    ensures var s := Copies(n, T.PubLine(topic, payload) + "\n");
            && L.LinesFit(s, 0, T.MAX_LINE) && L.Split(s).tail == ""
            && Deliveries(L.Split(s).lines) == seq(n, i => T.Deliver(topic, payload))
  {
    var line := T.PubLine(topic, payload);
    SendableLine(topic, payload);
    CopiesFit(n, line, T.MAX_LINE);
    SplitCopies(n, line);
    DeliverCopies(n, topic, payload);
  }

  /**
   End to end: what one client publishes, another receives once per matching entry that lists it, topic and
   payload unchanged, however both streams are cut - exactly when the receiver's buffer held
   nothing before or nothing is due. A payload blank throughout is the one that gets lost.
   */
  lemma EndToEnd(t: B.Table, topic: string, payload: string, sender: int, fd: int, upstream: seq<string>,
                 kept: string, downstream: seq<string>)
    requires B.Valid(t) && Sendable(topic, payload) && fd != sender
    requires L.FirstNewline(kept, 0) == |kept|
    requires L.Concat(upstream) == T.ClientBytes(topic, payload)
    requires var lines := L.Feed("", upstream).lines;
             L.Concat(downstream) == if lines == [] then "" else Stream(D.Served(t.subs, sender, lines[0]), fd)
    ensures |L.Feed("", upstream).lines| == 1 && L.Feed("", upstream).tail == ""
    ensures var n := if T.AllSpace(payload) then 0 else |B.Entries(t.subs, topic, fd)|;
            Deliveries(L.Feed(kept, downstream).lines) == seq(n, i => T.Deliver(topic, payload)) <==> kept == "" || n == 0
  {
    PublishArrives(topic, payload, upstream);
    if T.AllSpace(payload) {
      L.ChunkingIndependent(kept, downstream);
      assert kept + "" == kept;
      L.NoMoreLines(kept, 0);
      assert seq(0, i => T.Deliver(topic, payload)) == [];
    } else {
      SendableLine(topic, payload);
      SubscriberReceives(t, topic, payload, sender, fd, kept, downstream);
    }
  }

  // What bb_bus_ping returns for the bytes its one recv got.
  function PingResult(got: string): int {
    if "PONG" <= got then 0 else -1
  }

  /**
   A ping: however its line is cut, the daemon answers it with five bytes, and the client takes the first
   part that it receives of them for success exactly when that has four bytes.
   */
  lemma PingRoundTrip(t: B.Table, fd: int, upstream: seq<string>, got: string)
    requires B.Valid(t) && L.Concat(upstream) == "PING\n"
    requires got <= Stream(D.Served(t.subs, fd, "PING"), fd)
    ensures L.Feed("", upstream) == L.Pieces(["PING"], "")
    ensures Stream(D.Served(t.subs, fd, "PING"), fd) == "PONG\n" && D.Updated(t.subs, fd, "PING") == t.subs
    ensures PingResult(got) == 0 <==> |got| >= 4
  {
    PingArrives(upstream);
    PongStream(t.subs, fd);
    PongTaken(got);
  }

  lemma PingArrives(upstream: seq<string>)
    requires L.Concat(upstream) == "PING\n"
    ensures L.Feed("", upstream) == L.Pieces(["PING"], "")
  {
    var line := "PING";
    L.ChunkingIndependent("", upstream);
    assert "" + L.Concat(upstream) == L.Concat(upstream) == line + "\n";
    SplitLine(line, "");
    assert line + "\n" + "" == line + "\n";
    L.NoMoreLines("", 0);
  }

  lemma PongStream(subs: seq<B.Sub>, fd: int)
    ensures Stream(D.Served(subs, fd, "PING"), fd) == "PONG\n" && D.Updated(subs, fd, "PING") == subs
  {
    var pong := B.Sent(fd, "PONG\n");
    assert [pong] == [pong] + [];
    StreamFirst(pong, [], fd);
    assert "PONG\n" + "" == "PONG\n";
  }

  lemma PongTaken(got: string)
    requires got <= "PONG\n"
    ensures PingResult(got) == 0 <==> |got| >= 4
  {
    var reply := "PONG\n";
    assert got == reply[..|got|];
    if |got| >= 4 {
      assert got[..4] == reply[..4] == "PONG";
    }
  }
}
