/**
 The subscription table of `services/bb-busd.c`: topics with their lists of client descriptors,
 changed in place by SUB, UNSUB and disconnects and read by PUB.
 */
module Broker {

  const MAX_CLIENTS: nat := 64
  const MAX_SUBS: nat := 256
  const TOPIC_ROOM: nat := 127     // sizeof(topic) - 1
  const BUF_SIZE: nat := 8192

  datatype Sub = Sub(topic: string, ids: seq<int>)

  datatype Table = Table(subs: seq<Sub>, clients: seq<int>)

  // A message handed to send() for a descriptor.
  datatype Sent = Sent(fd: int, msg: string)

  // What strncpy leaves in the topic field.
  function Stored(topic: string): string {
    if |topic| <= TOPIC_ROOM then topic else topic[..TOPIC_ROOM]
  }

  /** Of a longer topic the first 127 characters are kept. */
  lemma StoredIs(topic: string)
    ensures Stored(topic) <= topic && |Stored(topic)| == if |topic| < 127 then |topic| else 127
  {
  }

  // The pattern itself, or a prefix before a final '#'.
  predicate TopicMatch(pattern: string, topic: string) {
    || pattern == topic
    || (|pattern| > 0 && pattern[|pattern| - 1] == '#' && pattern[..|pattern| - 1] <= topic)
  }

  /** Without a final '#' a pattern matches itself and nothing else. */
  lemma PlainMatch(pattern: string, topic: string)
    requires pattern == "" || pattern[|pattern| - 1] != '#'
    ensures TopicMatch(pattern, topic) <==> topic == pattern
  {
  }

  /** With one it matches every topic that begins with what stands before it. */
  lemma WildMatch(prefix: string, topic: string)
    ensures TopicMatch(prefix + "#", topic) <==> exists rest :: topic == prefix + rest
  {
    var pattern := prefix + "#";
    assert pattern[..|pattern| - 1] == prefix;
    if prefix <= topic {
      assert topic == prefix + topic[|prefix|..];
    }
    if topic == pattern {
      assert topic == prefix + "#";
    }
  }

  // ---- What the operations compute ----

  // The first entry with this topic, or |subs|.
  function FindSub(subs: seq<Sub>, topic: string): (i: nat)
    ensures i <= |subs| && (i < |subs| ==> subs[i].topic == topic)
    ensures forall k :: 0 <= k < i ==> subs[k].topic != topic
  {
    if subs == [] then 0 else if subs[0].topic == topic then 0 else 1 + FindSub(subs[1..], topic)
  }

  function AddId(ids: seq<int>, fd: int): seq<int> {
    if |ids| < MAX_CLIENTS && fd !in ids then ids + [fd] else ids
  }

  function SubscribeSpec(subs: seq<Sub>, fd: int, topic: string): seq<Sub> {
    var i := FindSub(subs, topic);
    if i < |subs| then subs[i := subs[i].(ids := AddId(subs[i].ids, fd))]
    else if |subs| < MAX_SUBS then subs + [Sub(Stored(topic), AddId([], fd))]
    else subs
  }

  // ids[j] = ids[--count]
  function SwapRemove(ids: seq<int>, j: nat): seq<int>
    requires j < |ids|
  {
    ids[j := ids[|ids| - 1]][..|ids| - 1]
  }

  // Swap-remove of the first occurrence at or after j.
  function RemoveFirst(ids: seq<int>, fd: int, j: nat): seq<int>
    requires j <= |ids|
    decreases |ids| - j
  {
    if j == |ids| then ids else if ids[j] == fd then SwapRemove(ids, j) else RemoveFirst(ids, fd, j + 1)
  }

  function UnsubscribeSpec(subs: seq<Sub>, fd: int, topic: string): seq<Sub> {
    var i := FindSub(subs, topic);
    if i < |subs| then subs[i := subs[i].(ids := RemoveFirst(subs[i].ids, fd, 0))] else subs
  }

  // Swap-remove of every occurrence at or after j, looking at the swapped-in element again.
  function Purge(ids: seq<int>, fd: int, j: nat): seq<int>
    requires j <= |ids|
    decreases |ids| - j
  {
    if j == |ids| then ids
    else if ids[j] == fd then Purge(SwapRemove(ids, j), fd, j)
    else Purge(ids, fd, j + 1)
  }

  function PurgeSpec(subs: seq<Sub>, fd: int): seq<Sub> {
    seq(|subs|, i requires 0 <= i < |subs| => subs[i].(ids := Purge(subs[i].ids, fd, 0)))
  }

  // The sends of publish for one entry, and for the whole table.
  function SendsTo(ids: seq<int>, msg: string, sender: int): seq<Sent> {
    if ids == [] then []
    else SendsTo(ids[..|ids| - 1], msg, sender)
         + (if ids[|ids| - 1] != sender then [Sent(ids[|ids| - 1], msg)] else [])
  }

  function Sends(subs: seq<Sub>, topic: string, msg: string, sender: int): seq<Sent> {
    if subs == [] then []
    else Sends(subs[..|subs| - 1], topic, msg, sender)
         + (if TopicMatch(subs[|subs| - 1].topic, topic) then SendsTo(subs[|subs| - 1].ids, msg, sender) else [])
  }

  function Message(topic: string, payload: string): string {
    "PUB " + topic + " " + payload + "\n"
  }

  // ---- The table as a relation ----

  // Who is subscribed to what.
  ghost predicate Subscribed(subs: seq<Sub>, pattern: string, fd: int) {
    exists i :: 0 <= i < |subs| && subs[i].topic == pattern && fd in subs[i].ids
  }

  ghost predicate NoDuplicates(ids: seq<int>) {
    forall j, k :: 0 <= j < k < |ids| ==> ids[j] != ids[k]
  }

  ghost predicate DistinctTopics(subs: seq<Sub>) {
    forall i, k :: 0 <= i < k < |subs| ==> subs[i].topic != subs[k].topic
  }

  // Client lists are duplicate-free and name only connected clients.
  ghost predicate Listed(subs: seq<Sub>, clients: seq<int>) {
    forall i :: 0 <= i < |subs| ==>
      NoDuplicates(subs[i].ids) && forall x :: x in subs[i].ids ==> x in clients
  }

  ghost predicate Valid(t: Table) {
    && |t.clients| <= MAX_CLIENTS && NoDuplicates(t.clients)
    && |t.subs| <= MAX_SUBS
    && Listed(t.subs, t.clients)
    && (forall i :: 0 <= i < |t.subs| ==> |t.subs[i].topic| <= TOPIC_ROOM)
  }

  // ---- Set deletion by swapping ----

  lemma SwapRemoveCounts(ids: seq<int>, j: nat)
    requires j < |ids|
    ensures multiset(SwapRemove(ids, j)) == multiset(ids) - multiset{ids[j]}
  {
    var last := |ids| - 1;
    var swapped := ids[j := ids[last]];
    assert ids == ids[..last] + [ids[last]];
    if j < last {
      assert SwapRemove(ids, j) == ids[..last][j := ids[last]];
    } else {
      assert SwapRemove(ids, j) == ids[..last];
    }
  }

  lemma SwapRemovePrefix(ids: seq<int>, j: nat)
    requires j < |ids|
    ensures |SwapRemove(ids, j)| == |ids| - 1 && SwapRemove(ids, j)[..j] == ids[..j]
  {
  }

  /** The purge loop removes exactly the occurrences of one descriptor. */
  lemma {:induction false} PurgeCounts(ids: seq<int>, fd: int, j: nat)
    requires j <= |ids| && fd !in ids[..j]
    ensures multiset(Purge(ids, fd, j)) == multiset(ids)[fd := 0]
    decreases |ids| - j
  {
    if j == |ids| {
      assert ids[..j] == ids;
      assert fd !in multiset(ids);
    } else if ids[j] == fd {
      var shorter := SwapRemove(ids, j);
      SwapRemoveCounts(ids, j);
      SwapRemovePrefix(ids, j);
      PurgeCounts(shorter, fd, j);
      assert multiset(shorter)[fd := 0] == multiset(ids)[fd := 0];
    } else {
      assert ids[..j + 1] == ids[..j] + [ids[j]];
      PurgeCounts(ids, fd, j + 1);
    }
  }

  lemma {:induction false} RemoveFirstCounts(ids: seq<int>, fd: int, j: nat)
    requires j <= |ids| && fd !in ids[..j]
    ensures multiset(RemoveFirst(ids, fd, j)) == multiset(ids) - multiset{fd}
    decreases |ids| - j
  {
    if j == |ids| {
      assert ids[..j] == ids;
      assert fd !in multiset(ids);
    } else if ids[j] == fd {
      SwapRemoveCounts(ids, j);
    } else {
      assert ids[..j + 1] == ids[..j] + [ids[j]];
      RemoveFirstCounts(ids, fd, j + 1);
    }
  }

  lemma {:induction false} NoDuplicatesCounts(ids: seq<int>)
    ensures NoDuplicates(ids) <==> forall x :: x in ids ==> multiset(ids)[x] == 1
  {
    if ids != [] {
      var last, rest := |ids| - 1, ids[..|ids| - 1];
      assert ids == rest + [ids[last]];
      NoDuplicatesCounts(rest);
      if NoDuplicates(ids) {
        assert NoDuplicates(rest) && ids[last] !in rest;
      }
      if forall x :: x in ids ==> multiset(ids)[x] == 1 {
        assert multiset(ids)[ids[last]] == 1;
        assert ids[last] !in rest;
        forall x | x in rest ensures multiset(rest)[x] == 1 {
          assert x in ids && x != ids[last];
        }
      }
    }
  }

  // Both deletions keep the list duplicate-free and drop exactly fd.
  lemma DeletionKeeps(ids: seq<int>, fd: int)
    requires NoDuplicates(ids)
    ensures var p := Purge(ids, fd, 0); NoDuplicates(p) && forall x :: x in p <==> x in ids && x != fd
    ensures var r := RemoveFirst(ids, fd, 0); NoDuplicates(r) && forall x :: x in r <==> x in ids && x != fd
  {
    PurgeCounts(ids, fd, 0);
    RemoveFirstCounts(ids, fd, 0);
    NoDuplicatesCounts(ids);
    DeletedOnce(ids, Purge(ids, fd, 0), fd);
    DeletedOnce(ids, RemoveFirst(ids, fd, 0), fd);
  }

  lemma DeletedOnce(ids: seq<int>, rest: seq<int>, fd: int)
    requires forall x :: x in ids ==> multiset(ids)[x] == 1
    requires multiset(rest) == multiset(ids)[fd := 0] || multiset(rest) == multiset(ids) - multiset{fd}
    ensures NoDuplicates(rest) && forall x :: x in rest <==> x in ids && x != fd
  {
    forall x ensures x in rest <==> x in ids && x != fd {
      assert x in rest <==> x in multiset(rest);
      assert x in ids <==> x in multiset(ids);
    }
    NoDuplicatesCounts(rest);
  }

  // ---- No refusal ----

  function IdSet(ids: seq<int>): set<int> {
    set x | x in ids
  }

  lemma {:induction false} SetSize(ids: seq<int>)
    requires NoDuplicates(ids)
    ensures |IdSet(ids)| == |ids|
  {
    if ids != [] {
      var rest := ids[..|ids| - 1];
      SetSize(rest);
      assert IdSet(ids) == IdSet(rest) + {ids[|ids| - 1]};
    }
  }

  lemma SubsetSize(a: set<int>, b: set<int>)
    requires a <= b
    ensures |a| <= |b| && (|a| == |b| ==> a == b)
  {
    assert b == a + (b - a);
    assert |b| == |a| + |b - a|;
  }

  /** A list that has no room left already contains every connected client, so no subscriber is refused silently. */
  lemma FullListsEveryone(t: Table, i: nat, fd: int)
    requires Valid(t) && i < |t.subs| && fd in t.clients && |t.subs[i].ids| >= MAX_CLIENTS
    ensures fd in t.subs[i].ids
  {
    var ids := t.subs[i].ids;
    SetSize(ids);
    SetSize(t.clients);
    SubsetSize(IdSet(ids), IdSet(t.clients));
    assert fd in IdSet(t.clients);
  }

  // ---- The operations on the relation ----

  /** SUB adds exactly one pair, unless the topic is new and the table has no entry left. */
  lemma SubscribeRelation(t: Table, fd: int, topic: string)
    requires Valid(t) && fd in t.clients
    ensures Valid(t.(subs := SubscribeSpec(t.subs, fd, topic)))
    ensures var added := FindSub(t.subs, topic) < |t.subs| || |t.subs| < 256;
            forall p, x :: Subscribed(SubscribeSpec(t.subs, fd, topic), p, x) <==>
                           Subscribed(t.subs, p, x) || (added && p == Stored(topic) && x == fd)
  {
    var i, after := FindSub(t.subs, topic), SubscribeSpec(t.subs, fd, topic);
    if i < |t.subs| {
      if |t.subs[i].ids| >= MAX_CLIENTS {
        FullListsEveryone(t, i, fd);
      }
      assert Stored(topic) == topic;
      forall p, x ensures Subscribed(after, p, x) <==> Subscribed(t.subs, p, x) || (p == topic && x == fd) {
        if Subscribed(t.subs, p, x) {
          var k :| 0 <= k < |t.subs| && t.subs[k].topic == p && x in t.subs[k].ids;
          assert after[k].topic == p && x in after[k].ids;
        }
        if p == topic && x == fd {
          assert after[i].topic == p && x in after[i].ids;
        }
      }
    } else if |t.subs| < MAX_SUBS {
      forall p, x ensures Subscribed(after, p, x) <==> Subscribed(t.subs, p, x) || (p == Stored(topic) && x == fd) {
        if Subscribed(t.subs, p, x) {
          var k :| 0 <= k < |t.subs| && t.subs[k].topic == p && x in t.subs[k].ids;
          assert after[k].topic == p && x in after[k].ids;
        }
        if p == Stored(topic) && x == fd {
          assert after[i].topic == p && x in after[i].ids;
        }
      }
    }
  }

  /** Topics stay distinct exactly when the new topic fits its field, or its stored prefix is new, or nothing is inserted. */
  lemma SubscribeDistinct(t: Table, fd: int, topic: string)
    requires Valid(t) && DistinctTopics(t.subs)
    ensures DistinctTopics(SubscribeSpec(t.subs, fd, topic)) <==>
            |topic| <= 127 || |t.subs| == 256 || FindSub(t.subs, Stored(topic)) == |t.subs|
  {
    var i, after := FindSub(t.subs, topic), SubscribeSpec(t.subs, fd, topic);
    var k := FindSub(t.subs, Stored(topic));
    if i == |t.subs| && |t.subs| < MAX_SUBS && k < |t.subs| {
      assert after[k].topic == after[|t.subs|].topic;
    }
  }

  // A client of two SUBs for the same topic of 128 characters.
  function RepeatedTopic(): seq<Sub> {
    var topic := seq(TOPIC_ROOM + 1, i => 'x');
    SubscribeSpec(SubscribeSpec([], 5, topic), 5, topic)
  }

  // A topic that no entry has gets a new one, in front of which everything stays.
  lemma InsertedAtEnd(subs: seq<Sub>, topic: string)
    requires (forall i :: 0 <= i < |subs| ==> subs[i].topic != topic) && |subs| < MAX_SUBS
    ensures SubscribeSpec(subs, 5, topic) == subs + [Sub(Stored(topic), [5])]
  {
    assert AddId([], 5) == [5];
  }

  lemma RepeatedIs()
    ensures var prefix := seq(TOPIC_ROOM, i => 'x');
            RepeatedTopic() == [Sub(prefix, [5]), Sub(prefix, [5])]
  {
    var topic := seq(TOPIC_ROOM + 1, i => 'x');
    assert Stored(topic) == seq(TOPIC_ROOM, i => 'x');
    assert [] + [5] == [5];
    InsertedAtEnd([], topic);
    InsertedAtEnd([Sub(Stored(topic), [5])], topic);
  }

  /** A topic too long for its field is inserted again by every SUB. */
  lemma LongTopicDuplicates()
    ensures !DistinctTopics(RepeatedTopic())
  {
    RepeatedIs();
    assert RepeatedTopic()[0].topic == RepeatedTopic()[1].topic;
  }

  // An entry behind the one that UNSUB finds repeats its topic and lists the client.
  ghost predicate ListedBehind(subs: seq<Sub>, topic: string, fd: int) {
    exists k :: FindSub(subs, topic) < k < |subs| && subs[k].topic == topic && fd in subs[k].ids
  }

  /** UNSUB removes exactly one pair, unless a repeated entry still holds it; nothing else changes. */
  lemma UnsubscribeRelation(t: Table, fd: int, topic: string)
    requires Valid(t)
    ensures Valid(t.(subs := UnsubscribeSpec(t.subs, fd, topic)))
    ensures DistinctTopics(t.subs) ==> DistinctTopics(UnsubscribeSpec(t.subs, fd, topic)) && !ListedBehind(t.subs, topic, fd)
    ensures forall p, x :: Subscribed(UnsubscribeSpec(t.subs, fd, topic), p, x) <==>
                           Subscribed(t.subs, p, x) && (p == topic && x == fd ==> ListedBehind(t.subs, topic, fd))
  {
    var i, after := FindSub(t.subs, topic), UnsubscribeSpec(t.subs, fd, topic);
    if i < |t.subs| {
      DeletionKeeps(t.subs[i].ids, fd);
    }
    forall p, x ensures Subscribed(after, p, x) <==> Subscribed(t.subs, p, x) && (p == topic && x == fd ==> ListedBehind(t.subs, topic, fd)) {
      if p == topic && x == fd {
        UnsubscribedPair(t, fd, topic);
      } else if Subscribed(t.subs, p, x) {
        var k :| 0 <= k < |t.subs| && t.subs[k].topic == p && x in t.subs[k].ids;
        assert after[k].topic == p && x in after[k].ids;
      }
    }
  }

  lemma UnsubscribedPair(t: Table, fd: int, topic: string)
    requires Valid(t)
    ensures Subscribed(UnsubscribeSpec(t.subs, fd, topic), topic, fd) <==> ListedBehind(t.subs, topic, fd)
  {
    var i, after := FindSub(t.subs, topic), UnsubscribeSpec(t.subs, fd, topic);
    if i < |t.subs| {
      DeletionKeeps(t.subs[i].ids, fd);
    }
    if ListedBehind(t.subs, topic, fd) {
      var k :| i < k < |t.subs| && t.subs[k].topic == topic && fd in t.subs[k].ids;
      assert after[k].topic == topic && fd in after[k].ids;
    }
    if Subscribed(after, topic, fd) {
      var k :| 0 <= k < |after| && after[k].topic == topic && fd in after[k].ids;
      assert k > i && t.subs[k] == after[k];
    }
  }

  /** A disconnect removes every pair of its descriptor and nothing else. */
  lemma PurgeRelation(t: Table, fd: int)
    requires Valid(t)
    ensures var after := PurgeSpec(t.subs, fd);
            && (forall i :: 0 <= i < |after| ==> after[i].topic == t.subs[i].topic)
            && (forall i :: 0 <= i < |after| ==> fd !in after[i].ids)
            && Listed(after, t.clients)
            && forall p, x :: Subscribed(after, p, x) <==> Subscribed(t.subs, p, x) && x != fd
  {
    var after := PurgeSpec(t.subs, fd);
    forall i | 0 <= i < |after|
      ensures NoDuplicates(after[i].ids) && forall x :: x in after[i].ids <==> x in t.subs[i].ids && x != fd {
      DeletionKeeps(t.subs[i].ids, fd);
    }
    forall p, x ensures Subscribed(after, p, x) <==> Subscribed(t.subs, p, x) && x != fd {
      if Subscribed(t.subs, p, x) && x != fd {
        var k :| 0 <= k < |t.subs| && t.subs[k].topic == p && x in t.subs[k].ids;
        assert after[k].topic == p && x in after[k].ids;
      }
    }
  }

  // ---- Whole runs ----

  datatype Event =
    | Connect(fd: int)
    | Disconnect(fd: int)
    | Subscribe(fd: int, topic: string)
    | Unsubscribe(fd: int, topic: string)

  // Requests come from connected clients, and accept returns a descriptor that is not open.
  predicate Admissible(t: Table, e: Event) {
    match e
    case Connect(fd) => fd !in t.clients
    case Disconnect(fd) => fd in t.clients
    case Subscribe(fd, topic) => fd in t.clients
    case Unsubscribe(fd, topic) => fd in t.clients
  }

  function WithoutClient(clients: seq<int>, fd: int): seq<int> {
    if clients == [] then [] else if clients[0] == fd then clients[1..] else [clients[0]] + WithoutClient(clients[1..], fd)
  }

  function Handle(t: Table, e: Event): Table {
    match e
    case Connect(fd) => if |t.clients| < MAX_CLIENTS then t.(clients := t.clients + [fd]) else t
    case Disconnect(fd) => Table(PurgeSpec(t.subs, fd), WithoutClient(t.clients, fd))
    case Subscribe(fd, topic) => t.(subs := SubscribeSpec(t.subs, fd, topic))
    case Unsubscribe(fd, topic) => t.(subs := UnsubscribeSpec(t.subs, fd, topic))
  }

  // The table as sets: what the daemon is for.
  datatype Relation = Relation(topics: set<string>, pairs: set<(string, int)>, clients: set<int>)

  function HandleRelation(r: Relation, e: Event): Relation {
    match e
    case Connect(fd) => if |r.clients| < MAX_CLIENTS then r.(clients := r.clients + {fd}) else r
    case Disconnect(fd) => r.(pairs := (set p | p in r.pairs && p.1 != fd :: p), clients := r.clients - {fd})
    case Subscribe(fd, topic) =>
      if topic in r.topics then r.(pairs := r.pairs + {(topic, fd)})
      else if |r.topics| < MAX_SUBS then r.(topics := r.topics + {Stored(topic)}, pairs := r.pairs + {(Stored(topic), fd)})
      else r
    case Unsubscribe(fd, topic) => r.(pairs := r.pairs - {(topic, fd)})
  }

  ghost predicate Denotes(t: Table, r: Relation) {
    && (forall p :: p in r.topics <==> FindSub(t.subs, p) < |t.subs|)
    && |r.topics| == |t.subs|
    && (forall p, fd :: (p, fd) in r.pairs <==> Subscribed(t.subs, p, fd))
    && (forall fd :: fd in r.clients <==> fd in t.clients)
    && |r.clients| == |t.clients|
  }

  predicate AllAdmissible(t: Table, es: seq<Event>)
    decreases |es|
  {
    es == [] || (Admissible(t, es[0]) && AllAdmissible(Handle(t, es[0]), es[1..]))
  }

  function HandleAll(t: Table, es: seq<Event>): Table
    decreases |es|
  {
    if es == [] then t else HandleAll(Handle(t, es[0]), es[1..])
  }

  function HandleAllRelation(r: Relation, es: seq<Event>): Relation
    decreases |es|
  {
    if es == [] then r else HandleAllRelation(HandleRelation(r, es[0]), es[1..])
  }

  lemma {:induction false} WithoutClientKeeps(clients: seq<int>, fd: int)
    requires NoDuplicates(clients)
    ensures var rest := WithoutClient(clients, fd);
            NoDuplicates(rest) && (forall x :: x in rest <==> x in clients && x != fd) && |rest| <= |clients|
    ensures fd in clients ==> |WithoutClient(clients, fd)| == |clients| - 1
  {
    if clients != [] && clients[0] != fd {
      WithoutClientKeeps(clients[1..], fd);
      assert clients[0] !in clients[1..];
    }
    assert forall x :: x in clients <==> clients != [] && (x == clients[0] || x in clients[1..]);
  }

  lemma StepDisconnect(t: Table, r: Relation, fd: int)
    requires Valid(t) && DistinctTopics(t.subs) && Denotes(t, r) && fd in t.clients
    ensures Valid(Handle(t, Disconnect(fd))) && DistinctTopics(Handle(t, Disconnect(fd)).subs)
    ensures Denotes(Handle(t, Disconnect(fd)), HandleRelation(r, Disconnect(fd)))
  {
    var u := Handle(t, Disconnect(fd));
    PurgeRelation(t, fd);
    WithoutClientKeeps(t.clients, fd);
    forall p ensures FindSub(u.subs, p) < |u.subs| <==> FindSub(t.subs, p) < |t.subs| {
      var i, k := FindSub(t.subs, p), FindSub(u.subs, p);
      assert i < |t.subs| ==> u.subs[i].topic == p;
      assert k < |u.subs| ==> t.subs[k].topic == p;
    }
  }

  lemma StepSubscribe(t: Table, r: Relation, fd: int, topic: string)
    requires Valid(t) && DistinctTopics(t.subs) && Denotes(t, r) && fd in t.clients
    requires DistinctTopics(Handle(t, Subscribe(fd, topic)).subs)
    ensures Denotes(Handle(t, Subscribe(fd, topic)), HandleRelation(r, Subscribe(fd, topic)))
  {
    var u, i := Handle(t, Subscribe(fd, topic)), FindSub(t.subs, topic);
    SubscribeRelation(t, fd, topic);
    SubscribeDistinct(t, fd, topic);
    FindAfterSubscribe(t.subs, fd, topic);
    assert topic in r.topics <==> i < |t.subs|;
    if i < |t.subs| {
      assert Stored(topic) == topic && |u.subs| == |t.subs|;
    } else if |t.subs| < MAX_SUBS {
      assert |u.subs| == |t.subs| + 1 && Stored(topic) !in r.topics;
      assert |r.topics + {Stored(topic)}| == |r.topics| + 1;
    }
  }

  lemma FindAfterSubscribe(subs: seq<Sub>, fd: int, topic: string)
    ensures var after := SubscribeSpec(subs, fd, topic);
            forall p :: FindSub(after, p) < |after| <==> FindSub(subs, p) < |subs| || (p == Stored(topic) && |after| > |subs|)
  {
    var after := SubscribeSpec(subs, fd, topic);
    forall p ensures FindSub(after, p) < |after| <==> FindSub(subs, p) < |subs| || (p == Stored(topic) && |after| > |subs|) {
      var j, k := FindSub(subs, p), FindSub(after, p);
      assert j < |subs| ==> after[j].topic == p;
      assert k < |subs| ==> after[k].topic == subs[k].topic;
      assert |after| > |subs| ==> after[|subs|].topic == Stored(topic);
    }
  }

  lemma StepUnsubscribe(t: Table, r: Relation, fd: int, topic: string)
    requires Valid(t) && DistinctTopics(t.subs) && Denotes(t, r)
    ensures Denotes(Handle(t, Unsubscribe(fd, topic)), HandleRelation(r, Unsubscribe(fd, topic)))
  {
    var u := Handle(t, Unsubscribe(fd, topic));
    UnsubscribeRelation(t, fd, topic);
    forall p ensures FindSub(u.subs, p) < |u.subs| <==> FindSub(t.subs, p) < |t.subs| {
      var i, k := FindSub(t.subs, p), FindSub(u.subs, p);
      assert i < |t.subs| ==> u.subs[i].topic == p;
      assert k < |u.subs| ==> t.subs[k].topic == p;
    }
  }

  // ---- Every run, whatever the topics ----

  lemma StepValid(t: Table, e: Event)
    requires Valid(t) && Admissible(t, e)
    ensures Valid(Handle(t, e))
  {
    match e {
      case Connect(fd) => ConnectValid(t, fd);
      case Disconnect(fd) => DisconnectValid(t, fd);
      case Subscribe(fd, topic) => SubscribeRelation(t, fd, topic);
      case Unsubscribe(fd, topic) => UnsubscribeRelation(t, fd, topic);
    }
  }

  lemma ConnectValid(t: Table, fd: int)
    requires Valid(t) && fd !in t.clients
    ensures Valid(Handle(t, Connect(fd)))
  {
  }

  lemma DisconnectValid(t: Table, fd: int)
    requires Valid(t) && fd in t.clients
    ensures Valid(Handle(t, Disconnect(fd)))
  {
    PurgeRelation(t, fd);
    WithoutClientKeeps(t.clients, fd);
  }

  /** Over every run the lists stay duplicate-free and name only connected clients, also when long topics repeat. */
  lemma {:induction false} RunValid(t: Table, es: seq<Event>)
    requires Valid(t) && AllAdmissible(t, es)
    ensures Valid(HandleAll(t, es))
    decreases |es|
  {
    if es != [] {
      StepValid(t, es[0]);
      RunValid(Handle(t, es[0]), es[1..]);
    }
  }

  /** A descriptor that is not connected has no subscription, so a recycled number starts with none. */
  lemma RecycledStartsEmpty(es: seq<Event>, fd: int, pattern: string)
    requires AllAdmissible(Table([], []), es)
    ensures var t := HandleAll(Table([], []), es); fd !in t.clients ==> !Subscribed(t.subs, pattern, fd)
  {
    RunValid(Table([], []), es);
  }

  /**
   In every run a SUB for a topic that has an entry, or finds room for one, leaves its client
   listed: a list without room has the client already.
   */
  lemma NeverRefused(es: seq<Event>, fd: int, topic: string)
    requires AllAdmissible(Table([], []), es) && fd in HandleAll(Table([], []), es).clients
    ensures var t := HandleAll(Table([], []), es);
            FindSub(t.subs, topic) < |t.subs| || |t.subs| < MAX_SUBS ==>
              Subscribed(Handle(t, Subscribe(fd, topic)).subs, Stored(topic), fd)
  {
    RunValid(Table([], []), es);
    SubscribeRelation(HandleAll(Table([], []), es), fd, topic);
  }

  // ---- The table as a relation, over runs ----

  // Entries are never taken out.
  ghost predicate TopicsKept(before: seq<Sub>, after: seq<Sub>) {
    |before| <= |after| && forall i :: 0 <= i < |before| ==> after[i].topic == before[i].topic
  }

  lemma StepKeepsTopics(t: Table, e: Event)
    ensures TopicsKept(t.subs, Handle(t, e).subs)
  {
  }

  lemma {:induction false} RunKeepsTopics(t: Table, es: seq<Event>)
    ensures TopicsKept(t.subs, HandleAll(t, es).subs)
    decreases |es|
  {
    if es != [] {
      StepKeepsTopics(t, es[0]);
      RunKeepsTopics(Handle(t, es[0]), es[1..]);
    }
  }

  lemma {:induction false} RefinesWhileDistinct(t: Table, r: Relation, es: seq<Event>)
    requires Valid(t) && Denotes(t, r) && AllAdmissible(t, es) && DistinctTopics(HandleAll(t, es).subs)
    ensures Denotes(HandleAll(t, es), HandleAllRelation(r, es))
    decreases |es|
  {
    if es != [] {
      var u := Handle(t, es[0]);
      RunKeepsTopics(u, es[1..]);
      StepKeepsTopics(t, es[0]);
      assert DistinctTopics(u.subs) && DistinctTopics(t.subs);
      StepValid(t, es[0]);
      match es[0] {
        case Connect(fd) =>
        case Disconnect(fd) => StepDisconnect(t, r, fd);
        case Subscribe(fd, topic) => StepSubscribe(t, r, fd, topic);
        case Unsubscribe(fd, topic) => StepUnsubscribe(t, r, fd, topic);
      }
      RefinesWhileDistinct(u, HandleRelation(r, es[0]), es[1..]);
    }
  }

  lemma {:induction false} TopicsCount(subs: seq<Sub>)
    ensures |Topics(subs)| <= |subs| && (|Topics(subs)| == |subs| ==> DistinctTopics(subs))
    decreases |subs|
  {
    if subs != [] {
      var rest, last := subs[..|subs| - 1], subs[|subs| - 1];
      TopicsCount(rest);
      assert subs == rest + [last];
      TopicsGrow(rest, last);
    }
  }

  lemma TopicsGrow(rest: seq<Sub>, last: Sub)
    ensures Topics(rest + [last]) == Topics(rest) + {last.topic}
    ensures DistinctTopics(rest) && last.topic !in Topics(rest) ==> DistinctTopics(rest + [last])
  {
    var subs := rest + [last];
    assert forall s :: s in subs <==> s in rest || s == last;
    if DistinctTopics(rest) && last.topic !in Topics(rest) {
      forall i, k | 0 <= i < k < |subs| ensures subs[i].topic != subs[k].topic {
        assert subs[i] in rest;
      }
    }
  }

  lemma DenotesDistinct(t: Table, r: Relation)
    requires Denotes(t, r)
    ensures DistinctTopics(t.subs)
  {
    forall p ensures p in r.topics <==> p in Topics(t.subs) {
      if p in Topics(t.subs) {
        var s :| s in t.subs && s.topic == p;
        var i :| 0 <= i < |t.subs| && t.subs[i] == s;
        assert FindSub(t.subs, p) <= i;
      }
      if FindSub(t.subs, p) < |t.subs| {
        assert t.subs[FindSub(t.subs, p)] in t.subs;
      }
    }
    assert r.topics == Topics(t.subs);
    TopicsCount(t.subs);
  }

  /**
   After every run of connects, disconnects, SUBs and UNSUBs the table denotes the relation exactly
   when its topics are distinct: no SUB has inserted a stored topic a second time.
   */
  lemma TableRefinesRelation(t: Table, r: Relation, es: seq<Event>)
    requires Valid(t) && Denotes(t, r) && AllAdmissible(t, es)
    ensures Valid(HandleAll(t, es))
    ensures Denotes(HandleAll(t, es), HandleAllRelation(r, es)) <==> DistinctTopics(HandleAll(t, es).subs)
  {
    RunValid(t, es);
    if DistinctTopics(HandleAll(t, es).subs) {
      RefinesWhileDistinct(t, r, es);
    }
    if Denotes(HandleAll(t, es), HandleAllRelation(r, es)) {
      DenotesDistinct(HandleAll(t, es), HandleAllRelation(r, es));
    }
  }

  predicate TopicsFit(es: seq<Event>) {
    forall i :: 0 <= i < |es| && es[i].Subscribe? ==> |es[i].topic| <= TOPIC_ROOM
  }

  /** Topics that fit their field stay distinct. */
  lemma {:induction false} FittingStaysDistinct(t: Table, es: seq<Event>)
    requires Valid(t) && DistinctTopics(t.subs) && AllAdmissible(t, es) && TopicsFit(es)
    ensures DistinctTopics(HandleAll(t, es).subs)
    decreases |es|
  {
    if es != [] {
      StepValid(t, es[0]);
      if es[0].Subscribe? {
        SubscribeDistinct(t, es[0].fd, es[0].topic);
      } else {
        SameTopics(t, es[0]);
      }
      FittingStaysDistinct(Handle(t, es[0]), es[1..]);
    }
  }

  lemma SameTopics(t: Table, e: Event)
    requires !e.Subscribe? && DistinctTopics(t.subs)
    ensures DistinctTopics(Handle(t, e).subs)
  {
    StepKeepsTopics(t, e);
    assert |Handle(t, e).subs| == |t.subs|;
  }

  // ---- Publishing ----

  function Topics(subs: seq<Sub>): set<string> {
    set s | s in subs :: s.topic
  }

  // The patterns of fd that match the topic.
  ghost function Matching(subs: seq<Sub>, topic: string, fd: int): set<string> {
    set p | p in Topics(subs) && Subscribed(subs, p, fd) && TopicMatch(p, topic)
  }

  lemma {:induction false} SendsToCounts(ids: seq<int>, msg: string, sender: int, fd: int)
    requires NoDuplicates(ids)
    ensures multiset(SendsTo(ids, msg, sender))[Sent(fd, msg)] == if fd in ids && fd != sender then 1 else 0
    ensures forall m :: m in SendsTo(ids, msg, sender) ==> m.msg == msg
  {
    if ids != [] {
      var rest, last := ids[..|ids| - 1], ids[|ids| - 1];
      assert ids == rest + [last];
      SendsToCounts(rest, msg, sender, fd);
      assert SendsTo(ids, msg, sender) == SendsTo(rest, msg, sender) + (if last != sender then [Sent(last, msg)] else []);
    }
  }

  // The entries that make publish send to fd.
  ghost function Entries(subs: seq<Sub>, topic: string, fd: int): set<nat> {
    set i: nat | i < |subs| && TopicMatch(subs[i].topic, topic) && fd in subs[i].ids
  }

  // No pattern of fd that matches stands in the table twice.
  ghost predicate Single(subs: seq<Sub>, topic: string, fd: int) {
    forall i, k :: i in Entries(subs, topic, fd) && k in Entries(subs, topic, fd) && i < k ==> subs[i].topic != subs[k].topic
  }

  lemma EntriesGrow(rest: seq<Sub>, last: Sub, topic: string, fd: int)
    ensures |Entries(rest + [last], topic, fd)| ==
            |Entries(rest, topic, fd)| + (if TopicMatch(last.topic, topic) && fd in last.ids then 1 else 0)
  {
    var extra: set<nat> := if TopicMatch(last.topic, topic) && fd in last.ids then {|rest|} else {};
    assert Entries(rest + [last], topic, fd) == Entries(rest, topic, fd) + extra;
  }

  lemma {:induction false} CopiesAreEntries(subs: seq<Sub>, topic: string, msg: string, sender: int, fd: int)
    requires forall i :: 0 <= i < |subs| ==> NoDuplicates(subs[i].ids)
    ensures multiset(Sends(subs, topic, msg, sender))[Sent(fd, msg)] == if fd == sender then 0 else |Entries(subs, topic, fd)|
    ensures forall m :: m in Sends(subs, topic, msg, sender) ==> m.msg == msg
    decreases |subs|
  {
    if subs == [] {
      assert Entries(subs, topic, fd) == {};
    } else {
      var rest, last := subs[..|subs| - 1], subs[|subs| - 1];
      assert subs == rest + [last];
      CopiesAreEntries(rest, topic, msg, sender, fd);
      SendsToCounts(last.ids, msg, sender, fd);
      EntriesGrow(rest, last, topic, fd);
    }
  }

  lemma SubscribedGrows(rest: seq<Sub>, last: Sub, p: string, fd: int)
    ensures Subscribed(rest + [last], p, fd) <==> Subscribed(rest, p, fd) || (p == last.topic && fd in last.ids)
    ensures p in Topics(rest + [last]) <==> p in Topics(rest) || p == last.topic
  {
    var subs := rest + [last];
    if Subscribed(rest, p, fd) {
      var i :| 0 <= i < |rest| && rest[i].topic == p && fd in rest[i].ids;
      assert subs[i].topic == p && fd in subs[i].ids;
    }
    assert subs[|rest|] == last;
    assert forall s :: s in subs <==> s in rest || s == last;
  }

  lemma SubscribedTopic(subs: seq<Sub>, p: string, fd: int)
    requires Subscribed(subs, p, fd)
    ensures p in Topics(subs)
  {
    var i :| 0 <= i < |subs| && subs[i].topic == p && fd in subs[i].ids;
    assert subs[i] in subs;
  }

  lemma MatchingGrows(rest: seq<Sub>, last: Sub, topic: string, fd: int)
    ensures Matching(rest + [last], topic, fd) ==
            Matching(rest, topic, fd) + (if fd in last.ids && TopicMatch(last.topic, topic) then {last.topic} else {})
  {
    var extra := if fd in last.ids && TopicMatch(last.topic, topic) then {last.topic} else {};
    forall p ensures p in Matching(rest + [last], topic, fd) <==> p in Matching(rest, topic, fd) || p in extra {
      SubscribedGrows(rest, last, p, fd);
      if Subscribed(rest, p, fd) {
        SubscribedTopic(rest, p, fd);
      }
    }
  }

  lemma MatchingIs(subs: seq<Sub>, topic: string, fd: int, p: string)
    ensures p in Matching(subs, topic, fd) <==> exists i :: i in Entries(subs, topic, fd) && subs[i].topic == p
  {
    if p in Matching(subs, topic, fd) {
      var i :| 0 <= i < |subs| && subs[i].topic == p && fd in subs[i].ids;
      assert i in Entries(subs, topic, fd);
    }
    if exists i :: i in Entries(subs, topic, fd) && subs[i].topic == p {
      var i :| i in Entries(subs, topic, fd) && subs[i].topic == p;
      assert Subscribed(subs, p, fd);
      SubscribedTopic(subs, p, fd);
    }
  }

  lemma SingleGrows(rest: seq<Sub>, last: Sub, topic: string, fd: int)
    ensures Single(rest + [last], topic, fd) <==>
              Single(rest, topic, fd) &&
              (TopicMatch(last.topic, topic) && fd in last.ids ==> last.topic !in Matching(rest, topic, fd))
  {
    var subs, n := rest + [last], |rest|;
    MatchingIs(rest, topic, fd, last.topic);
    assert forall i :: i in Entries(rest, topic, fd) ==> i in Entries(subs, topic, fd) && subs[i] == rest[i];
    assert forall i :: i in Entries(subs, topic, fd) && i != n ==> i in Entries(rest, topic, fd);
    if Single(subs, topic, fd) && TopicMatch(last.topic, topic) && fd in last.ids {
      assert n in Entries(subs, topic, fd);
    }
  }

  lemma {:induction false} PatternsAgainstEntries(subs: seq<Sub>, topic: string, fd: int)
    ensures |Matching(subs, topic, fd)| <= |Entries(subs, topic, fd)|
    ensures |Matching(subs, topic, fd)| == |Entries(subs, topic, fd)| <==> Single(subs, topic, fd)
    decreases |subs|
  {
    if subs == [] {
      assert Matching(subs, topic, fd) == {} && Entries(subs, topic, fd) == {};
    } else {
      var rest, last := subs[..|subs| - 1], subs[|subs| - 1];
      assert subs == rest + [last];
      PatternsAgainstEntries(rest, topic, fd);
      MatchingGrows(rest, last, topic, fd);
      EntriesGrow(rest, last, topic, fd);
      SingleGrows(rest, last, topic, fd);
    }
  }

  /**
   Publishing sends each descriptor other than the sender one copy per matching entry that lists
   it, the sender none, and nothing else. That is one copy per matching pattern exactly when no
   such pattern stands in the table twice.
   */
  lemma PublishExact(subs: seq<Sub>, topic: string, msg: string, sender: int, fd: int)
    requires forall i :: 0 <= i < |subs| ==> NoDuplicates(subs[i].ids)
    ensures var copies := multiset(Sends(subs, topic, msg, sender))[Sent(fd, msg)];
            && copies == (if fd == sender then 0 else |Entries(subs, topic, fd)|)
            && (fd != sender ==> (copies == |Matching(subs, topic, fd)| <==> Single(subs, topic, fd)))
    ensures forall m :: m in Sends(subs, topic, msg, sender) ==> m.msg == msg
    ensures DistinctTopics(subs) ==> Single(subs, topic, fd)
  {
    CopiesAreEntries(subs, topic, msg, sender, fd);
    PatternsAgainstEntries(subs, topic, fd);
  }

  // Subscribed to the topic itself, or to '#' behind a part that the topic begins with.
  ghost predicate Interested(subs: seq<Sub>, topic: string, fd: int) {
    Subscribed(subs, topic, fd) || exists n :: 0 <= n <= |topic| && Subscribed(subs, topic[..n] + "#", fd)
  }

  lemma MatchesInterest(subs: seq<Sub>, topic: string, fd: int, i: nat)
    requires i in Entries(subs, topic, fd)
    ensures Interested(subs, topic, fd)
  {
    var pattern := subs[i].topic;
    assert Subscribed(subs, pattern, fd);
    if pattern != "" && pattern[|pattern| - 1] == '#' {
      var prefix := pattern[..|pattern| - 1];
      assert pattern == prefix + "#";
      WildMatch(prefix, topic);
      var rest :| topic == prefix + rest;
      assert topic[..|prefix|] == prefix;
    } else {
      PlainMatch(pattern, topic);
    }
  }

  lemma InterestMatches(subs: seq<Sub>, topic: string, fd: int)
    requires Interested(subs, topic, fd)
    ensures Entries(subs, topic, fd) != {}
  {
    if Subscribed(subs, topic, fd) {
      var i :| 0 <= i < |subs| && subs[i].topic == topic && fd in subs[i].ids;
      assert i in Entries(subs, topic, fd);
    } else {
      var n :| 0 <= n <= |topic| && Subscribed(subs, topic[..n] + "#", fd);
      var i :| 0 <= i < |subs| && subs[i].topic == topic[..n] + "#" && fd in subs[i].ids;
      assert topic == topic[..n] + topic[n..];
      WildMatch(topic[..n], topic);
      assert i in Entries(subs, topic, fd);
    }
  }

  /**
   Who hears a publish: every client but the sender that is subscribed to the topic, or to '#' behind
   a part the topic begins with, and nobody else.
   */
  lemma WhoReceives(subs: seq<Sub>, topic: string, msg: string, sender: int, fd: int)
    requires forall i :: 0 <= i < |subs| ==> NoDuplicates(subs[i].ids)
    ensures Sent(fd, msg) in Sends(subs, topic, msg, sender) <==> fd != sender && Interested(subs, topic, fd)
  {
    CopiesAreEntries(subs, topic, msg, sender, fd);
    assert Sent(fd, msg) in Sends(subs, topic, msg, sender) <==> Sent(fd, msg) in multiset(Sends(subs, topic, msg, sender));
    if Interested(subs, topic, fd) {
      InterestMatches(subs, topic, fd);
    } else if Entries(subs, topic, fd) != {} {
      var i :| i in Entries(subs, topic, fd);
      MatchesInterest(subs, topic, fd, i);
    }
  }

  lemma TwiceListed(prefix: string, subs: seq<Sub>)
    requires subs == [Sub(prefix, [5]), Sub(prefix, [5])]
    ensures Entries(subs, prefix, 5) == {0, 1} && Matching(subs, prefix, 5) == {prefix}
  {
    assert subs[0] in subs && 5 in subs[0].ids && Subscribed(subs, prefix, 5);
    assert Topics(subs) == {prefix};
  }

  lemma TwiceUnsubscribed(prefix: string, subs: seq<Sub>)
    requires subs == [Sub(prefix, [5]), Sub(prefix, [5])]
    ensures Subscribed(UnsubscribeSpec(subs, 5, prefix), prefix, 5)
  {
    var after := UnsubscribeSpec(subs, 5, prefix);
    assert FindSub(subs, prefix) == 0;
    assert after[1].topic == prefix && 5 in after[1].ids;
  }

  /** On the repeated topic both go wrong: two copies for one pattern, and an UNSUB that leaves the pair. */
  lemma RepeatedTopicFails()
    ensures var subs, prefix := RepeatedTopic(), seq(TOPIC_ROOM, i => 'x');
            && |Entries(subs, prefix, 5)| == 2 && |Matching(subs, prefix, 5)| == 1
            && Subscribed(UnsubscribeSpec(subs, 5, prefix), prefix, 5)
  {
    RepeatedIs();
    TwiceListed(seq(TOPIC_ROOM, i => 'x'), RepeatedTopic());
    TwiceUnsubscribed(seq(TOPIC_ROOM, i => 'x'), RepeatedTopic());
  }
}
