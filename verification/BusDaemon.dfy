/**
 The daemon of `services/bb-busd.c`: its loops over the client and subscription arrays, proved
 against the table operations of module Broker.
 */
module BusDaemon {
  import B = Broker
  import T = BusText

  // What one request line makes the daemon send: a message to its subscribers, or a pong.
  function Served(subs: seq<B.Sub>, fd: int, line: string): seq<B.Sent> {
    match T.Parse(line)
    case Pub(topic, payload) =>
      if |B.Message(topic, payload)| < B.BUF_SIZE then B.Sends(subs, topic, B.Message(topic, payload), fd) else []
    case Ping => [B.Sent(fd, "PONG\n")]
    case _ => []
  }

  // What it does to the table.
  function Updated(subs: seq<B.Sub>, fd: int, line: string): seq<B.Sub> {
    match T.Parse(line)
    case Sub(topic) => B.SubscribeSpec(subs, fd, topic)
    case Unsub(topic) => B.UnsubscribeSpec(subs, fd, topic)
    case _ => subs
  }

  /**
   Who is sent what on a PUB line: its message goes to every client but the sender that is interested
   in the topic, as long as it and its terminator fit 8192 bytes, and nothing else goes to anyone.
   */
  lemma ServedPublish(subs: seq<B.Sub>, sender: int, line: string, m: B.Sent)
    requires T.Parse(line).Pub? && forall i :: 0 <= i < |subs| ==> B.NoDuplicates(subs[i].ids)
    ensures var topic, payload := T.Parse(line).topic, T.Parse(line).payload;
            m in Served(subs, sender, line) <==>
              && m.msg == "PUB " + topic + " " + payload + "\n" && |topic| + |payload| + 6 <= 8191
              && m.fd != sender && B.Interested(subs, topic, m.fd)
  {
    var topic, payload := T.Parse(line).topic, T.Parse(line).payload;
    var msg := B.Message(topic, payload);
    assert |msg| == |topic| + |payload| + 6;
    B.WhoReceives(subs, topic, msg, sender, m.fd);
    B.CopiesAreEntries(subs, topic, msg, sender, m.fd);
    assert m == B.Sent(m.fd, m.msg);
  }

  /** A pong goes to the client whose line is PING, and to nobody on any other line. */
  lemma PongOnlyToPing(subs: seq<B.Sub>, sender: int, line: string, fd: int)
    requires forall i :: 0 <= i < |subs| ==> B.NoDuplicates(subs[i].ids)
    ensures B.Sent(fd, "PONG\n") in Served(subs, sender, line) <==> fd == sender && line == "PING"
    ensures line == "PING" ==> |Served(subs, sender, line)| == 1 && Updated(subs, sender, line) == subs
  {
    if T.Parse(line).Pub? {
      ServedPublish(subs, sender, line, B.Sent(fd, "PONG\n"));
      assert ("PUB " + T.Parse(line).topic + " " + T.Parse(line).payload + "\n")[1] == 'U' && "PONG\n"[1] == 'O';
      assert line[1] == "PUB "[1] == 'U';
    }
  }

  class Daemon {
    var clients: seq<int>
    var subs: seq<B.Sub>
    var sent: seq<B.Sent>      // everything handed to send()

    constructor ()
      ensures Table() == B.Table([], []) && sent == []
    {
      clients, subs, sent := [], [], [];
    }

    function Table(): B.Table
      reads this
    {
      B.Table(subs, clients)
    }

    // find_sub
    method FindSub(topic: string) returns (idx: int)
      ensures idx == if B.FindSub(subs, topic) < |subs| then B.FindSub(subs, topic) else -1
    {
      var i := 0;
      while i < |subs|
        invariant 0 <= i <= |subs| && forall k :: 0 <= k < i ==> subs[k].topic != topic
      {
        if subs[i].topic == topic {
          return i;
        }
        i := i + 1;
      }
      return -1;
    }

    // Is fd among the ids?
    method Contains(ids: seq<int>, fd: int) returns (found: bool)
      ensures found <==> fd in ids
    {
      found := false;
      for j := 0 to |ids|
        invariant fd !in ids[..j]
      {
        if ids[j] == fd {
          return true;
        }
      }
    }

    // The SUB branch of handle_line
    method HandleSub(fd: int, topic: string)
      modifies this
      ensures subs == B.SubscribeSpec(old(subs), fd, topic) && clients == old(clients) && sent == old(sent)
    {
      var idx := FindSub(topic);
      if idx < 0 && |subs| < B.MAX_SUBS {
        idx := |subs|;
        subs := subs + [B.Sub(B.Stored(topic), [])];
      }
      if idx >= 0 && |subs[idx].ids| < B.MAX_CLIENTS {
        var found := Contains(subs[idx].ids, fd);
        if !found {
          subs := subs[idx := subs[idx].(ids := subs[idx].ids + [fd])];
        }
      }
    }

    // The UNSUB branch of handle_line
    method HandleUnsub(fd: int, topic: string)
      modifies this
      ensures subs == B.UnsubscribeSpec(old(subs), fd, topic) && clients == old(clients) && sent == old(sent)
    {
      var idx := FindSub(topic);
      if idx >= 0 {
        var ids := subs[idx].ids;
        var j := 0;
        while j < |ids|
          invariant 0 <= j <= |ids| && B.RemoveFirst(ids, fd, 0) == B.RemoveFirst(ids, fd, j)
        {
          if ids[j] == fd {
            subs := subs[idx := subs[idx].(ids := B.SwapRemove(ids, j))];
            return;
          }
          j := j + 1;
        }
      }
    }

    // The inner loop of publish
    method SendTo(ids: seq<int>, msg: string, sender: int)
      modifies this`sent
      ensures sent == old(sent) + B.SendsTo(ids, msg, sender)
    {
      for j := 0 to |ids|
        invariant sent == old(sent) + B.SendsTo(ids[..j], msg, sender)
      {
        assert ids[..j + 1][..j] == ids[..j];
        if ids[j] != sender {
          sent := sent + [B.Sent(ids[j], msg)];
        }
      }
      assert ids[..|ids|] == ids;
    }

    // publish: a message that does not fit the buffer is not sent at all
    method Publish(topic: string, payload: string, sender: int)
      modifies this`sent
      ensures sent == old(sent) + if |B.Message(topic, payload)| < B.BUF_SIZE
                                  then B.Sends(subs, topic, B.Message(topic, payload), sender) else []
    {
      var msg := B.Message(topic, payload);
      if |msg| >= B.BUF_SIZE {
        return;
      }
      for i := 0 to |subs|
        invariant sent == old(sent) + B.Sends(subs[..i], topic, msg, sender)
      {
        assert subs[..i + 1][..i] == subs[..i];
        if B.TopicMatch(subs[i].topic, topic) {
          SendTo(subs[i].ids, msg, sender);
        }
      }
      assert subs[..|subs|] == subs;
    }

    // handle_line
    method HandleLine(fd: int, line: string)
      modifies this
      ensures clients == old(clients)
      ensures sent == old(sent) + Served(old(subs), fd, line)
      ensures subs == Updated(old(subs), fd, line)
    {
      match T.Parse(line) {
        case Pub(topic, payload) => Publish(topic, payload, fd);
        case Sub(topic) => HandleSub(fd, topic);
        case Unsub(topic) => HandleUnsub(fd, topic);
        case Ping => sent := sent + [B.Sent(fd, "PONG\n")];
        case Ignored =>
      }
    }

    // The inner purge loop of remove_client, with its j--
    method PurgeIds(ids: seq<int>, fd: int) returns (rest: seq<int>)
      ensures rest == B.Purge(ids, fd, 0)
    {
      rest := ids;
      var j := 0;
      while j < |rest|
        invariant 0 <= j <= |rest| && B.Purge(rest, fd, j) == B.Purge(ids, fd, 0)
        decreases |rest| - j
      {
        if rest[j] == fd {
          rest := B.SwapRemove(rest, j);
          j := j - 1;
        }
        j := j + 1;
      }
    }

    // remove_client
    method RemoveClient(idx: nat)
      requires idx < |clients|
      modifies this
      ensures subs == B.PurgeSpec(old(subs), old(clients)[idx]) && sent == old(sent)
      ensures clients == old(clients)[..idx] + old(clients)[idx + 1..]
    {
      var fd := clients[idx];
      for i := 0 to |subs|
        invariant |subs| == |old(subs)| && clients == old(clients) && sent == old(sent)
        invariant subs[..i] == B.PurgeSpec(old(subs), fd)[..i]
        invariant subs[i..] == old(subs)[i..]
      {
        var ids := PurgeIds(subs[i].ids, fd);
        assert subs[i] == old(subs)[i];
        subs := subs[i := subs[i].(ids := ids)];
      }
      assert subs[..|subs|] == subs;
      clients := clients[..idx] + clients[idx + 1..];
    }

    // A new connection
    method Accept(cfd: int)
      modifies this
      ensures clients == (if |old(clients)| < 64 then old(clients) + [cfd] else old(clients))
      ensures Table() == B.Handle(old(Table()), B.Connect(cfd)) && sent == old(sent)
    {
      if |clients| < B.MAX_CLIENTS {
        clients := clients + [cfd];
      }
    }
  }

  /** Shifting the client array down is the deletion of the table's Disconnect. */
  lemma {:induction false} ShiftIsRemoval(clients: seq<int>, idx: nat)
    requires B.NoDuplicates(clients) && idx < |clients|
    ensures clients[..idx] + clients[idx + 1..] == B.WithoutClient(clients, clients[idx])
  {
    if idx > 0 {
      ShiftIsRemoval(clients[1..], idx - 1);
      assert clients[..idx] + clients[idx + 1..] == [clients[0]] + (clients[1..][..idx - 1] + clients[1..][idx..]);
    }
  }
}
