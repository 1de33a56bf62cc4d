/** The receiving side of `libbb/bb_bus.c`: one poll of a client connection. */
module BusClient {
  import L = LineBuffer
  import T = BusText

  // The handler calls that a list of received lines causes.
  function Deliveries(lines: seq<string>): seq<T.Delivery> {
    if lines == [] then []
    else Called(lines[0]) + Deliveries(lines[1..])
  }

  // The handler call that one line causes, if any.
  function Called(line: string): seq<T.Delivery> {
    if T.ReadDelivery(line).Deliver? then [T.ReadDelivery(line)] else []
  }

  lemma DeliveriesFirst(line: string, rest: seq<string>)
    ensures Deliveries([line] + rest) == Called(line) + Deliveries(rest)
  {
    assert ([line] + rest)[1..] == rest;
  }

  lemma {:induction false} DeliveriesAppend(a: seq<string>, b: seq<string>)
    ensures Deliveries(a + b) == Deliveries(a) + Deliveries(b)
    decreases |a|
  {
    if a == [] {
      assert a + b == b;
    } else {
      var rest := a[1..];
      assert a == [a[0]] + rest && a + b == [a[0]] + (rest + b);
      DeliveriesFirst(a[0], rest);
      DeliveriesFirst(a[0], rest + b);
      DeliveriesAppend(rest, b);
    }
  }

  lemma DeliveriesNext(lines: seq<string>, i: nat)
    requires i < |lines|
    ensures Deliveries(lines[..i + 1]) == Deliveries(lines[..i]) + Called(lines[i])
  {
    assert lines[..i + 1] == lines[..i] + [lines[i]];
    DeliveriesAppend(lines[..i], [lines[i]]);
    DeliveriesFirst(lines[i], []);
    assert [lines[i]] + [] == [lines[i]];
  }

  class Connection {
    const input: L.Buffer          // one static buffer, shared by all connections of the process
    var calls: seq<T.Delivery>     // handler calls made so far
    var output: string             // bytes handed to send()

    // Connecting does not touch the receive buffer: it keeps what earlier or other connections left.
    constructor (shared: L.Buffer)
      requires shared.buf.Length == T.MAX_LINE
      ensures input == shared && calls == [] && output == ""
    {
      input := shared;
      calls, output := [], "";
    }

    // bb_bus_publish
    method Publish(topic: string, payload: string)
      modifies this`output
      ensures output == old(output) + T.ClientBytes(topic, payload)
    {
      var line := T.Clip(T.PubLine(topic, payload));
      output := output + line + "\n";
    }

    // bb_bus_poll after recv returned `chunk`
    method Poll(chunk: string)
      requires input.Valid() && 0 < |chunk| <= input.Room()
      modifies this`calls, input, input.buf
      ensures input.Valid() && input.Kept() == L.Split(old(input.Kept()) + chunk).tail
      ensures calls == old(calls) + Deliveries(L.Split(old(input.Kept()) + chunk).lines)
    {
      var lines := input.Receive(chunk);
      for i := 0 to |lines|
        invariant input.Valid() && input.Kept() == L.Split(old(input.Kept()) + chunk).tail
        invariant calls == old(calls) + Deliveries(lines[..i])
      {
        DeliveriesNext(lines, i);
        var delivery := T.ReadDelivery(lines[i]);
        if delivery.Deliver? {
          calls := calls + [delivery];
        }
      }
      assert lines[..|lines|] == lines;
    }
  }
}
