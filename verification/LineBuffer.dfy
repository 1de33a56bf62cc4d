/**
 Stream-to-line reassembly, as the daemon (`services/bb-busd.c`) does it per client with an 8192 byte
 buffer and the client library (`libbb/bb_bus.c`) does it with one of 4288 bytes.
 */
module LineBuffer {

  // ---- The specification: splitting at newlines ----

  // strchr(s + from, '\n'): the first newline from there on and before any NUL, or |s|
  function FirstNewline(s: string, from: nat): (i: nat)
    requires from <= |s|
    ensures from <= i <= |s| && (i < |s| ==> s[i] == '\n')
    decreases |s| - from
  {
    if from == |s| || s[from] == '\0' then |s| else if s[from] == '\n' then from else FirstNewline(s, from + 1)
  }

  // Complete lines, and what is left after the last one.
  datatype Pieces = Pieces(lines: seq<string>, tail: string)

  function Prepend(done: seq<string>, p: Pieces): Pieces {
    Pieces(done + p.lines, p.tail)
  }

  function SplitFrom(s: string, from: nat): Pieces
    requires from <= |s|
    decreases |s| - from
  {
    var i := FirstNewline(s, from);
    if i == |s| then Pieces([], s[from..]) else Prepend([s[from..i]], SplitFrom(s, i + 1))
  }

  function Split(s: string): Pieces {
    SplitFrom(s, 0)
  }

  predicate NoNul(s: string) { '\0' !in s }

  lemma {:induction false} NewlineAppend(a: string, b: string, from: nat)
    requires from <= |a| && FirstNewline(a, from) < |a|
    ensures FirstNewline(a + b, from) == FirstNewline(a, from)
    decreases |a| - from
  {
    if a[from] != '\n' {
      NewlineAppend(a, b, from + 1);
    }
  }

  // Splitting looks only at what follows.
  lemma {:induction false} NewlineShift(x: string, y: string, from: nat)
    requires from <= |y|
    ensures FirstNewline(x + y, |x| + from) == |x| + FirstNewline(y, from)
    decreases |y| - from
  {
    if from < |y| && y[from] != '\0' && y[from] != '\n' {
      NewlineShift(x, y, from + 1);
    }
  }

  lemma LineShift(x: string, y: string, from: nat, i: nat, rest: Pieces)
    requires from <= |y| && i == FirstNewline(y, from) < |y|
    requires SplitFrom(y, i + 1) == rest && SplitFrom(x + y, |x| + (i + 1)) == rest
    ensures SplitFrom(x + y, |x| + from) == SplitFrom(y, from)
  {
    NewlineShift(x, y, from);
    SliceShift(x, y, from, i);
    LineAt(y, from, i, y[from..i], rest);
    LineAt(x + y, |x| + from, |x| + i, y[from..i], rest);
  }

  lemma RestShift(x: string, y: string, from: nat)
    requires from <= |y| && FirstNewline(y, from) == |y|
    ensures SplitFrom(x + y, |x| + from) == SplitFrom(y, from)
  {
    NewlineShift(x, y, from);
    NoMoreLines(x + y, |x| + from);
    assert (x + y)[|x| + from..] == y[from..];
  }

  lemma {:induction false} SplitShift(x: string, y: string, from: nat)
    requires from <= |y|
    ensures SplitFrom(x + y, |x| + from) == SplitFrom(y, from)
    decreases |y| - from
  {
    var i := FirstNewline(y, from);
    if i < |y| {
      SplitShift(x, y, i + 1);
      LineShift(x, y, from, i, SplitFrom(y, i + 1));
    } else {
      RestShift(x, y, from);
    }
  }

  lemma SliceShift(x: string, y: string, i: nat, j: nat)
    requires i <= j <= |y|
    ensures (x + y)[|x| + i..|x| + j] == y[i..j]
  {
  }

  /** Splitting a text is splitting its first part, keeping the tail, and splitting tail and rest together. */
  lemma {:induction false} SplitAppend(a: string, b: string, from: nat)
    requires from <= |a|
    ensures var p := SplitFrom(a, from);
            SplitFrom(a + b, from) == Prepend(p.lines, Split(p.tail + b))
    decreases |a| - from
  {
    var i := FirstNewline(a, from);
    if i < |a| {
      SplitAppend(a, b, i + 1);
      LineJoins(a, b, from, i, SplitFrom(a, i + 1), SplitFrom(a + b, i + 1));
    } else {
      TailJoins(a, b, from, SplitFrom(a, from));
    }
  }

  lemma TailJoins(a: string, b: string, from: nat, p: Pieces)
    requires from <= |a| && FirstNewline(a, from) == |a| && p == SplitFrom(a, from)
    ensures SplitFrom(a + b, from) == Prepend(p.lines, Split(p.tail + b))
  {
    NoMoreLines(a, from);
    TailAppend(a, b, from);
    PrependNothing(Split(a[from..] + b));
  }

  lemma PrependNothing(p: Pieces)
    ensures Prepend([], p) == p
  {
    assert [] + p.lines == p.lines;
  }

  lemma LineJoins(a: string, b: string, from: nat, i: nat, rest: Pieces, whole: Pieces)
    requires from <= |a| && i == FirstNewline(a, from) < |a|
    requires rest == SplitFrom(a, i + 1) && whole == SplitFrom(a + b, i + 1)
    requires whole == Prepend(rest.lines, Split(rest.tail + b))
    ensures var p := SplitFrom(a, from);
            SplitFrom(a + b, from) == Prepend(p.lines, Split(p.tail + b))
  {
    var line := a[from..i];
    NewlineAppend(a, b, from);
    SliceAppend(a, b, from, i);
    LineAt(a, from, i, line, rest);
    LineAt(a + b, from, i, line, whole);
    CombineSplit(line, b, rest, whole, SplitFrom(a, from), SplitFrom(a + b, from));
  }

  lemma CombineSplit(line: string, b: string, rest: Pieces, whole: Pieces, p: Pieces, q: Pieces)
    requires p == Prepend([line], rest) && q == Prepend([line], whole)
    requires whole == Prepend(rest.lines, Split(rest.tail + b))
    ensures q == Prepend(p.lines, Split(p.tail + b))
  {
    Combine([line], rest, Split(rest.tail + b), whole);
  }

  lemma SliceAppend(a: string, b: string, i: nat, j: nat)
    requires i <= j <= |a|
    ensures (a + b)[i..j] == a[i..j]
  {
  }

  // The definition, with everything named.
  lemma LineAt(s: string, from: nat, i: nat, line: string, rest: Pieces)
    requires from <= |s| && i == FirstNewline(s, from) < |s| && line == s[from..i] && rest == SplitFrom(s, i + 1)
    ensures SplitFrom(s, from) == Prepend([line], rest)
  {
  }

  lemma TailAppend(a: string, b: string, from: nat)
    requires from <= |a|
    ensures SplitFrom(a + b, from) == Split(a[from..] + b)
  {
    assert a + b == a[..from] + (a[from..] + b);
    SplitShift(a[..from], a[from..] + b, 0);
  }

  lemma PrependTwice(a: seq<string>, b: seq<string>, p: Pieces)
    ensures Prepend(a, Prepend(b, p)) == Prepend(a + b, p)
  {
    assert a + (b + p.lines) == (a + b) + p.lines;
  }

  lemma Combine(line: seq<string>, rest: Pieces, more: Pieces, whole: Pieces)
    requires whole == Prepend(rest.lines, more)
    ensures Prepend(line, whole) == Prepend(Prepend(line, rest).lines, more)
  {
    PrependTwice(line, rest.lines, more);
  }

  // The last line was handed out.
  lemma AllHandedOut(lines: seq<string>, text: string, start: nat)
    requires start <= |text| && FirstNewline(text, start) == |text| && Prepend(lines, SplitFrom(text, start)) == Split(text)
    ensures Pieces(lines, text[start..]) == Split(text)
  {
    NoMoreLines(text, start);
    assert lines + [] == lines;
  }

  lemma NoMoreLines(s: string, from: nat)
    requires from <= |s| && FirstNewline(s, from) == |s|
    ensures SplitFrom(s, from) == Pieces([], s[from..])
  {
  }

  // The definition, with the line named.
  lemma FirstLine(s: string, from: nat, line: string)
    requires from <= |s| && FirstNewline(s, from) < |s| && line == s[from..FirstNewline(s, from)]
    ensures SplitFrom(s, from) == Prepend([line], SplitFrom(s, FirstNewline(s, from) + 1))
  {
  }

  // One more line handed out.
  lemma NextLine(done: seq<string>, s: string, from: nat, line: string)
    requires from <= |s| && FirstNewline(s, from) < |s| && line == s[from..FirstNewline(s, from)]
    ensures Prepend(done, SplitFrom(s, from)) == Prepend(done + [line], SplitFrom(s, FirstNewline(s, from) + 1))
  {
    FirstLine(s, from, line);
    PrependTwice(done, [line], SplitFrom(s, FirstNewline(s, from) + 1));
  }

  lemma {:induction false} TailHasNoLine(s: string, from: nat)
    requires from <= |s|
    ensures var t := SplitFrom(s, from).tail; FirstNewline(t, 0) == |t|
    decreases |s| - from
  {
    var i := FirstNewline(s, from);
    if i < |s| {
      TailHasNoLine(s, i + 1);
      FirstLine(s, from, s[from..i]);
    } else {
      NoMoreLines(s, from);
      SuffixHasNoLine(s, from);
    }
  }

  lemma SuffixHasNoLine(s: string, from: nat)
    requires from <= |s| && FirstNewline(s, from) == |s|
    ensures FirstNewline(s[from..], 0) == |s[from..]|
  {
    assert s == s[..from] + s[from..];
    NewlineShift(s[..from], s[from..], 0);
  }

  // ---- Chunks ----

  function Concat(chunks: seq<string>): string {
    if chunks == [] then [] else chunks[0] + Concat(chunks[1..])
  }

  // What a receiver has handed out and kept after a sequence of chunks.
  function Feed(kept: string, chunks: seq<string>): Pieces
    decreases |chunks|
  {
    if chunks == [] then Pieces([], kept)
    else var p := Split(kept + chunks[0]); Prepend(p.lines, Feed(p.tail, chunks[1..]))
  }

  /** Chunking independence: however a stream is cut, the same lines come out and the same tail is kept. */
  lemma {:induction false} ChunkingIndependent(kept: string, chunks: seq<string>)
    requires FirstNewline(kept, 0) == |kept|
    ensures Feed(kept, chunks) == Split(kept + Concat(chunks))
    decreases |chunks|
  {
    if chunks == [] {
      assert kept + Concat(chunks) == kept;
    } else {
      var c, rest := chunks[0], chunks[1..];
      TailHasNoLine(kept + c, 0);
      ChunkingIndependent(Split(kept + c).tail, rest);
      SplitAppend(kept + c, Concat(rest), 0);
      assert kept + Concat(chunks) == (kept + c) + Concat(rest);
    }
  }

  // ---- Streams whose lines fit ----

  // Every line leaves room in a buffer of `size` bytes for itself, its newline and the terminator.
  ghost predicate LinesFit(s: string, from: nat, size: nat)
    requires from <= |s|
    decreases |s| - from
  {
    var i := FirstNewline(s, from);
    i - from + 2 <= size && (i < |s| ==> LinesFit(s, i + 1, size))
  }

  lemma {:induction false} CutHasRoom(a: string, b: string, from: nat, size: nat)
    requires from <= |a| && NoNul(a + b) && LinesFit(a + b, from, size)
    ensures |SplitFrom(a, from).tail| + 2 <= size
    decreases |a| - from
  {
    var i := FirstNewline(a, from);
    if i < |a| {
      NewlineAppend(a, b, from);
      CutHasRoom(a, b, i + 1, size);
    } else {
      NoEarlierNewline(a, b, from);
    }
  }

  lemma {:induction false} NoEarlierNewline(a: string, b: string, from: nat)
    requires from <= |a| && NoNul(a + b) && FirstNewline(a, from) == |a|
    ensures FirstNewline(a + b, from) >= |a|
    decreases |a| - from
  {
    if from < |a| {
      assert a[from] == (a + b)[from] && (a + b)[from] in a + b;
      NoEarlierNewline(a, b, from + 1);
    }
  }

  lemma {:induction false} NewlineIn(s: string, from: nat, n: nat)
    requires from <= n <= |s| && NoNul(s)
    ensures FirstNewline(s[..n], from) == if FirstNewline(s, from) < n then FirstNewline(s, from) else n
    decreases n - from
  {
    if from < n {
      assert s[..n][from] == s[from] && s[from] in s;
      if s[from] != '\n' {
        NewlineIn(s, from + 1, n);
      }
    }
  }

  // The cut behind which there is no room for another byte.
  lemma {:induction false} CutWithoutRoom(s: string, from: nat, size: nat) returns (n: nat)
    requires from <= |s| && NoNul(s) && !LinesFit(s, from, size)
    ensures from <= n <= |s| && |SplitFrom(s[..n], from).tail| + 2 > size
    decreases |s| - from
  {
    var i := FirstNewline(s, from);
    if i - from + 2 > size {
      n := i;
      NewlineIn(s, from, n);
      NoMoreLines(s[..n], from);
    } else {
      n := CutWithoutRoom(s, i + 1, size);
      NewlineIn(s, from, n);
      LineAt(s[..n], from, i, s[..n][from..i], SplitFrom(s[..n], i + 1));
    }
  }

  // However much of the stream has come, the kept text, one more byte and the terminator fit.
  ghost predicate RoomAtEveryCut(s: string, size: nat) {
    forall n :: 0 <= n <= |s| ==> |Split(s[..n]).tail| + 2 <= size
  }

  /** There is a byte of room to receive into, wherever the stream is cut, exactly when its lines fit. */
  lemma RoomToReceive(s: string, size: nat)
    requires NoNul(s)
    ensures RoomAtEveryCut(s, size) <==> LinesFit(s, 0, size)
  {
    if LinesFit(s, 0, size) {
      forall n | 0 <= n <= |s| ensures |Split(s[..n]).tail| + 2 <= size {
        assert s[..n] + s[n..] == s;
        CutHasRoom(s[..n], s[n..], 0, size);
      }
    } else {
      var n := CutWithoutRoom(s, 0, size);
    }
  }

  // ---- The buffer ----

  class Buffer {
    const buf: array<char>
    var len: nat

    constructor (size: nat)
      requires size > 0
      ensures buf.Length == size && fresh(buf) && Valid() && Kept() == []
    {
      buf := new char[size](i => '\0');
      len := 0;
    }

    ghost predicate Valid()
      reads this, buf
    {
      len < buf.Length && buf[len] == '\0' && FirstNewline(buf[..len], 0) == len
    }

    function Kept(): string
      requires len <= buf.Length
      reads this, buf
    {
      buf[..len]
    }

    // How much recv may be asked for.
    function Room(): int
      reads this
    {
      buf.Length - len - 1
    }

    // From start on the buffer still holds the text.
    ghost predicate Unread(text: string, start: nat)
      reads this, buf
    {
      start <= len == |text| < buf.Length && buf[len] == '\0' && forall i :: start <= i < len ==> buf[i] == text[i]
    }

    method FindNewline(start: nat, ghost text: string) returns (nl: nat)
      requires Unread(text, start)
      ensures nl == FirstNewline(text, start)
    {
      nl := start;
      while nl < len
        invariant start <= nl <= len && FirstNewline(text, start) == FirstNewline(text, nl)
      {
        if buf[nl] == '\n' {
          return;
        }
        if buf[nl] == '\0' {
          return len;
        }
        nl := nl + 1;
      }
    }

    method Append(chunk: string)
      requires len < buf.Length && |chunk| <= Room()
      modifies this, buf
      ensures len == old(len) + |chunk| < buf.Length && buf[len] == '\0' && Kept() == old(Kept()) + chunk
    {
      var at := len;
      forall i | 0 <= i < |chunk| {
        buf[at + i] := chunk[i];
      }
      len := len + |chunk|;
      buf[len] := '\0';
    }

    // Ends the line that runs from start to nl with a NUL in place.
    method CutLine(start: nat, nl: nat, ghost text: string) returns (line: string)
      requires Unread(text, start) && start <= nl < len
      modifies buf
      ensures line == text[start..nl] && Unread(text, nl + 1)
    {
      line := buf[start..nl];
      buf[nl] := '\0';
    }

    // One turn of the loop: the line that ends at nl, and where the next one ends.
    method TakeLine(start: nat, nl: nat, ghost text: string) returns (line: string, next: nat)
      requires Unread(text, start) && start <= nl < len
      modifies buf
      ensures Unread(text, nl + 1) && line == text[start..nl] && next == FirstNewline(text, nl + 1)
    {
      line := CutLine(start, nl, text);
      next := FindNewline(nl + 1, text);
    }

    // Hands out the complete lines; returns where the unfinished one starts.
    method CutLines(ghost text: string) returns (lines: seq<string>, start: nat)
      requires Unread(text, 0)
      modifies buf
      ensures Unread(text, start) && Pieces(lines, text[start..]) == Split(text)
    {
      lines, start := [], 0;
      PrependNothing(Split(text));
      var nl := FindNewline(0, text);
      while nl < len
        invariant start <= nl <= len && Unread(text, start)
        invariant nl == FirstNewline(text, start) && Prepend(lines, SplitFrom(text, start)) == Split(text)
        decreases len - start
      {
        var line, next := TakeLine(start, nl, text);
        NextLine(lines, text, start, line);
        lines, start, nl := lines + [line], nl + 1, next;
      }
      AllHandedOut(lines, text, start);
    }

    // memmove of the unfinished line to the front
    method Shift(start: nat)
      requires start <= len < buf.Length
      modifies this, buf
      ensures len == old(len) - start && buf[len] == '\0' && Kept() == old(buf[start..len])
    {
      var rest := len - start;
      forall i | 0 <= i < rest {
        buf[i] := buf[start + i];
      }
      len := rest;
      buf[len] := '\0';
    }

    // Appends one received chunk, hands out the complete lines and keeps the rest.
    method Receive(chunk: string) returns (lines: seq<string>)
      requires Valid() && 0 < |chunk| <= Room()
      modifies this, buf
      ensures Valid() && Pieces(lines, Kept()) == Split(old(Kept()) + chunk)
    {
      Append(chunk);
      TailHasNoLine(Kept(), 0);
      var start: nat;
      ghost var text := Kept();
      lines, start := CutLines(text);
      assert buf[start..len] == text[start..];
      if start > 0 {
        Shift(start);
      }
    }
  }
}
