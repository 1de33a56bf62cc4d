/**
 The line protocol of the bus: how `services/bb-busd.c` reads a request line, how `libbb/bb_bus.c`
 writes one and how it reads a delivered message.  Strings contain no NUL.
 */
module BusText {

  const MAX_LINE: nat := 4288      // BB_MAX_LINE
  const TOPIC_SCAN: nat := 255     // %255s

  // isspace in the C locale
  predicate IsSpace(c: char) {
    c == ' ' || c == '\t' || c == '\n' || c == '\r' || c == '\U{0B}' || c == '\U{0C}'
  }

  predicate AllSpace(s: string) {
    forall i :: 0 <= i < |s| ==> IsSpace(s[i])
  }

  predicate NoSpace(s: string) {
    forall i :: 0 <= i < |s| ==> !IsSpace(s[i])
  }

  // A blank in a scanf format
  function SkipSpace(s: string): string {
    if s != [] && IsSpace(s[0]) then SkipSpace(s[1..]) else s
  }

  // %<n>s after its leading blanks are gone
  function Word(s: string, n: nat): (w: string)
    ensures w <= s && |w| <= n
  {
    if s == [] || n == 0 || IsSpace(s[0]) then [] else [s[0]] + Word(s[1..], n - 1)
  }

  // What follows the first ' ', or nothing
  function AfterBlank(s: string): string {
    if s == [] then [] else if s[0] == ' ' then s[1..] else AfterBlank(s[1..])
  }

  // strchr(s, ' ')
  function FirstBlank(s: string): (i: nat)
    ensures i <= |s| && (i < |s| ==> s[i] == ' ') && ' ' !in s[..i]
  {
    if s == [] || s[0] == ' ' then 0
    else var i := 1 + FirstBlank(s[1..]); assert s[..i] == [s[0]] + s[1..][..i - 1]; i
  }

  datatype Request =
    | Pub(topic: string, payload: string)
    | Sub(topic: string)
    | Unsub(topic: string)
    | Ping
    | Ignored

  function ScanTopic(rest: string): string {
    Word(SkipSpace(rest), TOPIC_SCAN)
  }

  /**
   The four branches of handle_line.  PUB needs both conversions of its sscanf to succeed, but takes
   the payload from behind the first blank after the command.
   */
  function Parse(line: string): Request {
    if "PUB " <= line then
      var rest := SkipSpace(line[3..]);
      var topic := Word(rest, TOPIC_SCAN);
      if topic != [] && SkipSpace(rest[|topic|..]) != [] then Pub(topic, AfterBlank(line[4..])) else Ignored
    else if "SUB " <= line && ScanTopic(line[3..]) != [] then Sub(ScanTopic(line[3..]))
    else if "UNSUB " <= line && ScanTopic(line[5..]) != [] then Unsub(ScanTopic(line[5..]))
    else if line == "PING" then Ping
    else Ignored
  }

  // ---- The client half ----

  // snprintf into a buffer of BB_MAX_LINE
  function Clip(line: string): string {
    if |line| < MAX_LINE then line else line[..MAX_LINE - 1]
  }

  function PubLine(topic: string, payload: string): string {
    "PUB " + topic + " " + payload
  }

  // What bb_bus_publish sends.
  function ClientBytes(topic: string, payload: string): string {
    Clip(PubLine(topic, payload)) + "\n"
  }

  datatype Delivery = Deliver(topic: string, payload: string) | NoDelivery

  // What bb_bus_poll does with one received line.
  function ReadDelivery(line: string): Delivery {
    if "PUB " <= line && FirstBlank(line[4..]) < |line[4..]| then
      var i := FirstBlank(line[4..]);
      Deliver(line[4..][..i], line[4..][i + 1..])
    else NoDelivery
  }

  // ---- Round trip of one line ----

  lemma {:induction false} SkipSpaceEmpty(s: string)
    ensures SkipSpace(s) == [] <==> AllSpace(s)
  {
    if s != [] && IsSpace(s[0]) {
      SkipSpaceEmpty(s[1..]);
      assert AllSpace(s[1..]) ==> AllSpace(s);
    }
  }

  // What %255s takes of a word.
  function Scanned(word: string): string {
    if |word| <= 255 then word else word[..255]
  }

  lemma {:induction false} WordTakes(word: string, rest: string, n: nat)
    requires NoSpace(word) && (rest == [] || IsSpace(rest[0]))
    ensures Word(word + rest, n) == if |word| <= n then word else word[..n]
    decreases |word|
  {
    if word != [] && n > 0 {
      assert (word + rest)[0] == word[0] && (word + rest)[1..] == word[1..] + rest;
      WordTakes(word[1..], rest, n - 1);
    }
  }

  lemma WordStops(topic: string, rest: string, n: nat)
    requires NoSpace(topic) && |topic| <= n && (rest == [] || IsSpace(rest[0]))
    ensures Word(topic + rest, n) == topic
  {
    WordTakes(topic, rest, n);
  }

  lemma {:induction false} AfterBlankFinds(topic: string, payload: string)
    requires ' ' !in topic
    ensures AfterBlank(topic + " " + payload) == payload
  {
    var s := topic + " " + payload;
    if topic != [] {
      assert s[1..] == topic[1..] + " " + payload;
      AfterBlankFinds(topic[1..], payload);
    }
  }

  /**
   The daemon reads back exactly the topic and the payload, leading blanks included - unless the
   payload is blank throughout, in which case it drops the message.
   */
  lemma ParseInvertsPub(topic: string, payload: string)
    requires topic != [] && NoSpace(topic) && |topic| <= TOPIC_SCAN
    ensures Parse(PubLine(topic, payload)) == if AllSpace(payload) then Ignored else Pub(topic, payload)
  {
    var line := PubLine(topic, payload);
    assert line[4..] == topic + " " + payload;
    assert line[3..] == " " + line[4..];
    assert line[3..][1..] == line[4..];
    assert !IsSpace(line[4..][0]);
    assert SkipSpace(line[3..]) == line[4..];
    assert line[4..] == topic + (" " + payload);
    WordStops(topic, " " + payload, TOPIC_SCAN);
    assert line[4..][|topic|..] == " " + payload;
    SkipSpaceEmpty(" " + payload);
    assert AllSpace(" " + payload) <==> AllSpace(payload) by {
      assert forall i :: 0 <= i < |payload| ==> payload[i] == (" " + payload)[i + 1];
    }
    AfterBlankFinds(topic, payload);
  }

  lemma ScanTopicBack(topic: string)
    requires topic != [] && NoSpace(topic) && |topic| <= TOPIC_SCAN
    ensures ScanTopic(" " + topic) == topic
  {
    assert (" " + topic)[1..] == topic;
    assert SkipSpace(" " + topic) == SkipSpace(topic) == topic;
    WordStops(topic, "", TOPIC_SCAN);
    assert topic + "" == topic;
  }

  /** Subscription requests are read back with their topic. */
  lemma ParseInvertsSub(topic: string)
    requires topic != [] && NoSpace(topic) && |topic| <= TOPIC_SCAN
    ensures Parse("SUB " + topic) == Sub(topic)
    ensures Parse("UNSUB " + topic) == Unsub(topic)
  {
    ScanTopicBack(topic);
    var sub, unsub := "SUB " + topic, "UNSUB " + topic;
    assert sub[0] == 'S' && "SUB " <= sub && sub[3..] == " " + topic;
    assert unsub[0] == 'U' && "UNSUB " <= unsub && unsub[5..] == " " + topic;
  }

  lemma {:induction false} SkipAll(sp: string, s: string)
    requires AllSpace(sp) && (s == [] || !IsSpace(s[0]))
    ensures SkipSpace(sp + s) == s
    decreases |sp|
  {
    if sp == [] {
      assert sp + s == s;
    } else {
      assert (sp + s)[0] == sp[0] && (sp + s)[1..] == sp[1..] + s;
      SkipAll(sp[1..], s);
    }
  }

  // The first word of a text, after any blanks
  lemma FirstWord(sp: string, word: string, rest: string)
    requires AllSpace(sp) && word != [] && NoSpace(word) && (rest == [] || IsSpace(rest[0]))
    ensures SkipSpace(sp + (word + rest)) == word + rest && Word(word + rest, TOPIC_SCAN) == Scanned(word)
  {
    assert (word + rest)[0] == word[0];
    SkipAll(sp, word + rest);
    WordTakes(word, rest, TOPIC_SCAN);
  }

  lemma TopicScanned(sp: string, word: string, rest: string)
    requires AllSpace(sp) && word != [] && NoSpace(word) && (rest == [] || IsSpace(rest[0]))
    ensures ScanTopic(" " + (sp + (word + rest))) == Scanned(word)
  {
    FirstWord(sp, word, rest);
    SkipOne(sp + (word + rest));
  }

  // The SUB and UNSUB branches, with everything named.
  lemma SubBranch(line: string, words: string, topic: string)
    requires line == "SUB " + words && topic == ScanTopic(" " + words) && topic != []
    ensures Parse(line) == Sub(topic)
  {
    assert line[0] == 'S' && "SUB " <= line && line[3..] == " " + words;
  }

  lemma UnsubBranch(line: string, words: string, topic: string)
    requires line == "UNSUB " + words && topic == ScanTopic(" " + words) && topic != []
    ensures Parse(line) == Unsub(topic)
  {
    assert line[0] == 'U' && "UNSUB " <= line && line[5..] == " " + words;
  }

  /** A SUB or UNSUB request names its first word, up to 255 characters of it, whatever blanks stand before and whatever follows. */
  lemma ParseSubLine(sp: string, word: string, rest: string)
    requires AllSpace(sp) && word != [] && NoSpace(word) && (rest == [] || IsSpace(rest[0]))
    ensures Parse("SUB " + (sp + (word + rest))) == Sub(Scanned(word))
    ensures Parse("UNSUB " + (sp + (word + rest))) == Unsub(Scanned(word))
  {
    var words := sp + (word + rest);
    TopicScanned(sp, word, rest);
    SubBranch("SUB " + words, words, Scanned(word));
    UnsubBranch("UNSUB " + words, words, Scanned(word));
  }

  // What the second conversion finds behind a word and the part of it that the first one took.
  lemma BehindScanned(word: string, rest: string)
    requires NoSpace(word) && (rest == [] || IsSpace(rest[0]))
    ensures Scanned(word) <= word + rest
    ensures SkipSpace((word + rest)[|Scanned(word)|..]) == [] <==> |word| <= 255 && AllSpace(rest)
  {
    var left := (word + rest)[|Scanned(word)|..];
    if |word| <= 255 {
      assert left == rest;
      SkipSpaceEmpty(rest);
    } else {
      assert left[0] == word[255];
    }
  }

  // The PUB branch, with everything named.
  lemma PubBranch(line: string, words: string, tail: string, topic: string)
    requires line == "PUB " + words && SkipSpace(" " + words) == tail && topic == Word(tail, TOPIC_SCAN)
    ensures Parse(line) == if topic != [] && SkipSpace(tail[|topic|..]) != [] then Pub(topic, AfterBlank(words)) else Ignored
  {
    assert "PUB " <= line && line[3..] == " " + words && line[4..] == words;
  }

  /**
   A PUB request names its first word, up to 255 characters of it, and is dropped when that is all of
   the word and nothing but blanks follows; its payload is what follows the first ' ' behind the command.
   */
  lemma ParsePubLine(sp: string, word: string, rest: string)
    requires AllSpace(sp) && word != [] && NoSpace(word) && (rest == [] || IsSpace(rest[0]))
    ensures Parse("PUB " + (sp + (word + rest))) ==
              if |word| <= 255 && AllSpace(rest) then Ignored else Pub(Scanned(word), AfterBlank(sp + (word + rest)))
  {
    var words, tail, topic := sp + (word + rest), word + rest, Scanned(word);
    PubTail(sp, word, rest, words, tail);
    BehindScanned(word, rest);
    PubBranch("PUB " + words, words, tail, topic);
  }

  lemma PubTail(sp: string, word: string, rest: string, words: string, tail: string)
    requires AllSpace(sp) && word != [] && NoSpace(word) && (rest == [] || IsSpace(rest[0]))
    requires tail == word + rest && words == sp + tail
    ensures SkipSpace(" " + words) == tail && Word(tail, TOPIC_SCAN) == Scanned(word)
  {
    FirstWord(sp, word, rest);
    SkipOne(words);
  }

  lemma SkipOne(s: string)
    ensures SkipSpace(" " + s) == SkipSpace(s)
  {
    assert (" " + s)[1..] == s;
  }

  /** So a payload behind one blank is taken whole; with a second blank behind the command the topic is taken with it. */
  lemma PayloadTaken(word: string, payload: string)
    requires NoSpace(word)
    ensures AfterBlank(word + (" " + payload)) == payload
    ensures AfterBlank(" " + (word + (" " + payload))) == word + (" " + payload)
  {
    assert word + (" " + payload) == word + " " + payload;
    AfterBlankFinds(word, payload);
    assert (" " + (word + (" " + payload)))[1..] == word + (" " + payload);
  }

  /** A request without a word is dropped, and so is every line that is no request. */
  lemma NothingAsked(sp: string, line: string)
    requires AllSpace(sp)
    ensures Parse("PUB " + sp) == Parse("SUB " + sp) == Parse("UNSUB " + sp) == Ignored
    ensures !("PUB " <= line) && !("SUB " <= line) && !("UNSUB " <= line) && line != "PING" ==> Parse(line) == Ignored
  {
    var pub, sub, unsub := "PUB " + sp, "SUB " + sp, "UNSUB " + sp;
    SkipOne(sp);
    SkipSpaceEmpty(sp);
    assert pub[0] == 'P' && "PUB " <= pub && pub[3..] == " " + sp;
    assert sub[0] == 'S' && "SUB " <= sub && sub[3..] == " " + sp;
    assert unsub[0] == 'U' && "UNSUB " <= unsub && unsub[5..] == " " + sp;
  }

  /** White space is the six characters of the C locale: codes 9 to 13 and 32. */
  lemma SpaceCodes(c: char)
    ensures IsSpace(c) <==> 9 <= c as int <= 13 || c as int == 32
  {
  }

  /** The client's buffer holds 4287 characters of a line; the rest is cut off. */
  lemma ClippedLine(line: string)
    ensures Clip(line) <= line && |Clip(line)| == if |line| < 4287 then |line| else 4287
  {
  }

  /** A delivered message is split back into its topic and payload. */
  lemma DeliveryInvertsPub(topic: string, payload: string)
    requires NoSpace(topic)
    ensures ReadDelivery(PubLine(topic, payload)) == Deliver(topic, payload)
  {
    var line := PubLine(topic, payload);
    var rest := line[4..];
    assert rest == topic + " " + payload;
    var i := FirstBlank(rest);
    assert rest[|topic|] == ' ';
    assert forall k :: 0 <= k < |topic| ==> topic[k] == rest[k];
    assert ' ' in rest[..|topic| + 1];
  }
}
