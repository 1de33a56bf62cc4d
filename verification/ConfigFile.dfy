/**
 The key/value files of `libbb/bb_persist.c`: what reading, getting and rewriting do to the text
 of a file, and the map that the file stands for.
 */
module ConfigFile {
  import opened Options
  import opened TextLines

  const ROOM: nat := 511           // what fgets takes at most into its 512 bytes

  function Lines(s: string): seq<string> {
    CutLines(s, ROOM)
  }

  // Lines that a rewrite copies unchanged: whole, and without a NUL that would end them early.
  predicate AllProper(lines: seq<string>) {
    AllWhole(lines, ROOM) && forall i :: 0 <= i < |lines| ==> '\0' !in lines[i]
  }

  // ---- Keys and values ----

  predicate Matches(line: string, key: string) {
    key + "=" <= line
  }

  function StripEnd(v: string): (r: string)
    ensures |r| <= |v|
  {
    if v != [] && (v[|v| - 1] == '\n' || v[|v| - 1] == '\r') then StripEnd(v[..|v| - 1]) else v
  }

  predicate EndsInLine(v: string) {
    v != [] && (v[|v| - 1] == '\n' || v[|v| - 1] == '\r')
  }

  /** What is left of a value: the longest part from its start that ends in neither a newline nor a return. */
  lemma {:induction false} StripEndLongest(v: string, p: string)
    ensures StripEnd(v) <= v && !EndsInLine(StripEnd(v))
    ensures p <= v && !EndsInLine(p) ==> p <= StripEnd(v)
    decreases |v|
  {
    if EndsInLine(v) {
      var shorter := v[..|v| - 1];
      if p <= v && !EndsInLine(p) {
        assert |p| == |v| ==> p == v;
        assert p <= shorter;
      }
      StripEndLongest(shorter, p);
    }
  }

  function Find(lines: seq<string>, key: string): Option<string> {
    if lines == [] then None
    else if Matches(lines[0], key) then Some(StripEnd(lines[0][|key| + 1..]))
    else Find(lines[1..], key)
  }

  function Entry(key: string, value: string): string {
    key + "=" + value + "\n"
  }

  function Rewritten(lines: seq<string>, key: string, value: string): seq<string> {
    if lines == [] then []
    else [if Matches(lines[0], key) then Entry(key, value) else lines[0]] + Rewritten(lines[1..], key, value)
  }

  predicate Present(lines: seq<string>, key: string) {
    exists i :: 0 <= i < |lines| && Matches(lines[i], key)
  }

  function LinesOf(file: Option<string>): seq<string> {
    if file.None? then [] else Lines(file.value)
  }

  // bb_persist_config_get
  function Get(file: Option<string>, key: string): Option<string> {
    Find(LinesOf(file), key)
  }

  function NewLines(lines: seq<string>, key: string, value: string): seq<string> {
    Rewritten(lines, key, value) + if Present(lines, key) then [] else [Entry(key, value)]
  }

  // bb_persist_config_set: the text of the file that replaces the old one
  function Set(file: Option<string>, key: string, value: string): string {
    Joined(NewLines(LinesOf(file), key, value))
  }

  // ---- What a set keeps ----

  // The lines that do not belong to the key, in order.
  function Others(lines: seq<string>, key: string): seq<string> {
    if lines == [] then []
    else (if Matches(lines[0], key) then [] else [lines[0]]) + Others(lines[1..], key)
  }

  predicate GoodKey(key: string) {
    '\n' !in key && '\0' !in key
  }

  // Neither key with its equals sign starts the other, so no line can belong to both.
  predicate Apart(a: string, b: string) {
    a == b || (!(a + "=" <= b) && !(b + "=" <= a))
  }

  // A pair whose line fgets takes whole.
  predicate Fits(key: string, value: string) {
    GoodKey(key) && '\n' !in value && '\0' !in value && |key| + |value| + 2 <= ROOM
  }

  lemma EntryIsProper(key: string, value: string)
    requires Fits(key, value)
    ensures Whole(Entry(key, value), ROOM) && '\0' !in Entry(key, value)
  {
    var e := Entry(key, value);
    assert e[..|e| - 1] == key + "=" + value;
  }

  lemma ShorterStarts(line: string, key: string, k: string)
    requires Matches(line, key) && Matches(line, k)
    ensures k == key || key + "=" <= k || k + "=" <= key
  {
    if |key| < |k| {
      assert key + "=" == line[..|key| + 1] == (k + "=")[..|key| + 1] == k[..|key| + 1];
    } else if |k| < |key| {
      assert k + "=" == line[..|k| + 1] == (key + "=")[..|k| + 1] == key[..|k| + 1];
    } else {
      assert key == line[..|key|] == k;
    }
  }

  // A line belongs to one of two such keys at most.
  lemma OtherKey(line: string, key: string, k: string)
    requires Apart(key, k) && Matches(line, key) && Matches(line, k)
    ensures k == key
  {
    ShorterStarts(line, key, k);
  }

  lemma EntryMatches(key: string, value: string, k: string)
    requires Apart(key, k)
    ensures Matches(Entry(key, value), k) <==> k == key
  {
    assert Matches(Entry(key, value), key);
    if Matches(Entry(key, value), k) {
      OtherKey(Entry(key, value), key, k);
    }
  }

  lemma {:induction false} RewrittenKeeps(lines: seq<string>, key: string, value: string)
    requires AllProper(lines) && Fits(key, value)
    ensures AllProper(Rewritten(lines, key, value))
    decreases |lines|
  {
    if lines != [] {
      EntryIsProper(key, value);
      RewrittenKeeps(lines[1..], key, value);
    }
  }

  /**
   A set changes the lines of its key and no others: each is replaced where it stands, and the new
   line comes last when there was none.
   */
  lemma SetLines(file: Option<string>, key: string, value: string)
    requires AllProper(LinesOf(file)) && Fits(key, value)
    ensures Lines(Set(file, key, value)) == NewLines(LinesOf(file), key, value)
    ensures AllProper(Lines(Set(file, key, value)))
    ensures Others(Lines(Set(file, key, value)), key) == Others(LinesOf(file), key)
  {
    var lines := LinesOf(file);
    NewLinesProper(lines, key, value);
    LinesBack(NewLines(lines, key, value));
    OthersUnchanged(lines, key, value);
  }

  lemma NewLinesProper(lines: seq<string>, key: string, value: string)
    requires AllProper(lines) && Fits(key, value)
    ensures AllProper(NewLines(lines, key, value))
  {
    RewrittenKeeps(lines, key, value);
    EntryIsProper(key, value);
  }

  lemma LinesBack(lines: seq<string>)
    requires AllProper(lines)
    ensures Lines(Joined(lines)) == lines
  {
    LinesOfJoined(lines, ROOM);
    WithoutNul(lines);
  }

  lemma OthersUnchanged(lines: seq<string>, key: string, value: string)
    ensures Others(NewLines(lines, key, value), key) == Others(lines, key)
  {
    var copied, entry := Rewritten(lines, key, value), [Entry(key, value)];
    OthersKept(lines, key, value);
    if Present(lines, key) {
      assert copied + [] == copied;
    } else {
      OthersAppend(copied, entry, key);
      EntryMatches(key, value, key);
      assert Others(entry, key) == [] + Others(entry[1..], key) == [];
    }
  }

  lemma {:induction false} OthersKept(lines: seq<string>, key: string, value: string)
    ensures Others(Rewritten(lines, key, value), key) == Others(lines, key)
    decreases |lines|
  {
    if lines != [] {
      EntryMatches(key, value, key);
      OthersKept(lines[1..], key, value);
    }
  }

  lemma {:induction false} OthersAppend(a: seq<string>, b: seq<string>, key: string)
    ensures Others(a + b, key) == Others(a, key) + Others(b, key)
    decreases |a|
  {
    if a == [] {
      assert a + b == b;
    } else {
      assert (a + b)[1..] == a[1..] + b;
      OthersAppend(a[1..], b, key);
    }
  }

  lemma NewLinesJoined(lines: seq<string>, key: string, value: string)
    ensures var copied := Joined(Rewritten(lines, key, value));
            Joined(NewLines(lines, key, value)) == if Present(lines, key) then copied else copied + Entry(key, value)
  {
    JoinedAppend(Rewritten(lines, key, value), [Entry(key, value)]);
    JoinedOne(Entry(key, value));
    assert Rewritten(lines, key, value) + [] == Rewritten(lines, key, value);
  }

  // The text that the copying loop leaves.
  function Copied(file: Option<string>, key: string, value: string): string {
    Joined(Rewritten(LinesOf(file), key, value))
  }

  lemma SetIsCopied(file: Option<string>, key: string, value: string)
    ensures Set(file, key, value) ==
              if Present(LinesOf(file), key) then Copied(file, key, value) else Copied(file, key, value) + Entry(key, value)
    ensures file.None? ==> Copied(file, key, value) == "" && !Present(LinesOf(file), key)
  {
    NewLinesJoined(LinesOf(file), key, value);
  }

  // ---- The file is a map ----

  lemma {:induction false} FindRewritten(lines: seq<string>, key: string, value: string, k: string)
    requires Apart(key, k)
    ensures Find(Rewritten(lines, key, value), k) ==
              if k != key then Find(lines, k)
              else if Present(lines, key) then Some(StripEnd(Entry(key, value)[|key| + 1..])) else None
    decreases |lines|
  {
    if lines != [] {
      EntryMatches(key, value, k);
      FindRewritten(lines[1..], key, value, k);
      PresentTail(lines, key);
      if Matches(lines[0], key) && Matches(lines[0], k) {
        OtherKey(lines[0], key, k);
      }
    }
  }

  lemma PresentTail(lines: seq<string>, key: string)
    requires lines != []
    ensures Present(lines, key) <==> Matches(lines[0], key) || Present(lines[1..], key)
  {
    if Present(lines[1..], key) {
      var i :| 0 <= i < |lines[1..]| && Matches(lines[1..][i], key);
      assert Matches(lines[i + 1], key);
    }
    if Present(lines, key) && !Matches(lines[0], key) {
      var i :| 0 <= i < |lines| && Matches(lines[i], key);
      assert lines[1..][i - 1] == lines[i];
    }
  }

  lemma {:induction false} FindAppend(a: seq<string>, b: seq<string>, k: string)
    ensures Find(a + b, k) == if Present(a, k) then Find(a, k) else Find(b, k)
    decreases |a|
  {
    if a == [] {
      assert a + b == b;
    } else {
      assert (a + b)[1..] == a[1..] + b;
      PresentTail(a, k);
      FindAppend(a[1..], b, k);
    }
  }

  lemma {:induction false} FindPresent(lines: seq<string>, k: string)
    ensures Find(lines, k).Some? <==> Present(lines, k)
    decreases |lines|
  {
    if lines != [] {
      PresentTail(lines, k);
      FindPresent(lines[1..], k);
    }
  }

  lemma EntryValue(key: string, value: string)
    ensures StripEnd(Entry(key, value)[|key| + 1..]) == StripEnd(value)
  {
    assert Entry(key, value)[|key| + 1..] == value + "\n";
    assert (value + "\n")[..|value|] == value;
  }

  lemma StripEndIs(v: string)
    requires '\n' !in v
    ensures StripEnd(v) == v <==> v == [] || v[|v| - 1] != '\r'
  {
  }

  /**
   After a set the key has its value, less any returns at the end, and every other key apart from
   it the value it had, in a file of whole lines.
   */
  lemma GetAfterSet(file: Option<string>, key: string, value: string, k: string)
    requires AllProper(LinesOf(file)) && Fits(key, value) && Apart(key, k)
    ensures Get(Some(Set(file, key, value)), k) == if k == key then Some(StripEnd(value)) else Get(file, k)
  {
    SetLines(file, key, value);
    NewLinesFind(LinesOf(file), key, value, k);
  }

  lemma NewLinesFind(lines: seq<string>, key: string, value: string, k: string)
    requires Apart(key, k)
    ensures Find(NewLines(lines, key, value), k) == if k == key then Some(StripEnd(value)) else Find(lines, k)
  {
    FindRewritten(lines, key, value, k);
    EntryValue(key, value);
    if Present(lines, key) {
      assert Rewritten(lines, key, value) + [] == Rewritten(lines, key, value);
    } else {
      FindRewritten(lines, key, value, key);
      FindBehind(Rewritten(lines, key, value), key, value, k);
    }
  }

  // The new line is found behind lines that do not have the key.
  lemma FindBehind(lines: seq<string>, key: string, value: string, k: string)
    requires Apart(key, k) && Find(lines, key).None?
    ensures Find(lines + [Entry(key, value)], k) == if k == key then Some(StripEnd(Entry(key, value)[|key| + 1..])) else Find(lines, k)
  {
    var entry := [Entry(key, value)];
    FindPresent(lines, k);
    EntryMatches(key, value, k);
    FindAppend(lines, entry, k);
    assert entry[1..] == [];
  }

  datatype Change = Change(key: string, value: string)

  function After(file: Option<string>, sets: seq<Change>): Option<string>
    decreases |sets|
  {
    if sets == [] then file
    else
      var last := sets[|sets| - 1];
      Some(Set(After(file, sets[..|sets| - 1]), last.key, last.value))
  }

  function Latest(sets: seq<Change>, k: string): Option<string>
    decreases |sets|
  {
    if sets == [] then None
    else if sets[|sets| - 1].key == k then Some(sets[|sets| - 1].value)
    else Latest(sets[..|sets| - 1], k)
  }

  predicate Clean(c: Change) {
    Fits(c.key, c.value) && (c.value == [] || c.value[|c.value| - 1] != '\r')
  }

  // Clean sets of keys that are apart from k.
  predicate ApartFrom(sets: seq<Change>, k: string) {
    forall i :: 0 <= i < |sets| ==> Clean(sets[i]) && Apart(sets[i].key, k)
  }

  /** From no file at all, whatever was set before, a get returns what the key was last set to. */
  lemma {:induction false} FileIsMap(sets: seq<Change>, k: string)
    requires ApartFrom(sets, k)
    ensures AllProper(LinesOf(After(None, sets)))
    ensures Get(After(None, sets), k) == Latest(sets, k)
    decreases |sets|
  {
    if sets != [] {
      var before, last := sets[..|sets| - 1], sets[|sets| - 1];
      FileIsMap(before, k);
      SetLines(After(None, before), last.key, last.value);
      GetAfterSet(After(None, before), last.key, last.value, k);
      StripEndIs(last.value);
    }
  }

  lemma FreshFile(key: string, value: string)
    requires Fits(key, value)
    ensures Lines(Set(None, key, value)) == [Entry(key, value)]
  {
    SetLines(None, key, value);
    assert [] + [Entry(key, value)] == [Entry(key, value)];
  }

  lemma FindAlone(key: string, value: string)
    ensures Find([Entry(key, value)], key) == Some(StripEnd(value))
  {
    assert key + "=" <= Entry(key, value);
    EntryValue(key, value);
  }

  // One entry alone, read under any key it starts with.
  lemma FreshRead(key: string, value: string, k: string, rest: string)
    requires Fits(key, value) && Entry(key, value) == Entry(k, rest) && (rest == [] || rest[|rest| - 1] != '\r')
    ensures Get(Some(Set(None, key, value)), k) == Some(rest)
  {
    FreshFile(key, value);
    FindAlone(k, rest);
    var entry := Entry(k, rest);
    assert entry[..|entry| - 1] == key + "=" + value == k + "=" + rest;
    NoNewlineBehind(k + "=", rest);
    StripEndIs(rest);
  }

  lemma NoNewlineBehind(front: string, value: string)
    requires '\n' !in front + value
    ensures '\n' !in value
  {
    assert forall i :: 0 <= i < |value| ==> value[i] == (front + value)[|front| + i];
  }

  /** Setting the shorter of two such keys may answer for the longer one. */
  lemma EqualsSignMisread(key: string, more: string, value: string)
    requires Fits(key, more + "=" + value) && (value == [] || value[|value| - 1] != '\r')
    ensures Get(Some(Set(None, key, more + "=" + value)), key + "=" + more) == Some(value)
  {
    FreshRead(key, more + "=" + value, key + "=" + more, value);
  }

  /** And setting the longer one always answers for the shorter. */
  lemma LongerAnswers(key: string, more: string, value: string)
    requires Fits(key + "=" + more, value) && (value == [] || value[|value| - 1] != '\r')
    ensures Get(Some(Set(None, key + "=" + more, value)), key) == Some(more + "=" + value)
  {
    FreshRead(key + "=" + more, value, key, more + "=" + value);
  }

  predicate SetsOf(sets: seq<Change>, a: string, b: string) {
    forall i :: 0 <= i < |sets| ==> Clean(sets[i]) && (sets[i].key == a || sets[i].key == b)
  }

  // Whatever the two keys were set to, each reads as it was set last.
  ghost predicate IsMapOf(a: string, b: string) {
    forall sets :: SetsOf(sets, a, b) ==>
      Get(After(None, sets), a) == Latest(sets, a) && Get(After(None, sets), b) == Latest(sets, b)
  }

  lemma NotApart(a: string, b: string)
    requires GoodKey(b) && |b| + 2 <= ROOM && a + "=" <= b
    ensures !IsMapOf(a, b) && !IsMapOf(b, a)
  {
    var sets, rest := [Change(b, "")], b[|a| + 1..];
    assert b == a + "=" + rest;
    LongerAnswers(a, rest, "");
    assert sets[..0] == [];
    assert After(None, sets) == Some(Set(None, b, ""));
    assert Latest(sets, a) == None;
    assert SetsOf(sets, a, b) && SetsOf(sets, b, a);
  }

  /**
   The file keeps two keys apart, over every sequence of sets of the two, exactly when neither with
   its equals sign starts the other.
   */
  lemma TwoKeys(a: string, b: string)
    requires a != b && GoodKey(a) && GoodKey(b) && |a| + 2 <= ROOM && |b| + 2 <= ROOM
    ensures IsMapOf(a, b) <==> Apart(a, b)
  {
    if Apart(a, b) {
      forall sets | SetsOf(sets, a, b)
        ensures Get(After(None, sets), a) == Latest(sets, a) && Get(After(None, sets), b) == Latest(sets, b)
      {
        FileIsMap(sets, a);
        FileIsMap(sets, b);
      }
    } else if a + "=" <= b {
      NotApart(a, b);
    } else {
      NotApart(b, a);
    }
  }

  lemma {:induction false} ShortLines(s: string, k: string)
    requires |k| >= ROOM
    ensures Find(Lines(s), k) == None
    decreases |s|
  {
    if s != [] {
      ShortLines(s[Cut(s, ROOM)..], k);
      assert Lines(s)[1..] == Lines(s[Cut(s, ROOM)..]);
    }
  }

  /** A value set in a fresh file comes back exactly when key, equals sign and value are 511 characters at most. */
  lemma LengthLimit(key: string, value: string)
    requires GoodKey(key) && '\n' !in value && '\0' !in value && (value == [] || value[|value| - 1] != '\r')
    ensures Get(Some(Set(None, key, value)), key) == Some(value) <==> |key| + 1 + |value| <= 511
  {
    var text := Entry(key, value);
    var body := key + "=" + value;
    assert NewLines([], key, value) == [text];
    JoinedOne(text);
    assert text[..|body|] == body;
    if |body| < ROOM {
      GetAfterSet(None, key, value, key);
      StripEndIs(value);
    } else if |key| >= ROOM {
      ShortLines(text, key);
    } else {
      assert text[..ROOM] == body[..ROOM];
      CutLong(text, ROOM);
      assert Lines(text)[0] == body[..ROOM];
      assert key + "=" <= body[..ROOM];
      assert body[..ROOM][|key| + 1..] == value[..ROOM - |key| - 1];
      StripEndIs(value[..ROOM - |key| - 1]);
      assert |body| == ROOM ==> value[..ROOM - |key| - 1] == value;
    }
  }
}
