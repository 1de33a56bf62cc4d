/**
 Text as fgets reads it into a buffer, line by line, `room` being the buffer less its last byte.
 */
module TextLines {

  // How much of the text one call takes: up to and including a newline, or until the room is used up.
  function Cut(s: string, room: nat): (n: nat)
    ensures n <= |s| && n <= room && (s != [] && room > 0 ==> n > 0)
  {
    if s == [] || room == 0 then 0
    else if s[0] == '\n' then 1
    else 1 + Cut(s[1..], room - 1)
  }

  // A buffer as a C string: up to its first NUL.
  function Visible(s: string): (v: string)
    ensures v <= s && '\0' !in v && ('\0' !in s ==> v == s)
  {
    if s == [] || s[0] == '\0' then [] else [s[0]] + Visible(s[1..])
  }

  // What each call leaves for the string functions to see.
  function CutLines(s: string, room: nat): seq<string>
    requires room > 0
    decreases |s|
  {
    if s == [] then [] else [Visible(s[..Cut(s, room)])] + CutLines(s[Cut(s, room)..], room)
  }

  function AllVisible(lines: seq<string>): seq<string> {
    if lines == [] then [] else [Visible(lines[0])] + AllVisible(lines[1..])
  }

  function Joined(lines: seq<string>): string {
    if lines == [] then [] else lines[0] + Joined(lines[1..])
  }

  // A line that one call gives back whole.
  predicate Whole(line: string, room: nat) {
    0 < |line| <= room && line[|line| - 1] == '\n' && '\n' !in line[..|line| - 1]
  }

  predicate AllWhole(lines: seq<string>, room: nat) {
    forall i :: 0 <= i < |lines| ==> Whole(lines[i], room)
  }

  lemma {:induction false} CutWhole(line: string, rest: string, room: nat)
    requires Whole(line, room)
    ensures Cut(line + rest, room) == |line|
    decreases |line|
  {
    assert (line + rest)[0] == line[0] && (line + rest)[1..] == line[1..] + rest;
    if |line| > 1 {
      assert line[0] == line[..|line| - 1][0];
      assert line[1..][..|line| - 2] == line[..|line| - 1][1..];
      CutWhole(line[1..], rest, room - 1);
    }
  }

  // Without a newline the room alone decides.
  lemma {:induction false} CutLong(s: string, room: nat)
    requires room <= |s| && '\n' !in s[..room]
    ensures Cut(s, room) == room
    decreases room
  {
    if room > 0 {
      assert s[0] == s[..room][0];
      assert s[1..][..room - 1] == s[..room][1..];
      CutLong(s[1..], room - 1);
    }
  }

  lemma {:induction false} LinesOfJoined(lines: seq<string>, room: nat)
    requires room > 0 && AllWhole(lines, room)
    ensures CutLines(Joined(lines), room) == AllVisible(lines)
    decreases |lines|
  {
    if lines != [] {
      var l, rest := lines[0], Joined(lines[1..]);
      CutWhole(l, rest, room);
      assert (l + rest)[..|l|] == l && (l + rest)[|l|..] == rest;
      LinesOfJoined(lines[1..], room);
    }
  }

  lemma {:induction false} WithoutNul(lines: seq<string>)
    requires forall i :: 0 <= i < |lines| ==> '\0' !in lines[i]
    ensures AllVisible(lines) == lines
    decreases |lines|
  {
    if lines != [] {
      WithoutNul(lines[1..]);
    }
  }

  lemma {:induction false} JoinedAppend(a: seq<string>, b: seq<string>)
    ensures Joined(a + b) == Joined(a) + Joined(b)
    decreases |a|
  {
    if a == [] {
      assert a + b == b;
    } else {
      assert (a + b)[1..] == a[1..] + b;
      JoinedAppend(a[1..], b);
    }
  }

  lemma JoinedOne(line: string)
    ensures Joined([line]) == line
  {
    assert [line][1..] == [];
  }

  // The line at a stream's position, and what is left behind it
  method Fgets(rest: string, room: nat) returns (line: string, more: string)
    requires rest != [] && room > 0
    ensures CutLines(rest, room) == [line] + CutLines(more, room) && |more| < |rest|
  {
    var n := Cut(rest, room);
    line, more := Visible(rest[..n]), rest[n..];
  }
}
