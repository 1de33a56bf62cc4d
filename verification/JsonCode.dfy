/**
 The writer and the readers of `libbb/bb_json.c` in their own form: a position advancing over a
 buffer, and loops moving a pointer through the text.
 */
module JsonCode {
  import opened Options
  import opened Json

  // The text the writer holds before the object is closed: a comma behind every field.
  function Ended(fs: seq<Field>): string {
    if fs == [] then [] else FieldText(fs[0]) + "," + Ended(fs[1..])
  }

  function WithoutComma(text: string): string {
    if |text| > 1 && text[|text| - 1] == ',' then text[..|text| - 1] else text
  }

  function Closed(text: string): string {
    WithoutComma(text) + "}"
  }

  lemma {:induction false} EndedAdds(fs: seq<Field>, f: Field)
    ensures Ended(fs + [f]) == Ended(fs) + (FieldText(f) + ",")
    decreases |fs|
  {
    if fs == [] {
      assert (fs + [f])[1..] == [];
      assert FieldText(f) + "," + [] == [] + (FieldText(f) + ",");
    } else {
      assert (fs + [f])[1..] == fs[1..] + [f];
      EndedAdds(fs[1..], f);
      assert FieldText(fs[0]) + "," + (Ended(fs[1..]) + (FieldText(f) + ",")) ==
             FieldText(fs[0]) + "," + Ended(fs[1..]) + (FieldText(f) + ",");
    }
  }

  // The members alone, commas only between them.
  function Members(fs: seq<Field>): string
    requires fs != []
  {
    if |fs| == 1 then FieldText(fs[0]) else FieldText(fs[0]) + ("," + Members(fs[1..]))
  }

  lemma Regroup(a: string, b: string, c: string)
    ensures a + (b + c) == a + b + c
  {
  }

  lemma {:induction false} EndedIs(fs: seq<Field>)
    requires fs != []
    ensures Ended(fs) == Members(fs) + ","
    decreases |fs|
  {
    var head := FieldText(fs[0]) + ",";
    if |fs| == 1 {
      assert head + [] == head;
    } else {
      EndedIs(fs[1..]);
      Regroup(head, Members(fs[1..]), ",");
      Regroup(FieldText(fs[0]), ",", Members(fs[1..]));
    }
  }

  lemma {:induction false} RestIs(fs: seq<Field>)
    requires fs != []
    ensures Rest(fs) == Members(fs) + "}"
    decreases |fs|
  {
    var head := FieldText(fs[0]);
    if |fs| == 1 {
      assert Sep(fs[1..]) + Rest(fs[1..]) == "}";
    } else {
      RestIs(fs[1..]);
      Regroup(",", Members(fs[1..]), "}");
      Regroup(head, "," + Members(fs[1..]), "}");
    }
  }

  /** Removing the last comma and adding the brace turns the writer's text into the object's. */
  lemma ClosedIsObject(fs: seq<Field>)
    ensures Closed("{" + Ended(fs)) == Object(fs)
    ensures |Object(fs)| == |"{" + Ended(fs)| + if fs == [] then 1 else 0
  {
    if fs == [] {
      assert "{" + Ended(fs) == "{";
    } else {
      EndedIs(fs);
      RestIs(fs);
      var t := "{" + Ended(fs);
      assert t[|t| - 1] == ',' && t[..|t| - 1] == "{" + Members(fs);
      Regroup("{", Members(fs), "}");
    }
  }

  // ---- The writer ----

  class Writer {
    const buf: array<char>
    var pos: nat
    var wild: bool               // an access fell outside the buffer; what it hit is not modelled

    ghost function Text(): string
      requires pos <= buf.Length
      reads this, buf
    {
      buf[..pos]
    }

    // bb_json_init
    constructor (buffer: array<char>)
      requires buffer.Length > 0
      modifies buffer
      ensures buf == buffer && pos == 0 && buf[0] == '\0' && !wild
    {
      buf := buffer;
      pos := 0;
      wild := false;
      new;
      buf[0] := '\0';
    }

    method StartObject()
      modifies this`pos, buf
      ensures pos == if old(pos) < buf.Length then old(pos) + 1 else old(pos)
      ensures old(pos) < buf.Length ==> Text() == old(Text()) + "{"
      ensures old(pos) >= buf.Length ==> buf[..] == old(buf[..])
    {
      if pos < buf.Length {
        buf[pos] := '{';
        pos := pos + 1;
      }
    }

    // snprintf at the position, into the room that is left; beyond the buffer the room wraps around
    method Print(s: string)
      modifies this, buf
      ensures pos == old(pos) + |s| && wild == (old(wild) || old(pos) > buf.Length)
      ensures old(pos) <= buf.Length ==> buf[..old(pos)] == old(buf[..pos])
      ensures old(pos) > buf.Length ==> buf[..] == old(buf[..])
      ensures pos < buf.Length ==> Text() == old(Text()) + s && buf[pos] == '\0'
      ensures old(pos) < buf.Length <= pos ==>
                buf[old(pos)..buf.Length - 1] == s[..buf.Length - 1 - old(pos)] && buf[buf.Length - 1] == '\0'
    {
      if pos > buf.Length {
        wild := true;
      } else if pos < buf.Length {
        var room := buf.Length - pos;
        var n := if |s| < room then |s| else room - 1;
        forall i | 0 <= i < n {
          buf[pos + i] := s[i];
        }
        buf[pos + n] := '\0';
      }
      pos := pos + |s|;
    }

    method AddKey(key: string)
      modifies this, buf
      ensures pos == old(pos) + |key| + 3 && wild == (old(wild) || old(pos) > buf.Length)
      ensures pos < buf.Length ==> Text() == old(Text()) + (Quoted(key) + ":")
    {
      Print(Quoted(key) + ":");
    }

    // The key, then the value and its comma
    method AddText(key: string, text: string)
      modifies this, buf
      ensures pos == old(pos) + |key| + 3 + |text| + 1
      ensures wild == (old(wild) || old(pos) + |key| + 3 > buf.Length)
      ensures pos < buf.Length ==> Text() == old(Text()) + (Quoted(key) + ":" + text + ",")
    {
      ghost var was := if pos <= buf.Length then Text() else "";
      AddKey(key);
      Print(text + ",");
      assert pos < buf.Length ==> was + (Quoted(key) + ":") + (text + ",") == was + (Quoted(key) + ":" + text + ",");
    }

    method AddString(key: string, val: Option<string>)
      modifies this, buf
      ensures var f := Field(key, Str(if val.Some? then val.value else ""));
              && pos == old(pos) + |FieldText(f)| + 1
              && (pos < buf.Length ==> Text() == old(Text()) + (FieldText(f) + ","))
      ensures wild == (old(wild) || old(pos) + |key| + 3 > buf.Length)
    {
      AddText(key, Quoted(if val.Some? then val.value else ""));
    }

    method AddInt(key: string, val: Int32)
      modifies this, buf
      ensures var f := Field(key, Num(val));
              && pos == old(pos) + |FieldText(f)| + 1
              && (pos < buf.Length ==> Text() == old(Text()) + (FieldText(f) + ","))
      ensures wild == (old(wild) || old(pos) + |key| + 3 > buf.Length)
    {
      AddText(key, Decimal(val));
    }

    method AddBool(key: string, val: bool)
      modifies this, buf
      ensures var f := Field(key, Bool(val));
              && pos == old(pos) + |FieldText(f)| + 1
              && (pos < buf.Length ==> Text() == old(Text()) + (FieldText(f) + ","))
      ensures wild == (old(wild) || old(pos) + |key| + 3 > buf.Length)
    {
      AddText(key, if val then "true" else "false");
    }

    // Beyond the buffer the test for the comma reads a stray character.
    method EndObject(stray: char)
      requires buf.Length > 0
      modifies this, buf
      ensures wild == (old(wild) || old(pos) > buf.Length)
      ensures old(pos) > buf.Length ==> buf[..] == old(buf[..]) && pos == old(pos) - if stray == ',' then 1 else 0
      ensures old(pos) <= buf.Length ==>
                && pos <= buf.Length && (pos < buf.Length ==> buf[pos] == '\0')
                && Text() == if |WithoutComma(old(Text()))| < buf.Length then Closed(old(Text())) else old(Text())
    {
      if pos > buf.Length {
        wild := true;
        if stray == ',' {
          pos := pos - 1;
        }
        return;
      }
      if pos > 1 && buf[pos - 1] == ',' {
        pos := pos - 1;
      }
      if pos < buf.Length {
        buf[pos] := '}';
        pos := pos + 1;
      }
      if pos < buf.Length {
        buf[pos] := '\0';
      }
    }

    // The call for a field's type of value
    method AddField(f: Field)
      modifies this, buf
      ensures pos == old(pos) + |FieldText(f)| + 1
      ensures wild == (old(wild) || old(pos) + |f.key| + 3 > buf.Length)
      ensures pos < buf.Length ==> Text() == old(Text()) + (FieldText(f) + ",")
    {
      match f.value {
        case Str(s) => AddString(f.key, Some(s));
        case Num(n) => AddInt(f.key, n);
        case Bool(b) => AddBool(f.key, b);
      }
    }

    /**
     Any fields written one after the other into a buffer they fit leave the text of the object;
     an access falls outside the buffer exactly when the fields' text is longer than it.
     */
    method WriteObject(fs: seq<Field>, stray: char)
      requires pos == 0 && !wild && buf.Length > 0
      modifies this, buf
      ensures |Object(fs)| < buf.Length ==> pos == |Object(fs)| && Text() == Object(fs) && buf[pos] == '\0'
      ensures wild <==> 1 + |Ended(fs)| > buf.Length
    {
      ClosedIsObject(fs);
      StartObject();
      WriteFields(fs);
      EndObject(stray);
    }

    method WriteFields(fs: seq<Field>)
      requires pos == 1 <= buf.Length && !wild && Text() == "{"
      modifies this, buf
      ensures pos == 1 + |Ended(fs)| && (wild ==> pos > buf.Length)
      ensures pos < buf.Length ==> Text() == "{" + Ended(fs)
    {
      for i := 0 to |fs|
        invariant pos == 1 + |Ended(fs[..i])| && (wild ==> pos > buf.Length)
        invariant pos < buf.Length ==> Text() == "{" + Ended(fs[..i])
      {
        EndedSteps(fs, i);
        ghost var was := Ended(fs[..i]);
        AddField(fs[i]);
        Regroup("{", was, FieldText(fs[i]) + ",");
      }
      assert fs[..|fs|] == fs;
    }
  }

  lemma EndedSteps(fs: seq<Field>, i: nat)
    requires i < |fs|
    ensures Ended(fs[..i + 1]) == Ended(fs[..i]) + (FieldText(fs[i]) + ",")
    ensures |Ended(fs[..i])| + |FieldText(fs[i])| + 1 <= |Ended(fs)|
  {
    assert fs[..i + 1] == fs[..i] + [fs[i]];
    EndedAdds(fs[..i], fs[i]);
    EndedGrows(fs, i + 1);
  }

  lemma {:induction false} EndedGrows(fs: seq<Field>, n: nat)
    requires n <= |fs|
    ensures |Ended(fs[..n])| <= |Ended(fs)|
    decreases |fs| - n
  {
    if n < |fs| {
      assert fs[..n + 1] == fs[..n] + [fs[n]];
      EndedAdds(fs[..n], fs[n]);
      EndedGrows(fs, n + 1);
    } else {
      assert fs[..n] == fs;
    }
  }

  // ---- The readers ----

  method ReadKey(json: string, key: string) returns (p: Option<string>)
    ensures p == FindKey(json, key)
  {
    var m := After(json, Clip(Quoted(key), 127));
    if m.None? {
      return None;
    }
    var s := m.value;
    var i := 0;
    while i < |s| && (s[i] == ' ' || s[i] == ':')
      invariant 0 <= i <= |s| && Skip(s[i..]) == Skip(s)
    {
      assert s[i..][1..] == s[i + 1..];
      i := i + 1;
    }
    p := Some(s[i..]);
  }

  // The decoding loop into a buffer of 256 characters, from behind the opening quotation mark
  method DecodeLoop(s: string) returns (buf: string)
    ensures buf == Decode(s, 255) && |buf| <= 255
  {
    buf := [];
    var p := 0;
    while p < |s| && s[p] != '"' && |buf| < 255
      invariant 0 <= p <= |s| && |buf| <= 255
      invariant buf + Decode(s[p..], 255 - |buf|) == Decode(s, 255)
    {
      DecodeStep(s, p, 255 - |buf|, buf);
      if s[p] == '\\' && p + 1 < |s| {
        p := p + 1;
        if s[p] == 'n' {
          buf := buf + ['\n'];
        } else if s[p] == 't' {
          buf := buf + ['\t'];
        } else {
          buf := buf + [s[p]];
        }
      } else {
        buf := buf + [s[p]];
      }
      p := p + 1;
    }
    assert buf + Decode(s[p..], 255 - |buf|) == buf;
  }

  method ReadString(json: string, key: string) returns (r: Option<string>)
    ensures r == GetString(json, key)
    ensures r.Some? ==> |r.value| <= 255
  {
    var at := ReadKey(json, key);
    if at.None? || at.value == [] || at.value[0] != '"' {
      return None;
    }
    var buf := DecodeLoop(at.value[1..]);
    r := Some(buf);
  }

  // One turn of the loop: the character it stores, and where it goes on.
  lemma DecodeStep(s: string, p: nat, room: nat, buf: string)
    requires p < |s| && s[p] != '"' && room > 0
    ensures var escape := s[p] == '\\' && p + 1 < |s|;
            var c, q := if escape then Unescape(s[p + 1]) else s[p], if escape then p + 2 else p + 1;
            buf + Decode(s[p..], room) == (buf + [c]) + Decode(s[q..], room - 1)
  {
    assert s[p..][1..] == s[p + 1..];
    assert p + 1 < |s| ==> s[p..][2..] == s[p + 2..];
    var escape := s[p] == '\\' && p + 1 < |s|;
    var c, q := if escape then Unescape(s[p + 1]) else s[p], if escape then p + 2 else p + 1;
    Regroup(buf, [c], Decode(s[q..], room - 1));
  }

  method ReadInt(json: string, key: string, default: int) returns (r: int)
    ensures r == GetInt(json, key, default)
  {
    var at := ReadKey(json, key);
    if at.None? {
      return default;
    }
    r := Atoi(at.value);
  }

  method ReadBool(json: string, key: string, default: bool) returns (r: bool)
    ensures r == GetBool(json, key, default)
  {
    var at := ReadKey(json, key);
    if at.None? {
      return default;
    }
    r := BoolAt(at.value, default);
  }

  /**
   A buffer written and then read gives back a string for a key exactly when the first field with it
   holds one and no earlier string value reads like the key; and the same string exactly when that
   has no backslash and 255 characters at most.
   */
  method WriteThenRead(buf: array<char>, fs: seq<Field>, k: string) returns (r: Option<string>)
    requires WellFormed(fs) && Searchable(k) && |Object(fs)| < buf.Length
    modifies buf
    ensures var j := FirstField(fs, k);
            if j < |fs| && fs[j].value.Str? && !Shadowed(fs, k)
            then r.Some? && (r.value == fs[j].value.s <==> '\\' !in fs[j].value.s && |fs[j].value.s| <= 255)
            else r == None
  {
    var w := new Writer(buf);
    w.WriteObject(fs, '\0');
    GetStringOfObject(fs, k);
    r := ReadString(buf[..w.pos], k);
  }
}
