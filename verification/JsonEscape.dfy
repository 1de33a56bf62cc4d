/**
 `services/bb-webd.c` again: the escaping of strings, and the builder's calls over its buffer.
 */
module JsonEscape {
  import opened Options
  import opened Json
  import opened JsonBuilder

  function EscapeOf(c: char): string {
    if c == '"' then "\\\""
    else if c == '\\' then "\\\\"
    else if c == '\n' then "\\n"
    else if c == '\r' then "\\r"
    else if c == '\t' then "\\t"
    else [c]
  }

  function Escaped(s: string): string {
    if s == [] then [] else EscapeOf(s[0]) + Escaped(s[1..])
  }

  predicate EscapeLetter(c: char) {
    c == '"' || c == '\\' || c == '/' || c == 'b' || c == 'f' || c == 'n' || c == 'r' || c == 't'
  }

  // What a JSON string may hold between its quotation marks, by section 7 of RFC 8259.
  predicate StringContent(s: string) {
    if s == [] then true
    else if s[0] == '\\' then |s| > 1 && EscapeLetter(s[1]) && StringContent(s[2..])
    else s[0] != '"' && s[0] >= ' ' && StringContent(s[1..])
  }

  predicate Writable(c: char) {
    c >= ' ' || c == '\n' || c == '\r' || c == '\t'
  }

  lemma ContentPair(c: char, more: string)
    requires EscapeLetter(c)
    ensures StringContent(['\\', c] + more) == StringContent(more)
  {
    assert (['\\', c] + more)[2..] == more;
  }

  lemma ContentOne(c: char, more: string)
    requires c != '"' && c != '\\'
    ensures StringContent([c] + more) == (c >= ' ' && StringContent(more))
  {
    assert ([c] + more)[1..] == more;
  }

  lemma ContentEscape(c: char, more: string)
    ensures StringContent(EscapeOf(c) + more) == (Writable(c) && StringContent(more))
  {
    if c == '"' || c == '\\' {
      ContentPair(c, more);
    } else if c == '\n' {
      ContentPair('n', more);
    } else if c == '\r' {
      ContentPair('r', more);
    } else if c == '\t' {
      ContentPair('t', more);
    } else {
      ContentOne(c, more);
    }
  }

  /**
   The escaped text is the inside of a JSON string, every inner quotation mark escaped, exactly
   when the only control characters are newline, return and tab: the others are copied as they are.
   */
  lemma {:induction false} EscapedIsContent(s: string)
    ensures StringContent(Escaped(s)) <==> forall i :: 0 <= i < |s| ==> Writable(s[i])
    decreases |s|
  {
    if s != [] {
      ContentEscape(s[0], Escaped(s[1..]));
      EscapedIsContent(s[1..]);
      if forall i :: 0 <= i < |s[1..]| ==> Writable(s[1..][i]) {
        assert forall i :: 1 <= i < |s| ==> s[i] == s[1..][i - 1];
      } else {
        var i :| 0 <= i < |s[1..]| && !Writable(s[1..][i]);
        assert s[i + 1] == s[1..][i];
      }
    }
  }

  // ---- Reading it back ----

  // bb_json_get_string knows \n and \t; a return comes back as the letter.
  function ReadBack(c: char): char {
    if c == '\r' then 'r' else c
  }

  function ReadBackAll(s: string): (r: string)
    ensures |r| == |s| && forall i :: 0 <= i < |s| ==> r[i] == ReadBack(s[i])
  {
    seq(|s|, i requires 0 <= i < |s| => ReadBack(s[i]))
  }

  lemma DecodeEscape(c: char, more: string, room: nat)
    requires room > 0
    ensures Decode(EscapeOf(c) + more, room) == [ReadBack(c)] + Decode(more, room - 1)
  {
    var e := EscapeOf(c);
    assert (e + more)[0] == e[0];
    if |e| == 2 {
      assert (e + more)[1] == e[1] && (e + more)[2..] == more;
    } else {
      assert (e + more)[1..] == more;
    }
  }

  lemma ReadBackFirst(s: string, room: nat)
    requires s != [] && room > 0
    ensures Clip(ReadBackAll(s), room) == [ReadBack(s[0])] + Clip(ReadBackAll(s[1..]), room - 1)
  {
    assert ReadBackAll(s)[1..] == ReadBackAll(s[1..]);
    ClipOne(ReadBackAll(s), room);
  }

  lemma EscapedFirst(s: string, end: string, room: nat)
    requires s != [] && room > 0
    ensures Decode(Escaped(s) + end, room) == [ReadBack(s[0])] + Decode(Escaped(s[1..]) + end, room - 1)
  {
    assert Escaped(s) + end == EscapeOf(s[0]) + (Escaped(s[1..]) + end);
    DecodeEscape(s[0], Escaped(s[1..]) + end, room);
  }

  lemma DecodeEnd(rest: string, room: nat)
    ensures Decode("\"" + rest, room) == []
  {
  }

  lemma DecodeNothing(s: string)
    ensures Decode(s, 0) == []
  {
  }

  lemma {:induction false} DecodeEscaped(s: string, rest: string, room: nat)
    ensures Decode(Escaped(s) + ("\"" + rest), room) == Clip(ReadBackAll(s), room)
    decreases |s|
  {
    var end := "\"" + rest;
    if room == 0 {
      DecodeNothing(Escaped(s) + end);
    } else if s == [] {
      assert Escaped(s) + end == end;
      DecodeEnd(rest, room);
    } else {
      EscapedFirst(s, end, room);
      DecodeEscaped(s[1..], rest, room - 1);
      ReadBackFirst(s, room);
    }
  }

  /** Escaping and reading back is the identity on strings of up to 255 characters exactly without a return. */
  lemma EscapeReadsBack(s: string, rest: string)
    requires |s| <= 255
    ensures StringAt("\"" + (Escaped(s) + ("\"" + rest))) == Some(s) <==> '\r' !in s
  {
    var inner := Escaped(s) + ("\"" + rest);
    assert ("\"" + inner)[1..] == inner;
    DecodeEscaped(s, rest, 255);
    assert StringAt("\"" + inner) == Some(ReadBackAll(s));
    if '\r' in s {
      var i :| 0 <= i < |s| && s[i] == '\r';
      assert ReadBackAll(s)[i] != s[i];
    } else {
      assert ReadBackAll(s) == s;
    }
  }

  // ---- The builder ----

  // The pieces json_escape_str writes between the quotation marks.
  function EscapePuts(s: string): seq<Op> {
    if s == [] then [] else [Put(EscapeOf(s[0]))] + EscapePuts(s[1..])
  }

  function EscapeCalls(s: string): seq<Op> {
    [Put("\"")] + EscapePuts(s) + [Put("\"")]
  }

  function StringCalls(k: string, v: string): seq<Op> {
    [Comma, Put("\""), Put(k), Put("\":\""), Put(v), Put("\"")]
  }

  function IntCalls(k: string, v: int): seq<Op> {
    [Comma, Put("\""), Put(k), Put("\":"), Put(Decimal(v))]
  }

  lemma {:induction false} RunSnoc(cap: nat, j: State, ops: seq<Op>, op: Op)
    ensures Run(cap, j, ops + [op]) == Apply(cap, Run(cap, j, ops), op)
    decreases |ops|
  {
    if ops == [] {
      assert (ops + [op])[1..] == [];
    } else {
      assert (ops + [op])[1..] == ops[1..] + [op];
      RunSnoc(cap, Apply(cap, j, ops[0]), ops[1..], op);
    }
  }

  lemma {:induction false} EscapePutsSnoc(s: string, c: char)
    ensures EscapePuts(s + [c]) == EscapePuts(s) + [Put(EscapeOf(c))]
    decreases |s|
  {
    if s == [] {
      assert (s + [c])[1..] == [];
    } else {
      assert (s + [c])[1..] == s[1..] + [c];
      EscapePutsSnoc(s[1..], c);
    }
  }

  class Builder {
    const buf: array<char>
    var pos: nat
    var first: bool

    ghost predicate Valid()
      reads this, buf
    {
      pos < buf.Length && buf[pos] == '\0'
    }

    ghost function View(): State
      requires Valid()
      reads this, buf
    {
      State(buf[..pos], first)
    }

    // jw_init
    constructor (buffer: array<char>)
      requires buffer.Length > 0
      modifies buffer
      ensures buf == buffer && Valid() && View() == State("", true)
    {
      buf := buffer;
      pos := 0;
      first := true;
      new;
      buf[0] := '\0';
    }

    method RawText(s: string)
      requires Valid()
      modifies this`pos, buf
      ensures Valid() && View() == Raw(buf.Length, old(View()), s)
    {
      if pos + |s| < buf.Length {
        forall i | 0 <= i < |s| {
          buf[pos + i] := s[i];
        }
        pos := pos + |s|;
        buf[pos] := '\0';
      }
    }

    method ObjStart()
      requires Valid()
      modifies this, buf
      ensures Valid() && View() == Apply(buf.Length, old(View()), Open(false))
    {
      RawText("{");
      first := true;
    }

    method ObjEnd()
      requires Valid()
      modifies this, buf
      ensures Valid() && View() == Apply(buf.Length, old(View()), Close(false))
    {
      RawText("}");
      first := false;
    }

    method ArrStart()
      requires Valid()
      modifies this, buf
      ensures Valid() && View() == Apply(buf.Length, old(View()), Open(true))
    {
      RawText("[");
      first := true;
    }

    method ArrEnd()
      requires Valid()
      modifies this, buf
      ensures Valid() && View() == Apply(buf.Length, old(View()), Close(true))
    {
      RawText("]");
      first := false;
    }

    method WriteComma()
      requires Valid()
      modifies this, buf
      ensures Valid() && View() == Apply(buf.Length, old(View()), Comma)
    {
      if !first {
        RawText(",");
      }
      first := false;
    }

    method KvStr(k: string, v: Option<string>)
      requires Valid()
      modifies this, buf
      ensures Valid() && View() == Run(buf.Length, old(View()), StringCalls(k, if v.Some? then v.value else ""))
    {
      var text := if v.Some? then v.value else "";
      ghost var v0 := View();
      WriteComma();
      ghost var v1 := View();
      RawText("\"");
      ghost var v2 := View();
      RawText(k);
      ghost var v3 := View();
      RawText("\":\"");
      ghost var v4 := View();
      RawText(text);
      ghost var v5 := View();
      RawText("\"");
      RunAlong(buf.Length, StringCalls(k, text), [v0, v1, v2, v3, v4, v5, View()]);
    }

    method KvInt(k: string, v: int)
      requires Valid()
      modifies this, buf
      ensures Valid() && View() == Run(buf.Length, old(View()), IntCalls(k, v))
    {
      ghost var v0 := View();
      WriteComma();
      ghost var v1 := View();
      RawText("\"");
      ghost var v2 := View();
      RawText(k);
      ghost var v3 := View();
      RawText("\":");
      ghost var v4 := View();
      RawText(Decimal(v));
      RunAlong(buf.Length, IntCalls(k, v), [v0, v1, v2, v3, v4, View()]);
    }

    // json_escape_str
    method EscapeStr(s: string)
      requires Valid()
      modifies this, buf
      ensures Valid() && View() == Run(buf.Length, old(View()), EscapeCalls(s))
    {
      ghost var was, open := View(), [Put("\"")];
      RawText("\"");
      RunSnoc(buf.Length, was, [], Put("\""));
      assert [] + [Put("\"")] == open;
      for p := 0 to |s|
        invariant Valid() && View() == Run(buf.Length, was, open + EscapePuts(s[..p]))
      {
        assert s[..p + 1] == s[..p] + [s[p]];
        EscapePutsSnoc(s[..p], s[p]);
        RunSnoc(buf.Length, was, open + EscapePuts(s[..p]), Put(EscapeOf(s[p])));
        assert open + EscapePuts(s[..p + 1]) == open + EscapePuts(s[..p]) + [Put(EscapeOf(s[p]))];
        if s[p] == '"' {
          RawText("\\\"");
        } else if s[p] == '\\' {
          RawText("\\\\");
        } else if s[p] == '\n' {
          RawText("\\n");
        } else if s[p] == '\r' {
          RawText("\\r");
        } else if s[p] == '\t' {
          RawText("\\t");
        } else if pos + 1 < buf.Length {
          buf[pos] := s[p];
          pos := pos + 1;
          buf[pos] := '\0';
        }
      }
      assert s[..|s|] == s;
      RawText("\"");
      RunSnoc(buf.Length, was, open + EscapePuts(s), Put("\""));
    }
  }

  // ---- What the member calls leave ----

  // The pieces of a member behind its comma.
  function StringPieces(k: string, v: string): seq<string> {
    ["\"", k, "\":\"", v, "\""]
  }

  function IntPieces(k: string, v: int): seq<string> {
    ["\"", k, "\":", Decimal(v)]
  }

  lemma ConcatFirst(a: string, more: seq<string>)
    ensures Concat([a] + more) == a + Concat(more) && Puts([a] + more) == [Put(a)] + Puts(more)
  {
    assert ([a] + more)[1..] == more;
  }

  lemma StringPiecesText(k: string, v: string)
    ensures Concat(StringPieces(k, v)) == FieldText(Field(k, Str(v)))
    ensures StringCalls(k, v) == [Comma] + Puts(StringPieces(k, v))
  {
    ConcatFirst("\"", []);
    ConcatFirst(v, ["\""] + []);
    ConcatFirst("\":\"", [v] + (["\""] + []));
    ConcatFirst(k, ["\":\""] + ([v] + (["\""] + [])));
    ConcatFirst("\"", [k] + (["\":\""] + ([v] + (["\""] + []))));
    assert StringPieces(k, v) == ["\""] + ([k] + (["\":\""] + ([v] + (["\""] + []))));
    assert "\"" + (k + ("\":\"" + (v + ("\"" + "")))) == Quoted(k) + ":" + Quoted(v);
  }

  lemma IntPiecesText(k: string, v: int)
    ensures Concat(IntPieces(k, v)) == Quoted(k) + ":" + Decimal(v)
    ensures IntCalls(k, v) == [Comma] + Puts(IntPieces(k, v))
  {
    ConcatFirst(Decimal(v), []);
    ConcatFirst("\":", [Decimal(v)] + []);
    ConcatFirst(k, ["\":"] + ([Decimal(v)] + []));
    ConcatFirst("\"", [k] + (["\":"] + ([Decimal(v)] + [])));
    assert IntPieces(k, v) == ["\""] + ([k] + (["\":"] + ([Decimal(v)] + [])));
    assert "\"" + (k + ("\":" + (Decimal(v) + ""))) == Quoted(k) + ":" + Decimal(v);
  }

  // A comma where one is due, and the pieces.
  lemma MemberText(cap: nat, j: State, pieces: seq<string>)
    requires |j.text| + |Concat(pieces)| + 1 < cap
    ensures Run(cap, j, [Comma] + Puts(pieces)) == State(j.text + (if j.first then "" else ",") + Concat(pieces), false)
  {
    var calls := [Comma] + Puts(pieces);
    EmitFirst(Comma, Puts(pieces), j.first);
    PutsEmit(pieces, false, []);
    assert Puts(pieces) + [] == Puts(pieces) && Concat(pieces) + "" == Concat(pieces);
    RunEmits(cap, j, calls);
    FlagLowered(cap, j, pieces);
    assert j.text + ((if j.first then "" else ",") + Concat(pieces)) == j.text + (if j.first then "" else ",") + Concat(pieces);
  }

  lemma FlagLowered(cap: nat, j: State, pieces: seq<string>)
    ensures !Run(cap, j, [Comma] + Puts(pieces)).first
  {
    assert ([Comma] + Puts(pieces))[1..] == Puts(pieces);
    PutsKeepFlag(cap, Apply(cap, j, Comma), pieces);
  }

  lemma {:induction false} PutsKeepFlag(cap: nat, j: State, pieces: seq<string>)
    ensures Run(cap, j, Puts(pieces)).first == j.first
    decreases |pieces|
  {
    if pieces != [] {
      assert Puts(pieces)[1..] == Puts(pieces[1..]);
      PutsKeepFlag(cap, Apply(cap, j, Put(pieces[0])), pieces[1..]);
    }
  }

  /** A string member that fits is in the buffer as key, colon and value, each between quotation marks, behind its comma. */
  lemma StringFits(cap: nat, j: State, k: string, v: string)
    requires |j.text| + |FieldText(Field(k, Str(v)))| + 1 < cap
    ensures Run(cap, j, StringCalls(k, v)) == State(j.text + (if j.first then "" else ",") + FieldText(Field(k, Str(v))), false)
  {
    StringPiecesText(k, v);
    MemberText(cap, j, StringPieces(k, v));
  }

  /** A number member likewise, in decimal. */
  lemma IntFits(cap: nat, j: State, k: string, v: int)
    requires |j.text| + |Quoted(k) + ":" + Decimal(v)| + 1 < cap
    ensures Run(cap, j, IntCalls(k, v)) == State(j.text + (if j.first then "" else ",") + (Quoted(k) + ":" + Decimal(v)), false)
  {
    IntPiecesText(k, v);
    MemberText(cap, j, IntPieces(k, v));
  }

  // ---- An object of such members ----

  predicate NoBool(fs: seq<Field>) {
    forall i :: 0 <= i < |fs| ==> !fs[i].value.Bool?
  }

  function MemberCalls(fs: seq<Field>): seq<Op>
    requires NoBool(fs)
  {
    if fs == [] then []
    else (match fs[0].value
          case Str(s) => StringCalls(fs[0].key, s)
          case Num(n) => IntCalls(fs[0].key, n)) + MemberCalls(fs[1..])
  }

  // The calls of a handler that writes an object of strings and numbers.
  function ObjectCalls(fs: seq<Field>): seq<Op>
    requires NoBool(fs)
  {
    [Open(false)] + (MemberCalls(fs) + [Close(false)])
  }

  function MemberOf(f: Field): Node
    requires !f.value.Bool?
  {
    match f.value
    case Str(s) => Leaf(StringPieces(f.key, s))
    case Num(n) => Leaf(IntPieces(f.key, n))
  }

  function MembersOf(fs: seq<Field>): seq<Node>
    requires NoBool(fs)
  {
    if fs == [] then [] else [MemberOf(fs[0])] + MembersOf(fs[1..])
  }

  lemma MemberIs(f: Field)
    requires !f.value.Bool?
    ensures Rendered(MemberOf(f)) == FieldText(f)
    ensures [Comma] + Writes(MemberOf(f)) == match f.value case Str(s) => StringCalls(f.key, s) case Num(n) => IntCalls(f.key, n)
  {
    match f.value {
      case Str(s) => StringPiecesText(f.key, s);
      case Num(n) => IntPiecesText(f.key, n);
    }
  }

  lemma NodesFirst(kid: Node, more: seq<Node>)
    ensures CallsAll([kid] + more) == [Comma] + (Writes(kid) + CallsAll(more))
    ensures Joined([kid] + more) == if more == [] then Rendered(kid) else Rendered(kid) + ("," + Joined(more))
  {
    assert ([kid] + more)[1..] == more;
  }

  lemma MemberFirst(text: string, kid: Node, more: seq<Node>, left: string)
    requires Rendered(kid) == text && Joined(more) + "}" == left
    ensures Joined([kid] + more) + "}" == text + ((if more == [] then "" else ",") + left)
  {
    NodesFirst(kid, more);
    if more == [] {
      assert left == "}" && "" + left == left;
    } else {
      assert text + ("," + Joined(more)) + "}" == text + ("," + left);
    }
  }

  lemma CallsFirst(f: Field, more: seq<Node>)
    requires !f.value.Bool?
    ensures CallsAll([MemberOf(f)] + more) == (match f.value case Str(s) => StringCalls(f.key, s) case Num(n) => IntCalls(f.key, n)) + CallsAll(more)
  {
    var kid := MemberOf(f);
    MemberIs(f);
    NodesFirst(kid, more);
    assert [Comma] + (Writes(kid) + CallsAll(more)) == ([Comma] + Writes(kid)) + CallsAll(more);
  }

  lemma {:induction false} MembersAre(fs: seq<Field>)
    requires NoBool(fs)
    ensures CallsAll(MembersOf(fs)) == MemberCalls(fs)
    ensures Joined(MembersOf(fs)) + "}" == Rest(fs)
    decreases |fs|
  {
    if fs != [] {
      var more := MembersOf(fs[1..]);
      MembersAre(fs[1..]);
      MemberIs(fs[0]);
      CallsFirst(fs[0], more);
      MemberFirst(FieldText(fs[0]), MemberOf(fs[0]), more, Rest(fs[1..]));
    }
  }

  /** An object built by such calls, when it fits, is the text of that object. */
  lemma ObjectBuilt(cap: nat, fs: seq<Field>)
    requires NoBool(fs) && |Object(fs)| < cap
    ensures Run(cap, State("", true), ObjectCalls(fs)).text == Object(fs)
  {
    var n := Tree(false, MembersOf(fs));
    MembersAre(fs);
    assert Writes(n) == ObjectCalls(fs);
    assert Rendered(n) == Object(fs);
    DocumentRendered(cap, n);
  }

  /** And the getters of the library find its members in it. */
  lemma BuiltReadsBack(cap: nat, fs: seq<Field>, k: string, default: int)
    requires NoBool(fs) && |Object(fs)| < cap && WellFormed(fs) && Searchable(k)
    ensures var text, j := Run(cap, State("", true), ObjectCalls(fs)).text, FirstField(fs, k);
            j < |fs| && !Shadowed(fs, k) ==>
              match fs[j].value
              case Num(n) => GetInt(text, k, default) == n
              case Str(s) => '\\' !in s && |s| <= 255 ==> GetString(text, k) == Some(s)
              case Bool(_) => false
  {
    ObjectBuilt(cap, fs);
    GetIntOfObject(fs, k, default);
    GetStringOfObject(fs, k);
  }

  // A run given state by state.
  lemma {:induction false} RunAlong(cap: nat, ops: seq<Op>, vs: seq<State>)
    requires |vs| == |ops| + 1 && forall i :: 0 <= i < |ops| ==> vs[i + 1] == Apply(cap, vs[i], ops[i])
    ensures Run(cap, vs[0], ops) == vs[|ops|]
    decreases |ops|
  {
    if ops != [] {
      RunAlong(cap, ops[1..], vs[1..]);
    }
  }

  /** When it fits, an escaped string in the buffer is its text between quotation marks. */
  lemma EscapeFits(cap: nat, j: State, s: string)
    requires |j.text| + |Escaped(s)| + 2 < cap
    ensures Run(cap, j, EscapeCalls(s)).text == j.text + ("\"" + Escaped(s) + "\"")
  {
    var ops := EscapeCalls(s);
    assert ops == [Put("\"")] + (EscapePuts(s) + [Put("\"")]);
    EmitFirst(Put("\""), EscapePuts(s) + [Put("\"")], j.first);
    EscapePutsEmit(s, j.first);
    RunEmits(cap, j, ops);
  }

  lemma {:induction false} EscapePutsEmit(s: string, first: bool)
    ensures Emit(EscapePuts(s) + [Put("\"")], first) == Escaped(s) + "\""
    decreases |s|
  {
    var end := [Put("\"")];
    if s == [] {
      assert EscapePuts(s) + end == end && end[1..] == [];
    } else {
      assert EscapePuts(s) + end == [Put(EscapeOf(s[0]))] + (EscapePuts(s[1..]) + end);
      EmitFirst(Put(EscapeOf(s[0])), EscapePuts(s[1..]) + end, first);
      EscapePutsEmit(s[1..], first);
    }
  }
}
