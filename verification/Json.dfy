/**
 The JSON objects of `libbb/bb_json.c`: the text of an object, the writer that builds it in a
 buffer, and the readers that look for a quoted key in it.
 C strings are sequences of characters, without the NUL that ends them.
 */
module Json {
  import opened Options

  type Int32 = i: int | -0x8000_0000 <= i < 0x8000_0000

  datatype Value = Str(s: string) | Num(n: Int32) | Bool(b: bool)
  datatype Field = Field(key: string, value: Value)

  // ---- Decimal numbers ----

  function Digit(d: nat): char
    requires d < 10
  {
    '0' + d as char
  }

  predicate IsDigit(c: char) {
    '0' <= c <= '9'
  }

  function Digits(n: nat): (s: string)
    ensures s != [] && forall i :: 0 <= i < |s| ==> IsDigit(s[i])
  {
    if n < 10 then [Digit(n)] else Digits(n / 10) + [Digit(n % 10)]
  }

  // %d
  function Decimal(n: int): (s: string)
    ensures s != [] && (IsDigit(s[0]) || s[0] == '-') && '"' !in s
  {
    if n < 0 then "-" + Digits(-n) else Digits(n)
  }

  predicate IsSpace(c: char) {
    c == ' ' || '\t' <= c <= '\r'
  }

  function LeadingDigits(s: string, v: nat): nat
    decreases |s|
  {
    if s != [] && IsDigit(s[0]) then LeadingDigits(s[1..], v * 10 + (s[0] - '0') as nat) else v
  }

  // atoi, where its result fits an int
  function Atoi(s: string): int
    decreases |s|
  {
    if s == [] then 0
    else if IsSpace(s[0]) then Atoi(s[1..])
    else if s[0] == '-' then 0 - LeadingDigits(s[1..], 0)
    else if s[0] == '+' then LeadingDigits(s[1..], 0)
    else LeadingDigits(s, 0)
  }

  // ---- The text of an object ----

  function Quoted(s: string): string {
    "\"" + s + "\""
  }

  function ValueText(v: Value): string {
    match v
    case Str(s) => Quoted(s)
    case Num(n) => Decimal(n)
    case Bool(b) => if b then "true" else "false"
  }

  function FieldText(f: Field): string {
    Quoted(f.key) + ":" + ValueText(f.value)
  }

  // A comma between members and none after the last, as section 4 of RFC 8259 has it.
  function Sep(rest: seq<Field>): string {
    if rest == [] then "" else ","
  }

  function Rest(fs: seq<Field>): string {
    if fs == [] then "}" else FieldText(fs[0]) + (Sep(fs[1..]) + Rest(fs[1..]))
  }

  function Object(fs: seq<Field>): string {
    "{" + Rest(fs)
  }

  // ---- Searching ----

  // The text after the first place where `pat` occurs in s: strstr and the step over the match.
  function After(s: string, pat: string): Option<string> {
    if pat <= s then Some(s[|pat|..])
    else if s == [] then None
    else After(s[1..], pat)
  }

  function Clip(s: string, n: nat): string {
    if |s| <= n then s else s[..n]
  }

  function Skip(s: string): string {
    if s != [] && (s[0] == ' ' || s[0] == ':') then Skip(s[1..]) else s
  }

  function FindKey(json: string, key: string): Option<string> {
    match After(json, Clip(Quoted(key), 127))
    case None => None
    case Some(p) => Some(Skip(p))
  }

  function Unescape(c: char): char {
    if c == 'n' then '\n' else if c == 't' then '\t' else c
  }

  function Decode(s: string, room: nat): string {
    if room == 0 || s == [] || s[0] == '"' then []
    else if s[0] == '\\' && |s| > 1 then [Unescape(s[1])] + Decode(s[2..], room - 1)
    else [s[0]] + Decode(s[1..], room - 1)
  }

  function StringAt(p: string): Option<string> {
    if p == [] || p[0] != '"' then None else Some(Decode(p[1..], 255))
  }

  function BoolAt(p: string, default: bool): bool {
    if "true" <= p then true else if "false" <= p then false else default
  }

  function GetString(json: string, key: string): Option<string> {
    match FindKey(json, key)
    case None => None
    case Some(p) => StringAt(p)
  }

  function GetInt(json: string, key: string, default: int): int {
    match FindKey(json, key)
    case None => default
    case Some(p) => Atoi(p)
  }

  function GetBool(json: string, key: string, default: bool): bool {
    match FindKey(json, key)
    case None => default
    case Some(p) => BoolAt(p, default)
  }

  // ---- Decimal printing and parsing are inverse ----

  lemma {:induction false} DigitsParse(n: nat, rest: string)
    ensures LeadingDigits(Digits(n) + rest, 0) == LeadingDigits(rest, n)
    decreases n
  {
    if n < 10 {
      assert (Digits(n) + rest)[1..] == rest;
    } else {
      var last := [Digit(n % 10)] + rest;
      assert Digits(n) + rest == Digits(n / 10) + last;
      DigitsParse(n / 10, last);
      assert last[1..] == rest;
      assert n / 10 * 10 + n % 10 == n;
    }
  }

  lemma StopsAt(rest: string, n: nat)
    requires rest == [] || !IsDigit(rest[0])
    ensures LeadingDigits(rest, n) == n
  {
  }

  lemma AtoiOfDigits(s: string, t: string)
    requires s != [] && IsDigit(s[0])
    ensures Atoi(s + t) == LeadingDigits(s + t, 0)
  {
    assert (s + t)[0] == s[0];
  }

  lemma AtoiOfMinus(s: string)
    ensures Atoi("-" + s) == 0 - LeadingDigits(s, 0)
  {
    assert ("-" + s)[1..] == s;
  }

  /** atoi undoes %d, whatever non-digit follows. */
  lemma DecimalParses(n: int, rest: string)
    requires rest == [] || !IsDigit(rest[0])
    ensures Atoi(Decimal(n) + rest) == n
  {
    var m: nat := if n < 0 then -n else n;
    DigitsParse(m, rest);
    StopsAt(rest, m);
    if n < 0 {
      AtoiOfMinus(Digits(m) + rest);
      assert Decimal(n) + rest == "-" + (Digits(m) + rest);
    } else {
      AtoiOfDigits(Digits(m), rest);
    }
  }

  predicate AllSpace(s: string) {
    forall i :: 0 <= i < |s| ==> IsSpace(s[i])
  }

  lemma {:induction false} AtoiSkips(sp: string, s: string)
    requires AllSpace(sp)
    ensures Atoi(sp + s) == Atoi(s)
    decreases |sp|
  {
    if sp == [] {
      assert sp + s == s;
    } else {
      assert (sp + s)[0] == sp[0] && (sp + s)[1..] == sp[1..] + s;
      AtoiSkips(sp[1..], s);
    }
  }

  /** atoi reads white space, a sign of either kind or none, and the digits up to the first other character. */
  lemma AtoiReads(sp: string, n: nat, rest: string)
    requires AllSpace(sp) && (rest == [] || !IsDigit(rest[0]))
    ensures Atoi(sp + (Digits(n) + rest)) == n
    ensures Atoi(sp + ("+" + (Digits(n) + rest))) == n
    ensures Atoi(sp + ("-" + (Digits(n) + rest))) == 0 - n
  {
    var d := Digits(n) + rest;
    DigitsParse(n, rest);
    StopsAt(rest, n);
    AtoiOfDigits(Digits(n), rest);
    AtoiSkips(sp, d);
    AtoiSkips(sp, "+" + d);
    AtoiSkips(sp, "-" + d);
    AtoiOfMinus(d);
    assert ("+" + d)[0] == '+' && ("+" + d)[1..] == d;
  }

  /** Behind the key any blanks and colons are passed over. */
  lemma {:induction false} SkipPadding(pad: string, s: string)
    requires (forall i :: 0 <= i < |pad| ==> pad[i] == ' ' || pad[i] == ':') && (s == [] || (s[0] != ' ' && s[0] != ':'))
    ensures Skip(pad + s) == s
    decreases |pad|
  {
    if pad == [] {
      assert pad + s == s;
    } else {
      assert (pad + s)[0] == pad[0] && (pad + s)[1..] == pad[1..] + s;
      SkipPadding(pad[1..], s);
    }
  }

  /** The search text has 128 bytes: of a key of 126 characters and more, the first 126 are looked for, without a closing mark. */
  lemma LongKeyIsClipped(json: string, key: string)
    requires |key| >= 126
    ensures FindKey(json, key) == match After(json, "\"" + key[..126]) case None => None case Some(p) => Some(Skip(p))
  {
    assert Clip(Quoted(key), 127) == "\"" + key[..126];
  }

  // The first place where `pat` occurs
  predicate FirstAt(s: string, pat: string, i: nat) {
    i <= |s| && pat <= s[i..] && forall j :: 0 <= j < i ==> !(pat <= s[j..])
  }

  lemma FirstShift(s: string, pat: string, i: nat)
    requires s != [] && !(pat <= s) && FirstAt(s[1..], pat, i)
    ensures FirstAt(s, pat, i + 1) && s[i + 1..] == s[1..][i..]
  {
    forall j | 0 <= j < i + 1 ensures !(pat <= s[j..]) {
      if j == 0 {
        assert s[0..] == s;
      } else {
        assert s[j..] == s[1..][j - 1..];
      }
    }
  }

  lemma {:induction false} FoundFirst(s: string, pat: string) returns (i: nat)
    requires After(s, pat).Some?
    ensures FirstAt(s, pat, i) && After(s, pat).value == s[i..][|pat|..]
    decreases |s|
  {
    assert s[0..] == s;
    if pat <= s {
      i := 0;
    } else {
      i := FoundFirst(s[1..], pat);
      FirstShift(s, pat, i);
      i := i + 1;
    }
  }

  lemma {:induction false} FoundNowhere(s: string, pat: string, i: nat)
    requires After(s, pat).None? && i <= |s|
    ensures !(pat <= s[i..])
    decreases |s|
  {
    assert s[0..] == s;
    if i > 0 {
      assert s[i..] == s[1..][i - 1..];
      FoundNowhere(s[1..], pat, i - 1);
    }
  }

  /** The search finds the first occurrence, and fails only when there is none. */
  lemma AfterIsFirst(s: string, pat: string)
    ensures After(s, pat).None? <==> forall i :: 0 <= i <= |s| ==> !(pat <= s[i..])
    ensures After(s, pat).Some? ==> exists i: nat :: FirstAt(s, pat, i) && After(s, pat).value == s[i..][|pat|..]
  {
    if After(s, pat).Some? {
      var i := FoundFirst(s, pat);
    } else {
      forall i | 0 <= i <= |s| ensures !(pat <= s[i..]) {
        FoundNowhere(s, pat, i);
      }
    }
  }

  // ---- Where a quoted key is found ----

  // No quotation mark inside: a token that cannot end early.
  predicate Token(s: string) {
    '"' !in s
  }

  // What follows a token in the text of an object.
  predicate Mark(c: char) {
    c == ':' || c == ',' || c == '}'
  }

  // What follows a value.
  predicate Closes(s: string) {
    s != [] && (s[0] == ',' || s[0] == '}')
  }

  // Keys that can be looked up: every identifier up to 125 characters, and more.
  predicate Searchable(k: string) {
    Token(k) && |k| <= 125 && (k == [] || !Mark(k[0]))
  }

  predicate WellFormed(fs: seq<Field>) {
    forall i :: 0 <= i < |fs| ==> Token(fs[i].key) && (fs[i].value.Str? ==> Token(fs[i].value.s))
  }

  // What the search leaves over: the text behind the first key or string value that equals k.
  function Lookup(fs: seq<Field>, k: string): Option<string> {
    if fs == [] then None
    else
      var left := Sep(fs[1..]) + Rest(fs[1..]);
      if fs[0].key == k then Some(":" + (ValueText(fs[0].value) + left))
      else if fs[0].value == Str(k) then Some(left)
      else Lookup(fs[1..], k)
  }

  lemma {:induction false} GapPassed(gap: string, s: string, k: string)
    requires Token(gap)
    ensures After(gap + s, Quoted(k)) == After(s, Quoted(k))
    decreases |gap|
  {
    if gap == [] {
      assert gap + s == s;
    } else {
      assert (gap + s)[0] == gap[0] && Quoted(k)[0] == '"';
      assert (gap + s)[1..] == gap[1..] + s;
      GapPassed(gap[1..], s, k);
    }
  }

  lemma TokenFound(k: string, s: string)
    ensures After(Quoted(k) + s, Quoted(k)) == Some(s)
  {
    assert Quoted(k) <= Quoted(k) + s;
  }

  lemma MatchIsWhole(t: string, k: string, s: string)
    requires Token(t) && Token(k) && Quoted(k) <= Quoted(t) + s
    ensures t == k
  {
    var text, pat := Quoted(t) + s, Quoted(k);
    var n := if |k| < |t| then |k| else |t|;
    assert text[|t| + 1] == '"' && pat[|k| + 1] == '"';
    assert forall i :: 0 <= i < |t| ==> text[i + 1] == t[i];
    assert forall i :: 0 <= i < |k| ==> pat[i + 1] == k[i];
    assert text[n + 1] == pat[n + 1];
    assert |t| == |k|;
  }

  lemma OtherToken(t: string, k: string, s: string)
    requires Token(t) && Token(k) && t != k
    ensures !(Quoted(k) <= Quoted(t) + s)
  {
    if Quoted(k) <= Quoted(t) + s {
      MatchIsWhole(t, k, s);
    }
  }

  lemma ClosingQuote(s: string, k: string)
    requires s != [] && Mark(s[0]) && Searchable(k)
    ensures !(Quoted(k) <= "\"" + s)
  {
    assert ("\"" + s)[1] == s[0];
    assert Quoted(k)[1] == if k == [] then '"' else k[0];
  }

  lemma TokenPassed(t: string, s: string, k: string)
    requires Token(t) && Searchable(k) && t != k && s != [] && Mark(s[0])
    ensures After(Quoted(t) + s, Quoted(k)) == After(s, Quoted(k))
  {
    var closing := "\"" + s;
    OtherToken(t, k, s);
    assert (Quoted(t) + s)[1..] == t + closing;
    GapPassed(t, closing, k);
    ClosingQuote(s, k);
    assert closing[1..] == s;
  }

  lemma ValuePassed(v: Value, s: string, k: string)
    requires Searchable(k) && s != [] && Mark(s[0]) && v != Str(k) && (v.Str? ==> Token(v.s))
    ensures After(ValueText(v) + s, Quoted(k)) == After(s, Quoted(k))
  {
    match v
    case Str(t) => TokenPassed(t, s, k);
    case Num(_) => GapPassed(ValueText(v), s, k);
    case Bool(_) => GapPassed(ValueText(v), s, k);
  }

  lemma LeftStarts(fs: seq<Field>)
    ensures var left := Sep(fs) + Rest(fs); left != [] && left[0] == if fs == [] then '}' else ','
  {
  }

  /** The search stops at the first key or string value that equals the key asked for. */
  lemma {:induction false} AfterRest(fs: seq<Field>, k: string)
    requires WellFormed(fs) && Searchable(k)
    ensures After(Rest(fs), Quoted(k)) == Lookup(fs, k)
    decreases |fs|
  {
    if fs == [] {
      GapPassed("}", "", k);
      assert "}" + "" == "}";
    } else {
      var f, left := fs[0], Sep(fs[1..]) + Rest(fs[1..]);
      var tail := ValueText(f.value) + left;
      LeftStarts(fs[1..]);
      assert Rest(fs) == Quoted(f.key) + (":" + tail);
      TokenFound(k, ":" + tail);
      TokenFound(k, left);
      if f.key != k {
        TokenPassed(f.key, ":" + tail, k);
        GapPassed(":", tail, k);
        if f.value != Str(k) {
          ValuePassed(f.value, left, k);
          GapPassed(Sep(fs[1..]), Rest(fs[1..]), k);
          AfterRest(fs[1..], k);
        }
      }
    }
  }

  lemma AfterObject(fs: seq<Field>, k: string)
    requires WellFormed(fs) && Searchable(k)
    ensures After(Object(fs), Clip(Quoted(k), 127)) == Lookup(fs, k)
  {
    GapPassed("{", Rest(fs), k);
    AfterRest(fs, k);
  }

  // ---- What the getters return ----

  function FirstField(fs: seq<Field>, k: string): (j: nat)
    ensures j <= |fs| && (j < |fs| ==> fs[j].key == k)
    ensures forall i :: 0 <= i < j ==> fs[i].key != k
  {
    if fs == [] || fs[0].key == k then 0 else 1 + FirstField(fs[1..], k)
  }

  // A string value in an earlier field reads like the key.
  predicate Shadowed(fs: seq<Field>, k: string) {
    exists i :: 0 <= i < FirstField(fs, k) && fs[i].value == Str(k)
  }

  function Left(fs: seq<Field>, n: nat): (s: string)
    requires n <= |fs|
    ensures Closes(s)
  {
    Sep(fs[n..]) + Rest(fs[n..])
  }

  lemma ShadowedTail(fs: seq<Field>, k: string)
    requires fs != [] && fs[0].key != k
    ensures Shadowed(fs, k) <==> fs[0].value == Str(k) || Shadowed(fs[1..], k)
  {
    if Shadowed(fs, k) && fs[0].value != Str(k) {
      var i :| 0 <= i < FirstField(fs, k) && fs[i].value == Str(k);
      assert fs[1..][i - 1].value == Str(k);
    }
    if Shadowed(fs[1..], k) {
      var i :| 0 <= i < FirstField(fs[1..], k) && fs[1..][i].value == Str(k);
      assert fs[i + 1].value == Str(k);
    }
  }

  lemma {:induction false} LookupCases(fs: seq<Field>, k: string)
    ensures var j := FirstField(fs, k);
            if Shadowed(fs, k) then Lookup(fs, k).Some? && Closes(Lookup(fs, k).value)
            else Lookup(fs, k) == if j == |fs| then None else Some(":" + (ValueText(fs[j].value) + Left(fs, j + 1)))
    decreases |fs|
  {
    if fs != [] && fs[0].key != k {
      LookupCases(fs[1..], k);
      ShadowedTail(fs, k);
      LeftStarts(fs[1..]);
      var j := FirstField(fs[1..], k);
      if j < |fs[1..]| {
        assert fs[1..][j + 1..] == fs[j + 2..];
      }
    }
  }

  lemma ValueStarts(v: Value, left: string)
    ensures var t := ValueText(v) + left;
            t != [] && (t[0] == '"' <==> v.Str?) && (IsDigit(t[0]) || t[0] == '-' <==> v.Num?) && t[0] != ' ' && t[0] != ':'
  {
    assert (ValueText(v) + left)[0] == ValueText(v)[0];
  }

  lemma SkipNothing(s: string)
    requires s != [] && s[0] != ' ' && s[0] != ':'
    ensures Skip(s) == s
  {
  }

  lemma SkipColon(v: Value, left: string)
    ensures Skip(":" + (ValueText(v) + left)) == ValueText(v) + left
  {
    var t := ValueText(v) + left;
    ValueStarts(v, left);
    assert (":" + t)[0] == ':' && (":" + t)[1..] == t;
    SkipNothing(t);
  }

  lemma FindKeyIsLookup(fs: seq<Field>, k: string)
    requires WellFormed(fs) && Searchable(k)
    ensures FindKey(Object(fs), k) == if Lookup(fs, k).None? then None else Some(Skip(Lookup(fs, k).value))
  {
    AfterObject(fs, k);
  }

  // At the value, at the rest of the object behind a shadowing string, or nowhere.
  predicate PointsAt(p: Option<string>, fs: seq<Field>, k: string) {
    var j := FirstField(fs, k);
    if Shadowed(fs, k) then p.Some? && Closes(p.value)
    else p == if j == |fs| then None else Some(ValueText(fs[j].value) + Left(fs, j + 1))
  }

  // Where find_key points.
  lemma FindKeyCases(fs: seq<Field>, k: string)
    requires WellFormed(fs) && Searchable(k)
    ensures PointsAt(FindKey(Object(fs), k), fs, k)
  {
    FindKeyIsLookup(fs, k);
    LookupCases(fs, k);
    var j := FirstField(fs, k);
    if Shadowed(fs, k) {
      SkipNothing(Lookup(fs, k).value);
    } else if j < |fs| {
      SkipColon(fs[j].value, Left(fs, j + 1));
    }
  }

  predicate Plain(s: string) {
    Token(s) && '\\' !in s
  }

  lemma DecodeOne(c: char, s: string, room: nat)
    requires c != '"' && c != '\\' && room > 0
    ensures Decode([c] + s, room) == [c] + Decode(s, room - 1)
  {
    assert ([c] + s)[1..] == s;
  }

  lemma ClipOne(s: string, room: nat)
    requires s != [] && room > 0
    ensures Clip(s, room) == [s[0]] + Clip(s[1..], room - 1)
  {
  }

  lemma {:induction false} DecodePlain(s: string, rest: string, room: nat)
    requires Plain(s)
    ensures Decode(s + ("\"" + rest), room) == Clip(s, room)
    decreases |s|
  {
    var end := "\"" + rest;
    if s == [] {
      assert s + end == end;
    } else if room > 0 {
      assert s + end == [s[0]] + (s[1..] + end);
      DecodeOne(s[0], s[1..] + end, room);
      DecodePlain(s[1..], rest, room - 1);
      ClipOne(s, room);
    }
  }

  // Every escape costs a character, unless it takes the closing quotation mark for its second one.
  lemma {:induction false} DecodeShorter(s: string, rest: string, room: nat)
    requires Token(s)
    ensures var d := Decode(s + ("\"" + rest), room);
            Token(d) ==> |d| <= |s| && ('\\' in s ==> |d| < |s|)
    decreases |s|
  {
    var end := "\"" + rest;
    var d := Decode(s + end, room);
    if s == [] {
      assert s + end == end;
    } else if room > 0 {
      assert s + end == [s[0]] + (s[1..] + end);
      if s[0] != '\\' {
        DecodeOne(s[0], s[1..] + end, room);
        DecodeShorter(s[1..], rest, room - 1);
        assert d[1..] == Decode(s[1..] + end, room - 1);
      } else if |s| == 1 {
        assert (s + end)[1] == '"' && d[0] == '"';
      } else {
        assert (s + end)[1] == s[1] && (s + end)[2..] == s[2..] + end;
        DecodeShorter(s[2..], rest, room - 1);
        assert d[1..] == Decode(s[2..] + end, room - 1);
      }
    }
  }

  /** A string between quotation marks reads as itself exactly when it has no backslash and 255 characters at most. */
  lemma DecodeExact(s: string, rest: string)
    requires Token(s)
    ensures Decode(s + ("\"" + rest), 255) == s <==> '\\' !in s && |s| <= 255
  {
    if '\\' in s {
      DecodeShorter(s, rest, 255);
    } else {
      DecodePlain(s, rest, 255);
    }
  }

  lemma StringAtValue(v: Value, left: string)
    requires v.Str? ==> Token(v.s)
    ensures StringAt(ValueText(v) + left).Some? <==> v.Str?
    ensures v.Str? && Plain(v.s) ==> StringAt(ValueText(v) + left) == Some(Clip(v.s, 255))
    ensures v.Str? ==> (StringAt(ValueText(v) + left) == Some(v.s) <==> '\\' !in v.s && |v.s| <= 255)
  {
    ValueStarts(v, left);
    if v.Str? {
      var rest := v.s + ("\"" + left);
      assert ValueText(v) + left == "\"" + rest;
      assert ("\"" + rest)[1..] == rest;
      DecodeExact(v.s, left);
      if Plain(v.s) {
        DecodePlain(v.s, left, 255);
      }
    }
  }

  /**
   The string getter returns a string when the first field with the key holds one and no earlier
   string value equals the key, and NULL otherwise. It is the one written exactly when that has no
   backslash and 255 characters at most; without a backslash it is its first 255 characters.
   */
  lemma GetStringOfObject(fs: seq<Field>, k: string)
    requires WellFormed(fs) && Searchable(k)
    ensures var j, got := FirstField(fs, k), GetString(Object(fs), k);
            if j < |fs| && fs[j].value.Str? && !Shadowed(fs, k) then
              var s := fs[j].value.s;
              && got.Some?
              && (got.value == s <==> '\\' !in s && |s| <= 255)
              && ('\\' !in s ==> got.value == Clip(s, 255))
            else got == None
  {
    FindKeyCases(fs, k);
    var j := FirstField(fs, k);
    if j < |fs| && !Shadowed(fs, k) {
      StringAtValue(fs[j].value, Left(fs, j + 1));
    }
  }

  lemma AtoiOfOther(s: string)
    requires s != [] && (Closes(s) || s[0] == '"' || s[0] == 't' || s[0] == 'f')
    ensures Atoi(s) == 0
  {
  }

  lemma AtoiAtValue(v: Value, left: string)
    requires Closes(left)
    ensures Atoi(ValueText(v) + left) == if v.Num? then v.n else 0
  {
    if v.Num? {
      DecimalParses(v.n, left);
    } else {
      assert (ValueText(v) + left)[0] == ValueText(v)[0];
      AtoiOfOther(ValueText(v) + left);
    }
  }

  // The same from where find_key points.
  lemma IntFromFound(found: Option<string>, fs: seq<Field>, k: string, default: int)
    requires PointsAt(found, fs, k)
    ensures var j := FirstField(fs, k);
            (match found case None => default case Some(p) => Atoi(p)) ==
              if Shadowed(fs, k) then 0
              else if j == |fs| then default
              else if fs[j].value.Num? then fs[j].value.n else 0
  {
    var j := FirstField(fs, k);
    if Shadowed(fs, k) {
      AtoiOfOther(found.value);
    } else if j < |fs| {
      AtoiAtValue(fs[j].value, Left(fs, j + 1));
    }
  }

  /**
   The integer getter returns the value of the first field with the key, its default when there is
   no such field, and 0 when that field is not a number or an earlier string value equals the key.
   */
  lemma GetIntOfObject(fs: seq<Field>, k: string, default: int)
    requires WellFormed(fs) && Searchable(k)
    ensures var j := FirstField(fs, k);
            GetInt(Object(fs), k, default) ==
              if Shadowed(fs, k) then 0
              else if j == |fs| then default
              else if fs[j].value.Num? then fs[j].value.n else 0
  {
    FindKeyCases(fs, k);
    IntFromFound(FindKey(Object(fs), k), fs, k, default);
  }

  lemma BoolPrefix(b: bool, left: string)
    ensures var p := ValueText(Bool(b)) + left; ("true" <= p <==> b) && ("false" <= p <==> !b)
  {
    var p := ValueText(Bool(b)) + left;
    assert p[0] == if b then 't' else 'f';
  }

  lemma BoolAtOther(p: string, default: bool)
    requires p != [] && p[0] != 't' && p[0] != 'f'
    ensures BoolAt(p, default) == default
  {
  }

  lemma BoolAtValue(v: Value, left: string, default: bool)
    ensures BoolAt(ValueText(v) + left, default) == if v.Bool? then v.b else default
  {
    if v.Bool? {
      BoolPrefix(v.b, left);
    } else {
      ValueStarts(v, left);
      BoolAtOther(ValueText(v) + left, default);
    }
  }

  lemma BoolFromFound(found: Option<string>, fs: seq<Field>, k: string, default: bool)
    requires PointsAt(found, fs, k)
    ensures var j := FirstField(fs, k);
            (match found case None => default case Some(p) => BoolAt(p, default)) ==
              if j < |fs| && fs[j].value.Bool? && !Shadowed(fs, k) then fs[j].value.b else default
  {
    var j := FirstField(fs, k);
    if Shadowed(fs, k) {
      BoolAtOther(found.value, default);
    } else if j < |fs| {
      BoolAtValue(fs[j].value, Left(fs, j + 1), default);
    }
  }

  /** The boolean getter likewise: its default unless the first field with the key holds a boolean unshadowed. */
  lemma GetBoolOfObject(fs: seq<Field>, k: string, default: bool)
    requires WellFormed(fs) && Searchable(k)
    ensures var j := FirstField(fs, k);
            GetBool(Object(fs), k, default) ==
              if j < |fs| && fs[j].value.Bool? && !Shadowed(fs, k) then fs[j].value.b else default
  {
    FindKeyCases(fs, k);
    BoolFromFound(FindKey(Object(fs), k), fs, k, default);
  }

  /** The condition is needed: a string value that spells a later key hides that field. */
  lemma ShadowHides(default: int)
    ensures var fs := [Field("mode", Str("level")), Field("level", Num(7))];
            WellFormed(fs) && Searchable("level") && GetInt(Object(fs), "level", default) == 0
  {
    var fs := [Field("mode", Str("level")), Field("level", Num(7))];
    assert fs[0].key != "level" && fs[0].value == Str("level");
    assert FirstField(fs, "level") == 1 + FirstField(fs[1..], "level");
    assert Shadowed(fs, "level");
    GetIntOfObject(fs, "level", default);
  }
}
