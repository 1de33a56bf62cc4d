/**
 The form that `services/bb-webd.c` takes for a GPIO line: pairs between ampersands, read by one
 pass over the body.
 */
module GpioForm {
  import opened Options
  import opened Json

  datatype Form = Form(chip: int, lineNo: int, value: int)

  const UNSET := Form(-1, -1, -1)

  // What an int holds after an addition or a multiplication that wraps around.
  function Wrap(n: int): Int32 {
    (n + 0x8000_0000) % 0x1_0000_0000 - 0x8000_0000
  }

  // atoi_len: the leading digits, accumulated in an int
  function IntFrom(s: string, v: Int32): Int32
    decreases |s|
  {
    if s != [] && IsDigit(s[0]) then IntFrom(s[1..], Wrap(v * 10 + (s[0] - '0') as int)) else v
  }

  // memchr, or the end
  function Upto(s: string, c: char): (n: nat)
    ensures n <= |s| && c !in s[..n] && (n < |s| ==> s[n] == c)
  {
    if s == [] || s[0] == c then 0
    else
      assert s[..1 + Upto(s[1..], c)] == [s[0]] + s[1..][..Upto(s[1..], c)];
      1 + Upto(s[1..], c)
  }

  function Assign(f: Form, key: string, val: string): Form {
    var n := IntFrom(val, 0);
    if key == "chip" then f.(chip := n)
    else if key == "line" then f.(lineNo := n)
    else if key == "value" then f.(value := n)
    else f
  }

  function Take(f: Form, piece: string): Form {
    var eq := Upto(piece, '=');
    if eq == |piece| then f else Assign(f, piece[..eq], piece[eq + 1..])
  }

  function Scan(body: string, f: Form): Form
    decreases |body|
  {
    if body == [] then f
    else
      var amp := Upto(body, '&');
      Scan(if amp == |body| then [] else body[amp + 1..], Take(f, body[..amp]))
  }

  // ---- Pairs ----

  datatype Pair = Pair(key: string, val: string)

  predicate Sound(p: Pair) {
    '=' !in p.key && '&' !in p.key && '&' !in p.val
  }

  function PairText(p: Pair): string {
    p.key + ("=" + p.val)
  }

  function Body(ps: seq<Pair>): string {
    if ps == [] then []
    else PairText(ps[0]) + if |ps| == 1 then [] else "&" + Body(ps[1..])
  }

  // What the pairs say for a key: the last one wins.
  function LastOf(ps: seq<Pair>, key: string): Option<string>
    decreases |ps|
  {
    if ps == [] then None
    else if ps[|ps| - 1].key == key then Some(ps[|ps| - 1].val)
    else LastOf(ps[..|ps| - 1], key)
  }

  function NumberOf(ps: seq<Pair>, key: string, unset: int): int {
    match LastOf(ps, key)
    case None => unset
    case Some(val) => IntFrom(val, 0)
  }

  function AssignAll(f: Form, ps: seq<Pair>): Form
    decreases |ps|
  {
    if ps == [] then f else AssignAll(Assign(f, ps[0].key, ps[0].val), ps[1..])
  }

  lemma {:induction false} UptoIs(a: string, c: char, b: string)
    requires c !in a && (b == [] || b[0] == c)
    ensures Upto(a + b, c) == |a|
    decreases |a|
  {
    if a == [] {
      assert a + b == b;
    } else {
      assert (a + b)[0] == a[0] && (a + b)[1..] == a[1..] + b;
      UptoIs(a[1..], c, b);
    }
  }

  lemma TakePair(f: Form, p: Pair)
    requires Sound(p)
    ensures Take(f, PairText(p)) == Assign(f, p.key, p.val)
  {
    var t := PairText(p);
    UptoIs(p.key, '=', "=" + p.val);
    assert t[..|p.key|] == p.key && t[|p.key| + 1..] == p.val;
  }

  lemma ScanFirst(piece: string, rest: string, f: Form)
    requires '&' !in piece && piece != []
    ensures Scan(piece + ("&" + rest), f) == Scan(rest, Take(f, piece))
    ensures Scan(piece, f) == Take(f, piece)
  {
    var t := piece + ("&" + rest);
    UptoIs(piece, '&', "&" + rest);
    assert t[..|piece|] == piece && t[|piece| + 1..] == rest;
    UptoIs(piece, '&', "");
    assert piece + "" == piece && piece[..|piece|] == piece;
  }

  lemma {:induction false} ScanBody(ps: seq<Pair>, f: Form)
    requires forall i :: 0 <= i < |ps| ==> Sound(ps[i])
    ensures Scan(Body(ps), f) == AssignAll(f, ps)
    decreases |ps|
  {
    if ps != [] {
      var piece := PairText(ps[0]);
      TakePair(f, ps[0]);
      ScanFirst(piece, Body(ps[1..]), f);
      if |ps| == 1 {
        assert piece + [] == piece;
        assert ps[1..] == [];
      } else {
        ScanBody(ps[1..], Assign(f, ps[0].key, ps[0].val));
      }
    }
  }

  lemma {:induction false} AssignAllSnoc(f: Form, ps: seq<Pair>, p: Pair)
    ensures AssignAll(f, ps + [p]) == Assign(AssignAll(f, ps), p.key, p.val)
    decreases |ps|
  {
    if ps == [] {
      assert (ps + [p])[1..] == [];
    } else {
      assert (ps + [p])[1..] == ps[1..] + [p];
      AssignAllSnoc(Assign(f, ps[0].key, ps[0].val), ps[1..], p);
    }
  }

  function Numbers(ps: seq<Pair>): Form {
    Form(NumberOf(ps, "chip", -1), NumberOf(ps, "line", -1), NumberOf(ps, "value", -1))
  }

  lemma {:induction false} LastWins(ps: seq<Pair>)
    ensures AssignAll(UNSET, ps) == Numbers(ps)
    decreases |ps|
  {
    if ps != [] {
      var before, last := ps[..|ps| - 1], ps[|ps| - 1];
      assert ps == before + [last];
      AssignAllSnoc(UNSET, before, last);
      LastWins(before);
    }
  }

  /**
   Any pairs written with an equals sign and joined by ampersands are read back, whatever their
   order and whatever other keys there are: each number is that of the key's last pair, or unset.
   */
  lemma FormReadsBack(ps: seq<Pair>)
    requires forall i :: 0 <= i < |ps| ==> Sound(ps[i])
    ensures Scan(Body(ps), UNSET) == Numbers(ps)
  {
    ScanBody(ps, UNSET);
    LastWins(ps);
  }

  // ---- The loops ----

  method AtoiLen(s: string, len: nat) returns (v: Int32)
    requires len <= |s|
    ensures v == IntFrom(s[..len], 0)
  {
    v := 0;
    var i := 0;
    while i < len && '0' <= s[i] <= '9'
      invariant 0 <= i <= len
      invariant IntFrom(s[i..len], v) == IntFrom(s[..len], 0)
    {
      IntStep(s[i..len], s[i + 1..len], v);
      v := Wrap(v * 10 + (s[i] - '0') as int);
      i := i + 1;
    }
  }

  lemma IntStep(s: string, rest: string, v: Int32)
    requires s != [] && s[1..] == rest && IsDigit(s[0])
    ensures IntFrom(s, v) == IntFrom(rest, Wrap(v * 10 + (s[0] - '0') as int))
  {
  }

  datatype Verdict = MissingLine | BadValue | Command(chip: nat, lineNo: nat, value: nat)

  // The body of the loop for one piece
  method TakePiece(f: Form, piece: string) returns (g: Form)
    ensures g == Take(f, piece)
  {
    g := f;
    var eq := Upto(piece, '=');
    if eq < |piece| {
      var key, val := piece[..eq], piece[eq + 1..];
      var n := AtoiLen(val, |val|);
      assert val[..|val|] == val;
      if key == "chip" {
        g := f.(chip := n);
      } else if key == "line" {
        g := f.(lineNo := n);
      } else if key == "value" {
        g := f.(value := n);
      }
    }
  }

  lemma ScanStep(p: string, f: Form)
    requires p != []
    ensures var amp := Upto(p, '&');
            Scan(p, f) == Scan(if amp == |p| then [] else p[amp + 1..], Take(f, p[..amp]))
  {
  }

  // handle_control_gpio, up to the command it runs
  method ControlGpio(body: string) returns (r: Verdict)
    ensures var f := Scan(body, UNSET);
            r == if f.chip < 0 || f.lineNo < 0 then MissingLine
                 else if f.value != 0 && f.value != 1 then BadValue
                 else Command(f.chip, f.lineNo, f.value)
  {
    var f := UNSET;
    var p := body;
    while p != []
      invariant Scan(p, f) == Scan(body, UNSET)
      decreases |p|
    {
      ScanStep(p, f);
      var amp := Upto(p, '&');
      f := TakePiece(f, p[..amp]);
      p := if amp == |p| then [] else p[amp + 1..];
    }
    if f.chip < 0 || f.lineNo < 0 {
      return MissingLine;
    }
    if f.value != 0 && f.value != 1 {
      return BadValue;
    }
    r := Command(f.chip, f.lineNo, f.value);
  }

  lemma {:induction false} Grows(s: string, v: nat)
    ensures v <= LeadingDigits(s, v)
    decreases |s|
  {
    if s != [] && IsDigit(s[0]) {
      Grows(s[1..], v * 10 + (s[0] - '0') as nat);
    }
  }

  lemma WrapNothing(n: int)
    requires -0x8000_0000 <= n < 0x8000_0000
    ensures Wrap(n) == n
  {
  }

  lemma {:induction false} NoOverflow(s: string, v: Int32)
    requires v >= 0 && LeadingDigits(s, v) < 0x8000_0000
    ensures IntFrom(s, v) == LeadingDigits(s, v)
    decreases |s|
  {
    if s != [] && IsDigit(s[0]) {
      var w := v * 10 + (s[0] - '0') as nat;
      Grows(s[1..], w);
      WrapNothing(w);
      NoOverflow(s[1..], w);
    }
  }

  /** A decimal number is read as itself exactly when an int can hold it. */
  lemma NumberBack(n: nat)
    ensures IntFrom(Digits(n), 0) == n <==> n < 0x8000_0000
  {
    DigitsParse(n, "");
    assert Digits(n) + "" == Digits(n);
    if n < 0x8000_0000 {
      NoOverflow(Digits(n), 0);
    }
  }

  lemma WrapAgain(a: int, b: int, d: int)
    requires (a - b) % 0x1_0000_0000 == 0
    ensures (Wrap(a * 10 + d) - (b * 10 + d)) % 0x1_0000_0000 == 0
  {
    var q := (a - b) / 0x1_0000_0000;
    assert a - b == 0x1_0000_0000 * q;
    var n := a * 10 + d;
    assert Wrap(n) - n == -(0x1_0000_0000 * ((n + 0x8000_0000) / 0x1_0000_0000));
    assert Wrap(n) - (b * 10 + d) == 0x1_0000_0000 * (10 * q - (n + 0x8000_0000) / 0x1_0000_0000);
  }

  lemma {:induction false} WrapsAround(s: string, v: Int32, w: nat)
    requires (v - w) % 0x1_0000_0000 == 0
    ensures (IntFrom(s, v) - LeadingDigits(s, w)) % 0x1_0000_0000 == 0
    decreases |s|
  {
    if s != [] && IsDigit(s[0]) {
      var d := (s[0] - '0') as int;
      WrapAgain(v, w, d);
      WrapsAround(s[1..], Wrap(v * 10 + d), w * 10 + d);
    }
  }

  /** Any number is read as an int that differs from it by a multiple of 2^32. */
  lemma NumberWraps(n: nat)
    ensures (IntFrom(Digits(n), 0) - n) % 0x1_0000_0000 == 0
  {
    DigitsParse(n, "");
    assert Digits(n) + "" == Digits(n);
    WrapsAround(Digits(n), 0, 0);
  }

  function ThreePairs(chip: nat, lineNo: nat, value: nat): seq<Pair> {
    [Pair("chip", Digits(chip)), Pair("line", Digits(lineNo)), Pair("value", Digits(value))]
  }

  lemma SoundDigits(key: string, n: nat)
    requires '=' !in key && '&' !in key
    ensures Sound(Pair(key, Digits(n)))
  {
  }

  lemma ThreeNumbers(chip: nat, lineNo: nat, value: nat)
    ensures Numbers(ThreePairs(chip, lineNo, value)) == Form(IntFrom(Digits(chip), 0), IntFrom(Digits(lineNo), 0), IntFrom(Digits(value), 0))
  {
    var ps := ThreePairs(chip, lineNo, value);
    assert ps[..2] == [ps[0], ps[1]] && ps[..2][..1] == [ps[0]];
    assert LastOf(ps, "value") == Some(Digits(value));
    assert LastOf(ps, "line") == LastOf(ps[..2], "line") == Some(Digits(lineNo));
    assert LastOf(ps, "chip") == LastOf(ps[..2], "chip") == LastOf([ps[0]], "chip") == Some(Digits(chip));
  }

  /** A form that names a chip, a line and a level of 0 or 1 is taken as written exactly when both numbers fit an int. */
  lemma WellFormedForm(chip: nat, lineNo: nat, value: nat)
    requires value < 2
    ensures Scan(Body(ThreePairs(chip, lineNo, value)), UNSET) == Form(chip, lineNo, value) <==>
              chip < 0x8000_0000 && lineNo < 0x8000_0000
  {
    SoundDigits("chip", chip);
    SoundDigits("line", lineNo);
    SoundDigits("value", value);
    FormReadsBack(ThreePairs(chip, lineNo, value));
    ThreeNumbers(chip, lineNo, value);
    NumberBack(chip);
    NumberBack(lineNo);
    NumberBack(value);
  }
}
