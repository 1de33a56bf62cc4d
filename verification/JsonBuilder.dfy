/**
 The one-flag JSON builder of `services/bb-webd.c`: what its calls emit, against a builder that
 keeps a flag for every nesting level, and against the text of a tree of values.
 */
module JsonBuilder {

  // One call on the builder: jw_comma, jw_obj_start or jw_arr_start, their ends, jw_raw.
  datatype Op = Comma | Open(arr: bool) | Close(arr: bool) | Put(s: string)

  datatype State = State(text: string, first: bool)

  // jw_raw: a piece that does not fit is left out.
  function Raw(cap: nat, j: State, s: string): State {
    if |j.text| + |s| < cap then j.(text := j.text + s) else j
  }

  function Begin(arr: bool): string {
    if arr then "[" else "{"
  }

  function End(arr: bool): string {
    if arr then "]" else "}"
  }

  function Apply(cap: nat, j: State, op: Op): State {
    match op
    case Comma => (if j.first then j else Raw(cap, j, ",")).(first := false)
    case Open(arr) => Raw(cap, j, Begin(arr)).(first := true)
    case Close(arr) => Raw(cap, j, End(arr)).(first := false)
    case Put(s) => Raw(cap, j, s)
  }

  function Run(cap: nat, j: State, ops: seq<Op>): State
    decreases |ops|
  {
    if ops == [] then j else Run(cap, Apply(cap, j, ops[0]), ops[1..])
  }

  // ---- The text, when it all fits ----

  // What one call appends under the flag, and the flag behind it.
  function Piece(op: Op, first: bool): string {
    match op
    case Comma => if first then "" else ","
    case Open(arr) => Begin(arr)
    case Close(arr) => End(arr)
    case Put(s) => s
  }

  function Flag(op: Op, first: bool): bool {
    if op.Put? then first else op.Open?
  }

  function Emit(ops: seq<Op>, first: bool): string
    decreases |ops|
  {
    if ops == [] then "" else Piece(ops[0], first) + Emit(ops[1..], Flag(ops[0], first))
  }

  /** While the whole text fits the buffer, nothing is left out. */
  lemma {:induction false} RunEmits(cap: nat, j: State, ops: seq<Op>)
    requires |j.text| + |Emit(ops, j.first)| < cap
    ensures Run(cap, j, ops).text == j.text + Emit(ops, j.first)
    decreases |ops|
  {
    if ops == [] {
      assert j.text + Emit(ops, j.first) == j.text;
    } else {
      var k := Apply(cap, j, ops[0]);
      assert k == State(j.text + Piece(ops[0], j.first), Flag(ops[0], j.first));
      RunEmits(cap, k, ops[1..]);
      assert k.text + Emit(ops[1..], k.first) == j.text + (Piece(ops[0], j.first) + Emit(ops[1..], k.first));
    }
  }

  // ---- A flag for every level ----

  function Top(flags: seq<bool>): bool
    requires flags != []
  {
    flags[|flags| - 1]
  }

  function Below(flags: seq<bool>): seq<bool>
    requires flags != []
  {
    flags[..|flags| - 1]
  }

  // No call closes a level that these calls did not open, `depth` levels being open already.
  predicate Balanced(ops: seq<Op>, depth: nat)
    decreases |ops|
  {
    ops == [] ||
    match ops[0]
    case Open(_) => Balanced(ops[1..], depth + 1)
    case Close(_) => depth > 0 && Balanced(ops[1..], depth - 1)
    case _ => Balanced(ops[1..], depth)
  }

  // jw_comma directly before every nested start.
  predicate Announced(ops: seq<Op>, afterComma: bool)
    decreases |ops|
  {
    ops == [] || ((ops[0].Open? ==> afterComma) && Announced(ops[1..], ops[0].Comma?))
  }

  // The reference: each level remembers for itself whether it is still empty.
  function StackEmit(ops: seq<Op>, flags: seq<bool>): string
    requires flags != [] && Balanced(ops, |flags| - 1)
    decreases |ops|
  {
    if ops == [] then ""
    else
      match ops[0]
      case Comma => (if Top(flags) then "" else ",") + StackEmit(ops[1..], Below(flags) + [false])
      case Open(arr) => Begin(arr) + StackEmit(ops[1..], flags + [true])
      case Close(arr) => End(arr) + StackEmit(ops[1..], Below(flags))
      case Put(s) => s + StackEmit(ops[1..], flags)
  }

  /**
   The single flag emits the same text as a flag for every level, for all calls that announce each
   nested element with a comma: every enclosing level then has its flag down already.
   */
  lemma {:induction false} OneFlagIsAStack(ops: seq<Op>, flags: seq<bool>, afterComma: bool)
    requires flags != [] && Balanced(ops, |flags| - 1) && Announced(ops, afterComma)
    requires forall i :: 0 <= i < |flags| - 1 ==> !flags[i]
    requires afterComma ==> !Top(flags)
    ensures Emit(ops, Top(flags)) == StackEmit(ops, flags)
    decreases |ops|
  {
    if ops != [] {
      match ops[0]
      case Comma => OneFlagIsAStack(ops[1..], Below(flags) + [false], true);
      case Open(_) => OneFlagIsAStack(ops[1..], flags + [true], false);
      case Close(_) => OneFlagIsAStack(ops[1..], Below(flags), false);
      case Put(_) => OneFlagIsAStack(ops[1..], flags, false);
    }
  }

  // What has happened on an open level: nothing yet, a nested start without a comma, or a comma.
  datatype Level = Fresh | Nested | Started

  // No jw_comma comes to a level whose only elements so far are unannounced nested ones.
  predicate Ordered(ops: seq<Op>, levels: seq<Level>)
    requires levels != [] && Balanced(ops, |levels| - 1)
    decreases |ops|
  {
    ops == [] ||
    var last := levels[|levels| - 1];
    match ops[0]
    case Comma => !last.Nested? && Ordered(ops[1..], levels[|levels| - 1 := Started])
    case Open(_) => Ordered(ops[1..], Entered(levels))
    case Close(_) => Ordered(ops[1..], levels[..|levels| - 1])
    case Put(_) => Ordered(ops[1..], levels)
  }

  // The level after a nested element without a comma.
  function Marked(levels: seq<Level>): seq<Level>
    requires levels != []
  {
    levels[|levels| - 1 := if levels[|levels| - 1].Fresh? then Nested else levels[|levels| - 1]]
  }

  function Entered(levels: seq<Level>): seq<Level>
    requires levels != []
  {
    Marked(levels) + [Fresh]
  }

  // The flag a level keeps for itself.
  function Flags(levels: seq<Level>): (flags: seq<bool>)
    ensures |flags| == |levels| && forall i :: 0 <= i < |flags| ==> flags[i] == !levels[i].Started?
  {
    seq(|levels|, i requires 0 <= i < |levels| => !levels[i].Started?)
  }

  lemma FlagsMove(levels: seq<Level>)
    requires levels != []
    ensures Below(Flags(levels)) + [false] == Flags(levels[|levels| - 1 := Started])
    ensures Flags(levels) + [true] == Flags(Entered(levels))
    ensures Below(Flags(levels)) == Flags(levels[..|levels| - 1])
  {
  }

  // Both texts, piece by piece; only a comma on a Nested level tells them apart.
  lemma {:induction false} FlagAgainstStack(ops: seq<Op>, levels: seq<Level>)
    requires levels != [] && Balanced(ops, |levels| - 1)
    requires forall i :: 0 <= i < |levels| - 1 ==> !levels[i].Fresh?
    ensures var emitted, expected := Emit(ops, levels[|levels| - 1].Fresh?), StackEmit(ops, Flags(levels));
            if Ordered(ops, levels) then emitted == expected else |emitted| > |expected|
    decreases |ops|
  {
    if ops != [] {
      FlagsMove(levels);
      match ops[0]
      case Comma => FlagAgainstStack(ops[1..], levels[|levels| - 1 := Started]);
      case Open(_) => FlagAgainstStack(ops[1..], Entered(levels));
      case Close(_) => FlagAgainstStack(ops[1..], levels[..|levels| - 1]);
      case Put(_) => FlagAgainstStack(ops[1..], levels);
    }
  }

  /**
   Exactly when the two builders agree, for all calls: no comma may come to a level that has had
   nested elements but no comma yet. Then the enclosing level does not know it has an element, while the single flag does.
   */
  lemma FlagExact(ops: seq<Op>)
    requires Balanced(ops, 0)
    ensures Emit(ops, true) == StackEmit(ops, [true]) <==> Ordered(ops, [Fresh])
  {
    assert Flags([Fresh]) == [true];
    FlagAgainstStack(ops, [Fresh]);
  }

  // FlagExact at an input that is not ordered: a comma behind a nested element that none announced.
  lemma FlagExactWitness()
    ensures var ops := [Open(false), Close(false), Comma];
            Balanced(ops, 0) && !Ordered(ops, [Fresh]) && Emit(ops, true) == "{}," && StackEmit(ops, [true]) == "{}"
  {
    var ops := [Open(false), Close(false), Comma];
    assert ops[1..] == [Close(false), Comma] && ops[1..][1..] == [Comma] && [Comma][1..] == [];
    assert [true] + [true] == [true, true] && Below([true, true]) == [true];
    assert Emit([Comma], false) == ",";
    assert Emit(ops[1..], true) == "},";
    assert StackEmit([Comma], [true]) == "";
    assert StackEmit(ops[1..], [true, true]) == "}";
  }

  // ---- Trees ----

  // A key with its value or a bare value, in the pieces it is written in; or a nested container.
  datatype Node = Leaf(pieces: seq<string>) | Tree(arr: bool, kids: seq<Node>)

  function Concat(pieces: seq<string>): string {
    if pieces == [] then "" else pieces[0] + Concat(pieces[1..])
  }

  // The members of an object or array, a comma between any two and nowhere else.
  function Joined(kids: seq<Node>): string {
    if kids == [] then ""
    else if |kids| == 1 then Rendered(kids[0])
    else Rendered(kids[0]) + ("," + Joined(kids[1..]))
  }

  function Rendered(n: Node): string {
    match n
    case Leaf(pieces) => Concat(pieces)
    case Tree(arr, kids) => Begin(arr) + (Joined(kids) + End(arr))
  }

  function Puts(pieces: seq<string>): seq<Op> {
    if pieces == [] then [] else [Put(pieces[0])] + Puts(pieces[1..])
  }

  // The calls that write a value, without its comma.
  function Writes(n: Node): seq<Op> {
    match n
    case Leaf(pieces) => Puts(pieces)
    case Tree(arr, kids) => [Open(arr)] + (CallsAll(kids) + [Close(arr)])
  }

  function CallsAll(kids: seq<Node>): seq<Op> {
    if kids == [] then [] else [Comma] + (Writes(kids[0]) + CallsAll(kids[1..]))
  }

  lemma EmitFirst(op: Op, ops: seq<Op>, first: bool)
    ensures Emit([op] + ops, first) == Piece(op, first) + Emit(ops, Flag(op, first))
  {
    assert ([op] + ops)[1..] == ops;
  }

  lemma {:induction false} PutsEmit(pieces: seq<string>, first: bool, rest: seq<Op>)
    ensures Emit(Puts(pieces) + rest, first) == Concat(pieces) + Emit(rest, first)
    decreases |pieces|
  {
    if pieces == [] {
      assert Puts(pieces) + rest == rest;
    } else {
      assert Puts(pieces) + rest == [Put(pieces[0])] + (Puts(pieces[1..]) + rest);
      EmitFirst(Put(pieces[0]), Puts(pieces[1..]) + rest, first);
      PutsEmit(pieces[1..], first, rest);
    }
  }

  // What the calls for the members emit behind an opening bracket or behind other members.
  function Members(kids: seq<Node>, first: bool): string {
    if kids == [] || first then Joined(kids) else "," + Joined(kids)
  }

  lemma MembersSplit(kids: seq<Node>, first: bool)
    requires kids != []
    ensures Members(kids, first) == Piece(Comma, first) + (Rendered(kids[0]) + Members(kids[1..], false))
  {
    var head := Rendered(kids[0]);
    if |kids| == 1 {
      assert Members(kids[1..], false) == "";
      assert head + "" == head;
    }
    assert first ==> "" + Joined(kids) == Joined(kids);
  }

  lemma Regroup(a: string, b: string, c: string, d: string)
    ensures a + (b + (c + d)) == a + (b + c) + d
  {
  }

  lemma {:induction false} NodeEmits(n: Node, rest: seq<Op>)
    ensures Emit(Writes(n) + rest, false) == Rendered(n) + Emit(rest, false)
    decreases n, 0
  {
    match n
    case Leaf(pieces) => PutsEmit(pieces, false, rest);
    case Tree(arr, kids) =>
      var close := [Close(arr)] + rest;
      assert Writes(n) + rest == [Open(arr)] + (CallsAll(kids) + close);
      EmitFirst(Open(arr), CallsAll(kids) + close, false);
      KidsEmit(kids, true, close);
      EmitFirst(Close(arr), rest, kids == []);
      Regroup(Begin(arr), Joined(kids), End(arr), Emit(rest, false));
  }

  lemma {:induction false} KidsEmit(kids: seq<Node>, first: bool, rest: seq<Op>)
    ensures Emit(CallsAll(kids) + rest, first) == Members(kids, first) + Emit(rest, first && kids == [])
    decreases kids, 1
  {
    if kids == [] {
      assert CallsAll(kids) + rest == rest;
    } else {
      var more := CallsAll(kids[1..]) + rest;
      assert CallsAll(kids) + rest == [Comma] + (Writes(kids[0]) + more);
      EmitFirst(Comma, Writes(kids[0]) + more, first);
      NodeEmits(kids[0], more);
      KidsEmit(kids[1..], false, rest);
      MembersSplit(kids, first);
      Regroup(Piece(Comma, first), Rendered(kids[0]), Members(kids[1..], false), Emit(rest, false));
    }
  }

  /**
   A document's calls leave its rendering: no comma missing, doubled or trailing at any depth, between
   square brackets for an array and braces for an object (sections 4 and 5 of RFC 8259).
   */
  lemma DocumentRendered(cap: nat, n: Node)
    requires n.Tree? && |Rendered(n)| < cap
    ensures Run(cap, State("", true), Writes(n)).text == Rendered(n)
    ensures Rendered(n) == if n.arr then "[" + (Joined(n.kids) + "]") else "{" + (Joined(n.kids) + "}")
  {
    NodeEmits(n, []);
    assert Writes(n) + [] == Writes(n);
    EmitRoot(n);
    RunEmits(cap, State("", true), Writes(n));
  }

  lemma EmitRoot(n: Node)
    requires n.Tree?
    ensures Emit(Writes(n), true) == Emit(Writes(n), false)
  {
    EmitFirst(Open(n.arr), CallsAll(n.kids) + [Close(n.arr)], true);
    EmitFirst(Open(n.arr), CallsAll(n.kids) + [Close(n.arr)], false);
  }

  // ---- Nested elements that nobody announces ----

  // The calls of handle_api_partitions: objects started inside an object, with no comma before any.
  function Unannounced(objs: seq<Node>): seq<Op> {
    if objs == [] then [] else Writes(objs[0]) + Unannounced(objs[1..])
  }

  function AllRendered(objs: seq<Node>): string {
    if objs == [] then "" else Rendered(objs[0]) + AllRendered(objs[1..])
  }

  lemma {:induction false} UnannouncedEmits(objs: seq<Node>, first: bool, rest: seq<Op>)
    requires forall i :: 0 <= i < |objs| ==> objs[i].Tree?
    ensures Emit(Unannounced(objs) + rest, first) == AllRendered(objs) + Emit(rest, first && objs == [])
    decreases |objs|
  {
    if objs == [] {
      assert Unannounced(objs) + rest == rest;
    } else {
      var n, more := objs[0], Unannounced(objs[1..]) + rest;
      assert Unannounced(objs) + rest == Writes(n) + more;
      TreeIgnoresFlag(n, more, first);
      NodeEmits(n, more);
      UnannouncedEmits(objs[1..], false, rest);
      assert Rendered(n) + (AllRendered(objs[1..]) + Emit(rest, false)) == AllRendered(objs) + Emit(rest, false);
    }
  }

  // A start does not look at the flag.
  lemma TreeIgnoresFlag(n: Node, rest: seq<Op>, first: bool)
    requires n.Tree?
    ensures Emit(Writes(n) + rest, first) == Emit(Writes(n) + rest, false)
  {
    var inner := CallsAll(n.kids) + [Close(n.arr)] + rest;
    assert Writes(n) + rest == [Open(n.arr)] + inner;
    EmitFirst(Open(n.arr), inner, first);
    EmitFirst(Open(n.arr), inner, false);
  }

  lemma {:induction false} JoinedLength(kids: seq<Node>)
    requires kids != []
    ensures |Joined(kids)| == |AllRendered(kids)| + |kids| - 1
    decreases |kids|
  {
    if |kids| == 1 {
      assert kids[1..] == [];
    } else {
      JoinedLength(kids[1..]);
    }
  }

  lemma JoinedAgainstAll(objs: seq<Node>)
    ensures Joined(objs) == AllRendered(objs) <==> |objs| <= 1
  {
    if |objs| == 1 {
      assert objs[1..] == [];
      assert Rendered(objs[0]) + "" == Rendered(objs[0]);
    } else if objs != [] {
      JoinedLength(objs);
    }
  }

  lemma UnannouncedWhole(objs: seq<Node>)
    requires forall i :: 0 <= i < |objs| ==> objs[i].Tree?
    ensures Emit([Open(false)] + (Unannounced(objs) + [Close(false)]), true) == "{" + (AllRendered(objs) + "}")
  {
    var close := [Close(false)];
    EmitFirst(Open(false), Unannounced(objs) + close, true);
    UnannouncedEmits(objs, true, close);
    EmitFirst(Close(false), [], true && objs == []);
    assert close + [] == close;
  }

  lemma SameInside(a: string, b: string)
    ensures "{" + (a + "}") == "{" + (b + "}") <==> a == b
  {
    assert ("{" + (a + "}"))[1..|a| + 1] == a;
    assert ("{" + (b + "}"))[1..|b| + 1] == b;
  }

  /**
   Objects started inside an object without a comma come out without one; the text is the
   rendering of the tree exactly when there is at most one of them.
   */
  lemma UnannouncedText(objs: seq<Node>)
    requires forall i :: 0 <= i < |objs| ==> objs[i].Tree?
    ensures var ops := [Open(false)] + (Unannounced(objs) + [Close(false)]);
            && Emit(ops, true) == "{" + (AllRendered(objs) + "}")
            && (Emit(ops, true) == Rendered(Tree(false, objs)) <==> |objs| <= 1)
  {
    UnannouncedWhole(objs);
    JoinedAgainstAll(objs);
    SameInside(AllRendered(objs), Joined(objs));
  }

  // ---- A tree's calls, announced or not, are in order ----

  lemma {:induction false} PutsOrdered(pieces: seq<string>, rest: seq<Op>, levels: seq<Level>)
    requires levels != [] && Balanced(rest, |levels| - 1)
    ensures Balanced(Puts(pieces) + rest, |levels| - 1)
    ensures Ordered(Puts(pieces) + rest, levels) == Ordered(rest, levels)
    decreases |pieces|
  {
    if pieces == [] {
      assert Puts(pieces) + rest == rest;
    } else {
      var more := Puts(pieces[1..]) + rest;
      assert Puts(pieces) + rest == [Put(pieces[0])] + more;
      assert ([Put(pieces[0])] + more)[1..] == more;
      PutsOrdered(pieces[1..], rest, levels);
    }
  }

  lemma {:induction false} TreeOrdered(n: Node, rest: seq<Op>, levels: seq<Level>)
    requires n.Tree? && levels != [] && Balanced(rest, |levels| - 1)
    ensures Balanced(Writes(n) + rest, |levels| - 1)
    ensures Ordered(Writes(n) + rest, levels) == Ordered(rest, Marked(levels))
    decreases n, 0
  {
    var inner, close := Marked(levels) + [Fresh], [Close(n.arr)] + rest;
    assert close[1..] == rest && inner[..|inner| - 1] == Marked(levels);
    KidsOrdered(n.kids, close, inner);
    var body := CallsAll(n.kids) + close;
    assert Writes(n) + rest == [Open(n.arr)] + body;
    assert ([Open(n.arr)] + body)[1..] == body;
    var last := if n.kids == [] then Fresh else Started;
    assert inner[|inner| - 1 := last][..|inner| - 1] == Marked(levels);
  }

  // A value behind a comma leaves the levels alone.
  lemma {:induction false} ValueOrdered(n: Node, rest: seq<Op>, levels: seq<Level>)
    requires levels != [] && levels[|levels| - 1] == Started && Balanced(rest, |levels| - 1)
    ensures Balanced(Writes(n) + rest, |levels| - 1)
    ensures Ordered(Writes(n) + rest, levels) == Ordered(rest, levels)
    decreases n, 1
  {
    if n.Leaf? {
      PutsOrdered(n.pieces, rest, levels);
    } else {
      TreeOrdered(n, rest, levels);
      assert Marked(levels) == levels;
    }
  }

  lemma CommaOrdered(body: seq<Op>, levels: seq<Level>)
    requires levels != [] && !levels[|levels| - 1].Nested? && Balanced(body, |levels| - 1)
    ensures Balanced([Comma] + body, |levels| - 1)
    ensures Ordered([Comma] + body, levels) == Ordered(body, levels[|levels| - 1 := Started])
  {
    assert ([Comma] + body)[1..] == body;
  }

  lemma {:induction false} KidsOrdered(kids: seq<Node>, rest: seq<Op>, levels: seq<Level>)
    requires levels != [] && !levels[|levels| - 1].Nested? && Balanced(rest, |levels| - 1)
    ensures Balanced(CallsAll(kids) + rest, |levels| - 1)
    ensures Ordered(CallsAll(kids) + rest, levels) ==
              Ordered(rest, if kids == [] then levels else levels[|levels| - 1 := Started])
    decreases kids, 2
  {
    if kids == [] {
      assert CallsAll(kids) + rest == rest;
    } else {
      var started := levels[|levels| - 1 := Started];
      var more := CallsAll(kids[1..]) + rest;
      KidsOrdered(kids[1..], rest, started);
      assert started[|started| - 1 := Started] == started;
      ValueOrdered(kids[0], more, started);
      CommaOrdered(Writes(kids[0]) + more, levels);
      assert CallsAll(kids) + rest == [Comma] + (Writes(kids[0]) + more);
    }
  }

  lemma {:induction false} UnannouncedOrdered(objs: seq<Node>, rest: seq<Op>, levels: seq<Level>)
    requires (forall i :: 0 <= i < |objs| ==> objs[i].Tree?) && levels != [] && Balanced(rest, |levels| - 1)
    ensures Balanced(Unannounced(objs) + rest, |levels| - 1)
    ensures Ordered(Unannounced(objs) + rest, levels) == Ordered(rest, if objs == [] then levels else Marked(levels))
    decreases |objs|
  {
    if objs == [] {
      assert Unannounced(objs) + rest == rest;
    } else {
      var more := Unannounced(objs[1..]) + rest;
      assert Unannounced(objs) + rest == Writes(objs[0]) + more;
      UnannouncedOrdered(objs[1..], rest, Marked(levels));
      assert Marked(Marked(levels)) == Marked(levels);
      TreeOrdered(objs[0], more, levels);
    }
  }

  /** A flag for every level does not help those calls: it emits the same text, as nobody asks for a comma. */
  lemma UnannouncedOnStack(objs: seq<Node>)
    requires forall i :: 0 <= i < |objs| ==> objs[i].Tree?
    ensures var ops := [Open(false)] + (Unannounced(objs) + [Close(false)]);
            Balanced(ops, 0) && StackEmit(ops, [true]) == Emit(ops, true)
  {
    var body, close := Unannounced(objs) + [Close(false)], [Close(false)];
    var ops, levels := [Open(false)] + body, [Nested, Fresh];
    assert ops[1..] == body && close[1..] == [] && Entered([Fresh]) == levels;
    UnannouncedOrdered(objs, close, levels);
    FlagExact(ops);
  }
}
