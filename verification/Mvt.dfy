// Vector tile geometries and tags (src/mvt.rs) against a decoder after sections 4.3
// and 4.4 of the Mapbox Vector Tile Specification 2.1.

module Mvt {
  import opened Words

  // ------------------------------------------------------------- 32-bit integers

  predicate IsI32(n: int) { -0x8000_0000 <= n < 0x8000_0000 }

  // What a 32-bit register keeps of a number.
  function WrapI32(n: int): (r: int)
    ensures IsI32(r)
  {
    (n + 0x8000_0000) % 0x1_0000_0000 - 0x8000_0000
  }

  lemma WrapIsClose(n: int)
    ensures (WrapI32(n) - n) % 0x1_0000_0000 == 0
    ensures IsI32(n) ==> WrapI32(n) == n
  {}

  // `zigzag`: doubled, and complemented when negative.
  function Zigzag(n: int): (z: int)
    requires IsI32(n)
    ensures 0 <= z < 0x1_0000_0000
  {
    if n >= 0 then 2 * n else -2 * n - 1
  }

  // Section 4.3.2.
  function Unzigzag(z: int): int
    requires 0 <= z < 0x1_0000_0000
  {
    if z % 2 == 0 then z / 2 else -(z / 2) - 1
  }

  lemma ZigzagInverse(n: int, z: int)
    requires IsI32(n) && 0 <= z < 0x1_0000_0000
    ensures Unzigzag(Zigzag(n)) == n
    ensures IsI32(Unzigzag(z)) && Zigzag(Unzigzag(z)) == z
  {}

  // `command`: the id in three bits, the count in the 29 above.
  function Command(id: nat, count: nat): (c: int)
    ensures 0 <= c < 0x1_0000_0000
  {
    id % 8 + (count * 8) % 0x1_0000_0000
  }

  // Section 4.3.1.
  function CommandId(c: nat): nat { c % 8 }

  function CommandCount(c: nat): nat { c / 8 }

  // A command reads back exactly when its count fits 29 bits.
  lemma CommandReadsBack(id: nat, count: nat)
    requires id < 8
    ensures CommandId(Command(id, count)) == id
    ensures CommandCount(Command(id, count)) == count <==> count < 0x2000_0000
  {
    assert (count * 8) % 0x1_0000_0000 == 8 * (count % 0x2000_0000);
  }

  // ------------------------------------------------------------- points

  datatype Pt = Pt(x: int, y: int)

  const ORIGIN := Pt(0, 0)

  predicate InRange(p: Pt) { IsI32(p.x) && IsI32(p.y) }

  ghost predicate AllInRange(points: seq<Pt>) {
    forall i :: 0 <= i < |points| ==> InRange(points[i])
  }

  function Step(p: Pt, from: Pt): seq<int> {
    [Zigzag(WrapI32(p.x - from.x)), Zigzag(WrapI32(p.y - from.y))]
  }

  function Steps(points: seq<Pt>, from: Pt): seq<int> {
    if points == [] then [] else Step(points[0], from) + Steps(points[1..], points[0])
  }

  function LastOf(points: seq<Pt>, from: Pt): Pt {
    if points == [] then from else points[|points| - 1]
  }

  // A point as a 32-bit cursor reaches it from elsewhere.
  function Moved(p: Pt, off: Pt): Pt {
    Pt(WrapI32(p.x + off.x), WrapI32(p.y + off.y))
  }

  lemma MovedByNothing(p: Pt, c: Pt)
    requires InRange(p) && InRange(c)
    ensures Moved(p, c) == p <==> c == ORIGIN
  {}

  // ------------------------------------------------------------- a decoder

  datatype Op = MoveTo(p: Pt) | LineTo(p: Pt) | ClosePath

  datatype Ops = Malformed | Ops(ops: seq<Op>)

  function Then(ops: seq<Op>, rest: Ops): Ops {
    if rest.Malformed? then Malformed else Ops(ops + rest.ops)
  }

  predicate IsU32(n: int) { 0 <= n < 0x1_0000_0000 }

  function ArgOp(id: nat, p: Pt): Op { if id == 1 then MoveTo(p) else LineTo(p) }

  function Param(cursor: Pt, dx: int, dy: int): Pt
    requires IsU32(dx) && IsU32(dy)
  {
    Moved(cursor, Pt(Unzigzag(dx), Unzigzag(dy)))
  }

  function Decode(s: seq<int>, cursor: Pt): Ops
    decreases |s|, 0
  {
    if s == [] then Ops([])
    else if !IsU32(s[0]) then Malformed
    else
      var id, count := CommandId(s[0]), CommandCount(s[0]);
      if id == 7 && count == 1 then Then([ClosePath], Decode(s[1..], cursor))
      else if (id == 1 || id == 2) && count > 0 then DecodeArgs(s[1..], cursor, id, count)
      else Malformed
  }

  function DecodeArgs(s: seq<int>, cursor: Pt, id: nat, count: nat): Ops
    decreases |s|, 1
  {
    if count == 0 then Decode(s, cursor)
    else if |s| < 2 || !IsU32(s[0]) || !IsU32(s[1]) then Malformed
    else
      var p := Param(cursor, s[0], s[1]);
      Then([ArgOp(id, p)], DecodeArgs(s[2..], p, id, count - 1))
  }

  // One step read back, from any cursor.
  lemma StepReadsBack(p: Pt, from: Pt, off: Pt)
    ensures var s := Step(p, from); |s| == 2 && IsU32(s[0]) && IsU32(s[1]) && Param(Moved(from, off), s[0], s[1]) == Moved(p, off)
  {
    ZigzagInverse(WrapI32(p.x - from.x), 0);
    ZigzagInverse(WrapI32(p.y - from.y), 0);
    WrapSum(p.x, from.x, off.x);
    WrapSum(p.y, from.y, off.y);
  }

  lemma WrapSum(a: int, from: int, off: int)
    ensures WrapI32(WrapI32(from + off) + WrapI32(a - from)) == WrapI32(a + off)
  {
    WrapIsClose(from + off);
    WrapIsClose(a - from);
    WrapIsClose(a + off);
    var k := (WrapI32(from + off) - (from + off)) / 0x1_0000_0000;
    var m := (WrapI32(a - from) - (a - from)) / 0x1_0000_0000;
    assert WrapI32(from + off) + WrapI32(a - from) == a + off + 0x1_0000_0000 * (k + m);
    WrapPeriodic(a + off, k + m);
  }

  lemma WrapPeriodic(n: int, k: int)
    ensures WrapI32(n + 0x1_0000_0000 * k) == WrapI32(n)
  {}

  function ArgOps(id: nat, points: seq<Pt>, off: Pt): seq<Op> {
    seq(|points|, i requires 0 <= i < |points| => ArgOp(id, Moved(points[i], off)))
  }

  lemma ThenJoins(a: seq<Op>, b: seq<Op>, rest: Ops)
    ensures Then(a, Then(b, rest)) == Then(a + b, rest)
  {
    if rest.Ops? { assert a + (b + rest.ops) == (a + b) + rest.ops; }
  }

  lemma DecodeOneArg(p: Pt, from: Pt, off: Pt, id: nat, count: nat, rest: seq<int>)
    requires count > 0
    ensures DecodeArgs(Step(p, from) + rest, Moved(from, off), id, count)
      == Then([ArgOp(id, Moved(p, off))], DecodeArgs(rest, Moved(p, off), id, count - 1))
  {
    StepReadsBack(p, from, off);
    var s := Step(p, from);
    assert (s + rest)[2..] == rest && (s + rest)[0] == s[0] && (s + rest)[1] == s[1];
  }

  lemma {:induction false} DecodeSteps(points: seq<Pt>, from: Pt, off: Pt, id: nat, rest: seq<int>)
    ensures DecodeArgs(Steps(points, from) + rest, Moved(from, off), id, |points|)
      == Then(ArgOps(id, points, off), Decode(rest, Moved(LastOf(points, from), off)))
  {
    if points == [] {
      assert Steps(points, from) + rest == rest;
      ThenNothing(Decode(rest, Moved(from, off)));
    } else {
      hide Decode, DecodeArgs, Moved, Step, Then;
      var p, more := points[0], points[1..];
      assert Steps(points, from) + rest == Step(p, from) + (Steps(more, p) + rest);
      DecodeOneArg(p, from, off, id, |points|, Steps(more, p) + rest);
      DecodeSteps(more, p, off, id, rest);
      ThenJoins([ArgOp(id, Moved(p, off))], ArgOps(id, more, off), Decode(rest, Moved(LastOf(more, p), off)));
      assert [ArgOp(id, Moved(p, off))] + ArgOps(id, more, off) == ArgOps(id, points, off);
    }
  }

  lemma ThenNothing(rest: Ops)
    ensures Then([], rest) == rest
  {
    if rest.Ops? { assert [] + rest.ops == rest.ops; }
  }

  // A command with its points, read from any cursor: the points moved by it.
  lemma DecodeCommand(id: nat, points: seq<Pt>, from: Pt, off: Pt, rest: seq<int>)
    requires (id == 1 || id == 2) && 0 < |points| < 0x2000_0000
    ensures Decode([Command(id, |points|)] + Steps(points, from) + rest, Moved(from, off))
      == Then(ArgOps(id, points, off), Decode(rest, Moved(LastOf(points, from), off)))
  {
    var s := [Command(id, |points|)] + Steps(points, from) + rest;
    CommandReadsBack(id, |points|);
    assert s[1..] == Steps(points, from) + rest;
    DecodeSteps(points, from, off, id, rest);
    hide DecodeArgs, Steps, Command, CommandId, CommandCount, Moved;
  }

  lemma DecodeClosing(c: int, cursor: Pt, rest: seq<int>)
    requires IsU32(c) && CommandId(c) == 7 && CommandCount(c) == 1
    ensures Decode([c] + rest, cursor) == Then([ClosePath], Decode(rest, cursor))
  {
    hide CommandId, CommandCount, DecodeArgs, Then;
    assert ([c] + rest)[1..] == rest;
  }

  lemma DecodeClose(cursor: Pt, rest: seq<int>)
    ensures Decode([Command(7, 1)] + rest, cursor) == Then([ClosePath], Decode(rest, cursor))
  {
    hide Decode, DecodeArgs, Then, Command, CommandId, CommandCount;
    CommandReadsBack(7, 1);
    DecodeClosing(Command(7, 1), cursor, rest);
  }

  // ------------------------------------------------------------- encoding

  // `encode_multi_point`
  function MultiPoint(points: seq<Pt>): seq<int> {
    if points == [] then [] else [Command(1, |points|)] + Steps(points, ORIGIN)
  }

  method EncodeMultiPoint(points: seq<Pt>) returns (cmds: seq<int>)
    ensures cmds == MultiPoint(points)
  {
    if points == [] { return []; }
    cmds := [Command(1, |points|)];
    var prev := ORIGIN;
    var i := 0;
    while i < |points|
      invariant 0 <= i <= |points|
      invariant cmds + Steps(points[i..], prev) == MultiPoint(points)
    {
      ghost var before, from := cmds, prev;
      cmds := cmds + [Zigzag(WrapI32(points[i].x - prev.x)), Zigzag(WrapI32(points[i].y - prev.y))];
      prev := points[i];
      assert points[i..][1..] == points[i + 1..];
      assert before + (Step(points[i], from) + Steps(points[i + 1..], prev)) == cmds + Steps(points[i + 1..], prev);
      i := i + 1;
    }
    assert points[i..] == [];
  }

  // The points a ring or line is drawn through after the first.
  function Through(points: seq<Pt>, close: bool): seq<Pt>
    requires |points| >= 2
  {
    points[1..if close then |points| - 1 else |points|]
  }

  // `encode_ring`: nothing for fewer than two points; closing leaves out the last.
  function Ring(points: seq<Pt>, close: bool): seq<int> {
    if |points| < 2 then []
    else
      var through := Through(points, close);
      [Command(1, 1)] + Step(points[0], ORIGIN)
      + (if through == [] then [] else [Command(2, |through|)] + Steps(through, points[0]))
      + (if close then [Command(7, 1)] else [])
  }

  lemma FirstStep(p: Pt)
    ensures Step(p, ORIGIN) == [Zigzag(WrapI32(p.x)), Zigzag(WrapI32(p.y))]
  {}

  method EncodeRing(points: seq<Pt>, close: bool) returns (cmds: seq<int>)
    ensures cmds == Ring(points, close)
  {
    hide Command, Steps, Zigzag, WrapI32;
    if |points| < 2 { return []; }
    cmds := [Command(1, 1)];
    cmds := cmds + [Zigzag(WrapI32(points[0].x)), Zigzag(WrapI32(points[0].y))];
    FirstStep(points[0]);
    var end := if close then |points| - 1 else |points|;
    var lineToCount := end - 1;
    ghost var start := cmds;
    if lineToCount > 0 {
      cmds := PushLine(cmds, points, end);
    }
    if close { cmds := cmds + [Command(7, 1)]; }
  }

  method PushLine(before: seq<int>, points: seq<Pt>, end: nat) returns (cmds: seq<int>)
    requires 1 < end <= |points|
    ensures cmds == before + ([Command(2, end - 1)] + Steps(points[1..end], points[0]))
  {
    cmds := before + [Command(2, end - 1)];
    ghost var all := before + ([Command(2, end - 1)] + Steps(points[1..end], points[0]));
    assert cmds + Steps(points[1..end], points[0]) == all;
    var prev := points[0];
    var i := 1;
    while i < end
      invariant 1 <= i <= end
      invariant cmds + Steps(points[i..end], prev) == all
    {
      ghost var sofar, from := cmds, prev;
      cmds := cmds + [Zigzag(WrapI32(points[i].x - prev.x)), Zigzag(WrapI32(points[i].y - prev.y))];
      prev := points[i];
      assert points[i..end][1..] == points[i + 1..end];
      assert sofar + (Step(points[i], from) + Steps(points[i + 1..end], prev)) == cmds + Steps(points[i + 1..end], prev);
      i := i + 1;
    }
    assert points[i..end] == [] && cmds + [] == cmds;
  }

  // ------------------------------------------------------------- one part

  function RingOps(points: seq<Pt>, close: bool, off: Pt): seq<Op> {
    if |points| < 2 then []
    else [MoveTo(Moved(points[0], off))] + ArgOps(2, Through(points, close), off) + (if close then [ClosePath] else [])
  }

  // Where the cursor is left.
  function EndOf(points: seq<Pt>, close: bool): Pt
    requires |points| >= 2
  {
    LastOf(Through(points, close), points[0])
  }

  lemma DecodeRest(points: seq<Pt>, from: Pt, off: Pt, close: bool, rest: seq<int>)
    requires |points| < 0x2000_0000
    ensures var s := (if points == [] then [] else [Command(2, |points|)] + Steps(points, from))
        + (if close then [Command(7, 1)] else []) + rest;
      Decode(s, Moved(from, off)) ==
        Then(ArgOps(2, points, off) + (if close then [ClosePath] else []), Decode(rest, Moved(LastOf(points, from), off)))
  {
    hide Decode, DecodeArgs, Moved, Step, Then, Command, Steps;
    var closing := if close then [Command(7, 1)] else [];
    var last := Moved(LastOf(points, from), off);
    if close { DecodeClose(last, rest); } else { assert closing + rest == rest; ThenNothing(Decode(rest, last)); }
    ThenJoins(ArgOps(2, points, off), if close then [ClosePath] else [], Decode(rest, last));
    if points == [] {
      assert [] + closing + rest == closing + rest;
      assert ArgOps(2, points, off) == [];
      ThenNothing(Decode(closing + rest, last));
    } else {
      DecodeCommand(2, points, from, off, closing + rest);
      assert [Command(2, |points|)] + Steps(points, from) + closing + rest
        == [Command(2, |points|)] + Steps(points, from) + (closing + rest);
    }
  }

  // A part's words after its first point.
  function RingTail(points: seq<Pt>, close: bool): seq<int>
    requires |points| >= 2
  {
    var through := Through(points, close);
    (if through == [] then [] else [Command(2, |through|)] + Steps(through, points[0])) + (if close then [Command(7, 1)] else [])
  }

  lemma RingSplits(points: seq<Pt>, close: bool, rest: seq<int>)
    requires |points| >= 2
    ensures Ring(points, close) + rest == [Command(1, |[points[0]]|)] + Steps([points[0]], ORIGIN) + (RingTail(points, close) + rest)
  {
    hide Command, Zigzag, WrapI32, Through, Step, Steps;
    SingleStep(points[0]);
    var through := Through(points, close);
    Regroup([Command(1, 1)] + Step(points[0], ORIGIN),
      if through == [] then [] else [Command(2, |through|)] + Steps(through, points[0]),
      if close then [Command(7, 1)] else [], rest);
  }

  lemma Regroup(a: seq<int>, b: seq<int>, c: seq<int>, d: seq<int>)
    ensures a + b + c + d == a + ((b + c) + d)
  {
  }

  lemma RingOpsSplit(points: seq<Pt>, close: bool, off: Pt)
    requires |points| >= 2
    ensures RingOps(points, close, off) ==
      ArgOps(1, [points[0]], off) + (ArgOps(2, Through(points, close), off) + (if close then [ClosePath] else []))
  {
    hide Moved, Through;
    assert ArgOps(1, [points[0]], off) == [MoveTo(Moved(points[0], off))];
  }

  // A part decodes, from any cursor, to its points moved by that cursor.
  lemma DecodeRing(points: seq<Pt>, close: bool, off: Pt, rest: seq<int>)
    requires 2 <= |points| < 0x2000_0000 && InRange(off)
    ensures Decode(Ring(points, close) + rest, off) == Then(RingOps(points, close, off), Decode(rest, Moved(EndOf(points, close), off)))
  {
    var through := Through(points, close);
    MovedFromOrigin(off);
    assert LastOf([points[0]], ORIGIN) == points[0];
    hide *;
    var tail := RingTail(points, close) + rest;
    RingSplits(points, close, rest);
    DecodeCommand(1, [points[0]], ORIGIN, off, tail);
    DecodeTail(points, close, off, rest);
    RingOpsSplit(points, close, off);
    var ops := ArgOps(2, through, off) + (if close then [ClosePath] else []);
    ThenJoins(ArgOps(1, [points[0]], off), ops, Decode(rest, Moved(EndOf(points, close), off)));
  }

  lemma DecodeTail(points: seq<Pt>, close: bool, off: Pt, rest: seq<int>)
    requires 2 <= |points| < 0x2000_0000
    ensures Decode(RingTail(points, close) + rest, Moved(points[0], off))
      == Then(ArgOps(2, Through(points, close), off) + (if close then [ClosePath] else []), Decode(rest, Moved(EndOf(points, close), off)))
  {
    hide Decode, DecodeArgs, Moved, Step, Then, Command, Steps;
    DecodeRest(Through(points, close), points[0], off, close, rest);
  }

  lemma MovedFromOrigin(off: Pt)
    requires InRange(off)
    ensures Moved(ORIGIN, off) == off
  {}

  lemma SingleStep(p: Pt)
    ensures Steps([p], ORIGIN) == Step(p, ORIGIN)
  {
    assert [p][1..] == [];
  }

  // ------------------------------------------------------------- round trips

  function Points(ops: seq<Op>): seq<Pt> {
    if ops == [] then []
    else if ops[0].ClosePath? then Points(ops[1..])
    else [ops[0].p] + Points(ops[1..])
  }

  lemma {:induction false} PointsOfArgs(id: nat, points: seq<Pt>)
    requires AllInRange(points)
    ensures Points(ArgOps(id, points, ORIGIN)) == points
  {
    if points != [] {
      MovedByNothing(points[0], ORIGIN);
      PointsOfArgs(id, points[1..]);
      assert ArgOps(id, points, ORIGIN)[1..] == ArgOps(id, points[1..], ORIGIN);
    }
  }

  lemma MovesTo(points: seq<Pt>)
    requires AllInRange(points)
    ensures ArgOps(1, points, ORIGIN) == seq(|points|, i requires 0 <= i < |points| => MoveTo(points[i]))
  {
    forall i | 0 <= i < |points| ensures Moved(points[i], ORIGIN) == points[i] { MovedFromOriginTo(points[i]); }
    hide Moved;
  }

  lemma DecodeMultiPoint(points: seq<Pt>)
    requires |points| < 0x2000_0000
    ensures Decode(MultiPoint(points), ORIGIN) == Ops(ArgOps(1, points, ORIGIN))
  {
    hide Decode, Steps, Command, Moved, ArgOps;
    MovedFromOrigin(ORIGIN);
    DecodeNothing(Moved(LastOf(points, ORIGIN), ORIGIN));
    if points != [] {
      DecodeCommand(1, points, ORIGIN, ORIGIN, []);
      assert MultiPoint(points) == [Command(1, |points|)] + Steps(points, ORIGIN) + [];
    } else {
      DecodeNothing(ORIGIN);
      NoArgs(ORIGIN);
    }
  }

  // A list of points decodes to moves to them, one by one.
  lemma MultiPointRoundTrip(points: seq<Pt>)
    requires AllInRange(points) && |points| < 0x2000_0000
    ensures var moves := seq(|points|, i requires 0 <= i < |points| => MoveTo(points[i]));
      Decode(MultiPoint(points), ORIGIN) == Ops(moves) && Points(moves) == points
  {
    hide *;
    DecodeMultiPoint(points);
    PointsOfArgs(1, points);
    MovesTo(points);
  }

  lemma NoArgs(off: Pt)
    ensures ArgOps(1, [], off) == []
  {}

  lemma DecodeNothing(cursor: Pt)
    ensures Decode([], cursor) == Ops([])
  {}

  lemma DecodeOneRing(points: seq<Pt>, close: bool)
    requires 2 <= |points| < 0x2000_0000
    ensures Decode(Ring(points, close), ORIGIN) == Ops(RingOps(points, close, ORIGIN))
  {
    hide Decode, Ring, RingOps, Moved;
    DecodeRing(points, close, ORIGIN, []);
    assert Ring(points, close) + [] == Ring(points, close);
    DecodeNothing(Moved(EndOf(points, close), ORIGIN));
  }

  lemma {:induction false} PointsJoin(a: seq<Op>, b: seq<Op>)
    ensures Points(a + b) == Points(a) + Points(b)
  {
    if a == [] {
      assert a + b == b;
    } else {
      PointsJoin(a[1..], b);
      assert (a + b)[1..] == a[1..] + b && (a + b)[0] == a[0];
    }
  }

  lemma PointsOfRing(points: seq<Pt>, close: bool)
    requires AllInRange(points) && |points| >= 2
    ensures Points(RingOps(points, close, ORIGIN)) == [points[0]] + Through(points, close)
  {
    var through := Through(points, close);
    var first, closing := [MoveTo(Moved(points[0], ORIGIN))], if close then [ClosePath] else [];
    MovedByNothing(points[0], ORIGIN);
    PointsOfArgs(2, through);
    PointsJoin(first + ArgOps(2, through, ORIGIN), closing);
    PointsJoin(first, ArgOps(2, through, ORIGIN));
    assert Points(closing) == [];
    assert first[1..] == [] && Points(first) == [points[0]];
  }

  lemma LinesTo(points: seq<Pt>, n: nat)
    requires AllInRange(points) && 1 <= n <= |points|
    ensures ArgOps(2, points[1..n], ORIGIN) == seq(n - 1, i requires 0 <= i < n - 1 => LineTo(points[i + 1]))
  {
    forall i | 0 <= i < |points| ensures Moved(points[i], ORIGIN) == points[i] { MovedFromOriginTo(points[i]); }
    hide Moved;
  }

  // A ring or line reads as a move to its first point, lines through the others, and the
  // closing.
  lemma RingReadsAs(points: seq<Pt>, close: bool)
    requires AllInRange(points) && 2 <= |points| < 0x2000_0000
    ensures var n := if close then |points| - 1 else |points|;
      var lines := seq(n - 1, i requires 0 <= i < n - 1 => LineTo(points[i + 1]));
      Decode(Ring(points, close), ORIGIN) == Ops([MoveTo(points[0])] + lines + (if close then [ClosePath] else []))
  {
    hide Decode, Ring, Moved, ArgOps;
    DecodeOneRing(points, close);
    MovedFromOriginTo(points[0]);
    var n := if close then |points| - 1 else |points|;
    LinesTo(points, n);
  }

  // A line decodes to its points.
  lemma LineRoundTrip(points: seq<Pt>)
    requires AllInRange(points) && 2 <= |points| < 0x2000_0000
    ensures Decode(Ring(points, false), ORIGIN).Ops? && Points(Decode(Ring(points, false), ORIGIN).ops) == points
  {
    hide Decode, Ring, RingOps, Points;
    DecodeOneRing(points, false);
    PointsOfRing(points, false);
    assert points == [points[0]] + points[1..];
  }

  // The points a ring passes through: its vertices and the first again.
  function Traced(ops: seq<Op>): seq<Pt> {
    var vertices := Points(ops);
    if vertices == [] then [] else vertices + [vertices[0]]
  }

  // A ring traces its points exactly when it was closed to begin with.
  lemma RingRoundTrip(points: seq<Pt>)
    requires AllInRange(points) && 2 <= |points| < 0x2000_0000
    ensures Decode(Ring(points, true), ORIGIN).Ops?
    ensures Traced(Decode(Ring(points, true), ORIGIN).ops) == points <==> points[0] == points[|points| - 1]
  {
    hide Decode, Ring, RingOps, Points;
    DecodeOneRing(points, true);
    PointsOfRing(points, true);
    var vertices := [points[0]] + Through(points, true);
    assert vertices + [points[|points| - 1]] == points;
    assert (vertices + [points[0]])[|points| - 1] == points[0];
  }

  // ------------------------------------------------------------- several parts

  // `encode_multi_linestring`, `encode_polygon`, `encode_multi_polygon`
  function Parts(parts: seq<seq<Pt>>, close: bool): seq<int> {
    if parts == [] then [] else Parts(parts[..|parts| - 1], close) + Ring(parts[|parts| - 1], close)
  }

  method EncodeParts(parts: seq<seq<Pt>>, close: bool) returns (cmds: seq<int>)
    ensures cmds == Parts(parts, close)
  {
    cmds := [];
    var i := 0;
    while i < |parts|
      invariant 0 <= i <= |parts|
      invariant cmds == Parts(parts[..i], close)
    {
      var more := EncodeRing(parts[i], close);
      assert parts[..i + 1][..i] == parts[..i];
      cmds := cmds + more;
      i := i + 1;
    }
    assert parts[..|parts|] == parts;
  }

  lemma {:induction false} PartsHead(parts: seq<seq<Pt>>, close: bool)
    requires parts != []
    ensures Parts(parts, close) == Ring(parts[0], close) + Parts(parts[1..], close)
  {
    hide Ring;
    var before := parts[..|parts| - 1];
    if before == [] {
      assert parts[1..] == [] && Parts([], close) == [];
    } else {
      PartsHead(before, close);
      assert before[1..] == parts[1..][..|parts| - 2];
    }
  }

  // What the parts decode to from a cursor: each one moved by where the cursor is.
  function PartsOps(parts: seq<seq<Pt>>, close: bool, off: Pt): seq<Op> {
    if parts == [] then []
    else if |parts[0]| < 2 then PartsOps(parts[1..], close, off)
    else RingOps(parts[0], close, off) + PartsOps(parts[1..], close, Moved(EndOf(parts[0], close), off))
  }

  ghost predicate Short(parts: seq<seq<Pt>>) {
    forall i :: 0 <= i < |parts| ==> |parts[i]| < 0x2000_0000 && AllInRange(parts[i])
  }

  lemma {:induction false} DecodeParts(parts: seq<seq<Pt>>, close: bool, off: Pt)
    requires Short(parts) && InRange(off)
    ensures Decode(Parts(parts, close), off) == Ops(PartsOps(parts, close, off))
  {
    hide Decode, Ring, RingOps, Moved, Parts, AllInRange;
    if parts == [] {
      assert Parts([], close) == [] by { NoParts(close); }
      DecodeNothing(off);
    } else {
      PartsHead(parts, close);
      var rest := parts[1..];
      if |parts[0]| < 2 {
        ShortRing(parts[0], close);
        assert [] + Parts(rest, close) == Parts(rest, close);
        DecodeParts(rest, close, off);
      } else {
        var next := Moved(EndOf(parts[0], close), off);
        MovedInRange(EndOf(parts[0], close), off);
        DecodeRing(parts[0], close, off, Parts(rest, close));
        DecodeParts(rest, close, next);
      }
    }
  }

  lemma NoParts(close: bool)
    ensures Parts([], close) == []
  {}

  lemma ShortRing(points: seq<Pt>, close: bool)
    requires |points| < 2
    ensures Ring(points, close) == []
  {}

  lemma MovedInRange(p: Pt, off: Pt)
    ensures InRange(Moved(p, off))
  {}

  // What the parts mean: each one by itself.
  function Meant(parts: seq<seq<Pt>>, close: bool): seq<Op> {
    if parts == [] then []
    else (if |parts[0]| < 2 then [] else RingOps(parts[0], close, ORIGIN)) + Meant(parts[1..], close)
  }

  predicate Drawn(parts: seq<seq<Pt>>) {
    parts != [] && (|parts[0]| >= 2 || Drawn(parts[1..]))
  }

  // Every part that another drawn part follows leaves the cursor at the origin.
  predicate EndsAtOrigin(parts: seq<seq<Pt>>, close: bool) {
    parts != [] ==>
      && (|parts[0]| >= 2 && Drawn(parts[1..]) ==> EndOf(parts[0], close) == ORIGIN)
      && EndsAtOrigin(parts[1..], close)
  }

  lemma {:induction false} MovedPartsDiffer(parts: seq<seq<Pt>>, close: bool, off: Pt)
    requires Short(parts) && InRange(off) && off != ORIGIN && Drawn(parts)
    ensures PartsOps(parts, close, off) != Meant(parts, close)
  {
    if |parts[0]| < 2 {
      MovedPartsDiffer(parts[1..], close, off);
      assert [] + Meant(parts[1..], close) == Meant(parts[1..], close);
    } else {
      assert AllInRange(parts[0]);
      MovedByNothing(parts[0][0], off);
      MovedByNothing(parts[0][0], ORIGIN);
      assert PartsOps(parts, close, off)[0] == MoveTo(Moved(parts[0][0], off));
      assert Meant(parts, close)[0] == MoveTo(Moved(parts[0][0], ORIGIN));
    }
  }

  lemma {:induction false} UndrawnParts(parts: seq<seq<Pt>>, close: bool, off: Pt)
    requires !Drawn(parts)
    ensures PartsOps(parts, close, off) == [] && Meant(parts, close) == []
  {
    if parts != [] { UndrawnParts(parts[1..], close, off); }
  }

  lemma {:induction false} PartsAsMeant(parts: seq<seq<Pt>>, close: bool)
    requires Short(parts)
    ensures PartsOps(parts, close, ORIGIN) == Meant(parts, close) <==> EndsAtOrigin(parts, close)
  {
    hide Moved, RingOps, AllInRange, InRange;
    if parts != [] {
      var rest := parts[1..];
      PartsAsMeant(rest, close);
      if |parts[0]| >= 2 {
        var first, end := RingOps(parts[0], close, ORIGIN), EndOf(parts[0], close);
        EndInRange(parts[0], close);
        MovedFromOriginTo(end);
        SamePrefix(first, PartsOps(rest, close, end), Meant(rest, close));
        if end != ORIGIN {
          if Drawn(rest) { MovedPartsDiffer(rest, close, end); }
          else { UndrawnParts(rest, close, end); UndrawnParts(rest, close, ORIGIN); }
        }
      } else {
        assert [] + Meant(rest, close) == Meant(rest, close);
      }
    }
  }

  lemma EndInRange(points: seq<Pt>, close: bool)
    requires AllInRange(points) && |points| >= 2
    ensures InRange(EndOf(points, close))
  {}

  lemma MovedFromOriginTo(p: Pt)
    requires InRange(p)
    ensures Moved(p, ORIGIN) == p
  {}

  lemma SamePrefix(a: seq<Op>, b: seq<Op>, c: seq<Op>)
    ensures a + b == a + c <==> b == c
  {
    assert (a + b)[|a|..] == b && (a + c)[|a|..] == c;
  }

  // A geometry of several parts decodes as meant exactly when every part that
  // another follows ends at the tile's origin: each part is encoded from (0, 0),
  // while the specification keeps the cursor.
  lemma PartsRoundTrip(parts: seq<seq<Pt>>, close: bool)
    requires Short(parts)
    ensures Decode(Parts(parts, close), ORIGIN) == Ops(Meant(parts, close)) <==> EndsAtOrigin(parts, close)
  {
    hide Decode, Parts, PartsOps, Meant, EndsAtOrigin;
    DecodeParts(parts, close, ORIGIN);
    PartsAsMeant(parts, close);
  }

  // ------------------------------------------------------------- property rules

  datatype PropertyRule = PropertyRule(belowZoom: nat, exclude: seq<string>)

  // `compute_excluded_properties`
  method ComputeExcludedProperties(rules: seq<PropertyRule>, zoom: nat) returns (excluded: set<string>)
    ensures forall name :: name in excluded <==> exists i :: 0 <= i < |rules| && zoom < rules[i].belowZoom && name in rules[i].exclude
  {
    excluded := {};
    var i := 0;
    while i < |rules|
      invariant 0 <= i <= |rules|
      invariant forall name :: name in excluded <==> exists j :: 0 <= j < i && zoom < rules[j].belowZoom && name in rules[j].exclude
    {
      if zoom < rules[i].belowZoom {
        excluded := excluded + set name | name in rules[i].exclude;
      }
      i := i + 1;
    }
  }

  // ------------------------------------------------------------- values

  // A property value; a number and everything nested by its text.
  datatype Json = JString(text: string) | JNumber(text: string) | JBool(value: bool) | JOther(text: string)

  datatype Value = StringValue(text: string) | IntValue(i: int) | DoubleValue(x: real) | BoolValue(b: bool)

  // `value_to_string`, the key of the value dictionary.
  function ValueKey(v: Json): string {
    match v
    case JString(text) => "s:" + text
    case JNumber(text) => "n:" + text
    case JBool(b) => if b then "b:true" else "b:false"
    case JOther(text) => "o:" + text
  }

  lemma ValueKeyIsUnique(v: Json, w: Json)
    ensures ValueKey(v) == ValueKey(w) <==> v == w
  {
    assert ValueKey(v)[2..] == if v.JBool? then (if v.value then "true" else "false") else v.text;
    assert ValueKey(w)[2..] == if w.JBool? then (if w.value then "true" else "false") else w.text;
    assert ValueKey(v)[0] == (match v case JString(_) => 's' case JNumber(_) => 'n' case JBool(_) => 'b' case JOther(_) => 'o');
    assert ValueKey(w)[0] == (match w case JString(_) => 's' case JNumber(_) => 'n' case JBool(_) => 'b' case JOther(_) => 'o');
    assert "true"[0] != "false"[0];
  }

  // `json_to_mvt_value`; `number` reads a number's text as an integer or a double.
  function ToValue(number: string -> Value, v: Json): Value {
    match v
    case JString(text) => StringValue(text)
    case JNumber(text) => number(text)
    case JBool(b) => BoolValue(b)
    case JOther(text) => StringValue(text)
  }

  // ------------------------------------------------------------- reading values

  // Section 4.4: a value is a text, a truth value or a number, here told by its text.
  function ReadValue(text: Value -> string, v: Value): Json {
    match v
    case StringValue(s) => JString(s)
    case BoolValue(b) => JBool(b)
    case IntValue(_) => JNumber(text(v))
    case DoubleValue(_) => JNumber(text(v))
  }

  // A reader's number texts give back what `number` read; a number too large for
  // either form was kept as text.
  ghost predicate Undoes(text: Value -> string, number: string -> Value) {
    forall s :: match number(s)
      case StringValue(t) => t == s
      case BoolValue(_) => false
      case IntValue(_) => text(number(s)) == s
      case DoubleValue(_) => text(number(s)) == s
  }

  // A stored value reads as the property's own: texts and truth values as they are,
  // something nested as its text, a number as its text.
  ghost predicate ReadsAs(number: string -> Value, v: Json, value: Value) {
    match v
    case JString(s) => forall text: Value -> string :: ReadValue(text, value) == JString(s)
    case JBool(b) => forall text: Value -> string :: ReadValue(text, value) == JBool(b)
    case JOther(s) => forall text: Value -> string :: ReadValue(text, value) == JString(s)
    case JNumber(s) => forall text: Value -> string {:trigger Undoes(text, number)} :: Undoes(text, number) ==>
        ReadValue(text, value) == JNumber(s) || (number(s).StringValue? && ReadValue(text, value) == JString(s))
  }

  lemma ValueReadsAs(number: string -> Value, v: Json)
    ensures ReadsAs(number, v, ToValue(number, v))
  {}

  // ------------------------------------------------------------- tags

  type Property = (string, Json)

  datatype Feature = Feature(id: int, properties: seq<Property>, geometry: seq<int>)

  datatype Encoded = Encoded(id: u64, tags: seq<nat>, geometry: seq<int>)

  function Kept(properties: seq<Property>, excluded: set<string>): seq<Property> {
    if properties == [] then []
    else
      var last := properties[|properties| - 1];
      Kept(properties[..|properties| - 1], excluded) + (if last.0 in excluded then [] else [last])
  }

  // Section 4.4: tags alternate between the two dictionaries.
  ghost predicate TagsDecode(number: string -> Value, tags: seq<nat>, keys: seq<string>, values: seq<Value>, properties: seq<Property>) {
    && |tags| == 2 * |properties|
    && forall k :: 0 <= k < |properties| ==>
      && tags[2 * k] < |keys| && keys[tags[2 * k]] == properties[k].0
      && tags[2 * k + 1] < |values| && ReadsAs(number, properties[k].1, values[tags[2 * k + 1]])
  }

  predicate Distinct(keys: seq<string>) {
    forall i, j :: 0 <= i < j < |keys| ==> keys[i] != keys[j]
  }

  predicate Extends<T(==)>(a: seq<T>, b: seq<T>) { a <= b }

  lemma ExtendsTransitive<T>(a: seq<T>, b: seq<T>, c: seq<T>)
    requires Extends(a, b) && Extends(b, c)
    ensures Extends(a, c)
  {}

  // The two dictionaries while a layer is encoded.
  class Dictionaries {
    const number: string -> Value
    var keys: seq<string>
    var values: seq<Value>
    var keyIndex: map<string, nat>
    var valueIndex: map<string, nat>

    ghost predicate Valid()
      reads this
    {
      && Distinct(keys)
      && (forall i :: 0 <= i < |keys| ==> keys[i] in keyIndex)
      && (forall k :: k in keyIndex ==> keyIndex[k] < |keys| && keys[keyIndex[k]] == k)
      && (forall v: Json {:trigger ValueKey(v)} :: ValueKey(v) in valueIndex ==>
        valueIndex[ValueKey(v)] < |values| && ReadsAs(number, v, values[valueIndex[ValueKey(v)]]))
    }

    constructor (number: string -> Value)
      ensures Valid() && keys == [] && values == [] && this.number == number
    {
      this.number := number;
      keys, values, keyIndex, valueIndex := [], [], map[], map[];
    }

    method KeyIndex(k: string) returns (i: nat)
      requires Valid()
      modifies this`keys, this`keyIndex
      ensures Valid() && Extends(old(keys), keys) && i < |keys| && keys[i] == k
      ensures k in old(keys) ==> keys == old(keys)
      ensures k !in old(keys) ==> keys == old(keys) + [k]
    {
      if k !in keyIndex {
        keyIndex := keyIndex[k := |keys|];
        keys := keys + [k];
      }
      i := keyIndex[k];
    }

    method ValueIndex(v: Json) returns (i: nat)
      requires Valid()
      modifies this`values, this`valueIndex
      ensures Valid() && Extends(old(values), values) && i < |values| && ReadsAs(number, v, values[i])
    {
      hide ReadsAs;
      ValueReadsAs(number, v);
      var key := ValueKey(v);
      forall w: Json ensures ValueKey(w) == key <==> w == v { ValueKeyIsUnique(w, v); }
      if key !in valueIndex {
        valueIndex := valueIndex[key := |values|];
        values := values + [ToValue(number, v)];
      }
      i := valueIndex[key];
    }

    // One feature's tags.
    method Tags(properties: seq<Property>, excluded: set<string>) returns (tags: seq<nat>)
      requires Valid()
      modifies this
      ensures Valid() && Extends(old(keys), keys) && Extends(old(values), values)
      ensures TagsDecode(number, tags, keys, values, Kept(properties, excluded))
    {
      hide *;
      tags := [];
      NoTags(number, keys, values, properties, excluded);
      var n := 0;
      while n < |properties|
        invariant 0 <= n <= |properties|
        invariant Valid() && Extends(old(keys), keys) && Extends(old(values), values)
        invariant TagsDecode(number, tags, keys, values, Kept(properties[..n], excluded))
      {
        KeptNext(properties, n, excluded);
        var (k, v) := properties[n];
        if k !in excluded {
          ghost var midKeys, midValues := keys, values;
          tags := Tag(tags, k, v, Kept(properties[..n], excluded));
          ExtendsTransitive(old(keys), midKeys, keys);
          ExtendsTransitive(old(values), midValues, values);
        } else {
          assert Kept(properties[..n + 1], excluded) == Kept(properties[..n], excluded);
        }
        n := n + 1;
      }
      assert properties[..|properties|] == properties;
    }

    method Tag(before: seq<nat>, k: string, v: Json, ghost properties: seq<Property>) returns (tags: seq<nat>)
      requires Valid() && TagsDecode(number, before, keys, values, properties)
      modifies this
      ensures Valid() && Extends(old(keys), keys) && Extends(old(values), values)
      ensures TagsDecode(number, tags, keys, values, properties + [(k, v)])
    {
      hide *;
      var i := KeyIndex(k);
      var j := ValueIndex(v);
      TagsGrow(number, before, old(keys), old(values), keys, values, properties);
      tags := before + [i, j];
      TagsAppend(number, before, i, j, keys, values, properties, k, v);
    }
  }

  lemma NoTags(number: string -> Value, keys: seq<string>, values: seq<Value>, properties: seq<Property>, excluded: set<string>)
    ensures TagsDecode(number, [], keys, values, Kept(properties[..0], excluded))
    ensures Extends(keys, keys) && Extends(values, values)
  {}

  lemma KeptNext(properties: seq<Property>, n: nat, excluded: set<string>)
    requires n < |properties|
    ensures Kept(properties[..n + 1], excluded) ==
      Kept(properties[..n], excluded) + (if properties[n].0 in excluded then [] else [(properties[n].0, properties[n].1)])
  {
    assert properties[..n + 1][..n] == properties[..n];
  }

  // Growing dictionaries change no tag already written.
  lemma TagsGrow(number: string -> Value, tags: seq<nat>, keys: seq<string>, values: seq<Value>, keys': seq<string>, values': seq<Value>,
                 properties: seq<Property>)
    requires TagsDecode(number, tags, keys, values, properties) && Extends(keys, keys') && Extends(values, values')
    ensures TagsDecode(number, tags, keys', values', properties)
  {}

  lemma TagsAppend(number: string -> Value, tags: seq<nat>, i: nat, j: nat, keys: seq<string>, values: seq<Value>,
                   properties: seq<Property>, k: string, v: Json)
    requires TagsDecode(number, tags, keys, values, properties)
    requires i < |keys| && keys[i] == k && j < |values| && ReadsAs(number, v, values[j])
    ensures TagsDecode(number, tags + [i, j], keys, values, properties + [(k, v)])
  {
    hide ReadsAs;
    var all := tags + [i, j];
    forall n | 0 <= n < |properties| + 1
      ensures all[2 * n] < |keys| && keys[all[2 * n]] == (properties + [(k, v)])[n].0
      ensures all[2 * n + 1] < |values| && ReadsAs(number, (properties + [(k, v)])[n].1, values[all[2 * n + 1]])
    {
      if n < |properties| { assert all[2 * n] == tags[2 * n] && all[2 * n + 1] == tags[2 * n + 1]; }
    }
  }

  // The features that are drawn at all.
  function Drawable(features: seq<Feature>): seq<Feature> {
    if features == [] then []
    else Drawable(features[..|features| - 1]) + (if features[|features| - 1].geometry == [] then [] else [features[|features| - 1]])
  }

  ghost predicate Faithful(number: string -> Value, f: Feature, excluded: set<string>, e: Encoded, keys: seq<string>, values: seq<Value>) {
    && e.id == Wrap64(f.id) && e.geometry == f.geometry
    && TagsDecode(number, e.tags, keys, values, Kept(f.properties, excluded))
  }

  ghost predicate AllFaithful(number: string -> Value, features: seq<Feature>, excluded: set<string>, out: seq<Encoded>,
                              keys: seq<string>, values: seq<Value>) {
    && |out| == |features|
    && forall k :: 0 <= k < |features| ==> Faithful(number, features[k], excluded, out[k], keys, values)
  }

  lemma FaithfulGrow(number: string -> Value, features: seq<Feature>, excluded: set<string>, out: seq<Encoded>,
                     keys: seq<string>, values: seq<Value>, keys': seq<string>, values': seq<Value>)
    requires AllFaithful(number, features, excluded, out, keys, values) && Extends(keys, keys') && Extends(values, values')
    ensures AllFaithful(number, features, excluded, out, keys', values')
  {
    hide TagsDecode;
    forall k | 0 <= k < |features| ensures Faithful(number, features[k], excluded, out[k], keys', values') {
      TagsGrow(number, out[k].tags, keys, values, keys', values', Kept(features[k].properties, excluded));
    }
  }

  // One layer: every drawable feature in order, its tags giving back exactly its
  // kept properties through dictionaries with distinct keys.
  method EncodeLayer(number: string -> Value, features: seq<Feature>, excluded: set<string>)
    returns (out: seq<Encoded>, keys: seq<string>, values: seq<Value>)
    ensures AllFaithful(number, Drawable(features), excluded, out, keys, values)
    ensures Distinct(keys)
  {
    hide *;
    var d := new Dictionaries(number);
    out := [];
    NoFeatures(number, features, excluded, d.keys, d.values);
    var n := 0;
    while n < |features|
      invariant 0 <= n <= |features|
      invariant fresh(d) && d.Valid() && d.number == number
      invariant AllFaithful(number, Drawable(features[..n]), excluded, out, d.keys, d.values)
    {
      var f := features[n];
      DrawableNext(features, n);
      if f.geometry != [] {
        ghost var oldKeys, oldValues := d.keys, d.values;
        var tags := d.Tags(f.properties, excluded);
        FaithfulGrow(number, Drawable(features[..n]), excluded, out, oldKeys, oldValues, d.keys, d.values);
        var e := Encoded(Wrap64(f.id), tags, f.geometry);
        FaithfulOne(number, Drawable(features[..n]), f, excluded, out, e, d.keys, d.values);
        out := out + [e];
      }
      n := n + 1;
    }
    assert features[..|features|] == features;
    keys, values := d.keys, d.values;
    KeysDistinct(d);
  }

  lemma NoFeatures(number: string -> Value, features: seq<Feature>, excluded: set<string>, keys: seq<string>, values: seq<Value>)
    ensures AllFaithful(number, Drawable(features[..0]), excluded, [], keys, values)
  {}

  lemma DrawableNext(features: seq<Feature>, n: nat)
    requires n < |features|
    ensures Drawable(features[..n + 1]) ==
      if features[n].geometry == [] then Drawable(features[..n]) else Drawable(features[..n]) + [features[n]]
  {
    assert features[..n + 1][..n] == features[..n];
  }

  lemma FaithfulOne(number: string -> Value, features: seq<Feature>, f: Feature, excluded: set<string>, out: seq<Encoded>, e: Encoded,
                    keys: seq<string>, values: seq<Value>)
    requires AllFaithful(number, features, excluded, out, keys, values)
    requires e.id == Wrap64(f.id) && e.geometry == f.geometry
    requires TagsDecode(number, e.tags, keys, values, Kept(f.properties, excluded))
    ensures AllFaithful(number, features + [f], excluded, out + [e], keys, values)
  {
    hide TagsDecode, Kept;
    assert Faithful(number, f, excluded, e, keys, values);
  }

  lemma KeysDistinct(d: Dictionaries)
    requires d.Valid()
    ensures Distinct(d.keys)
  {}

  // In order of appearance, each as often as it appears.
  lemma {:induction false} KeptInOrder(properties: seq<Property>, excluded: set<string>) returns (at: seq<nat>)
    ensures |at| == |Kept(properties, excluded)| && forall j, k :: 0 <= j < k < |at| ==> at[j] < at[k]
    ensures forall k :: 0 <= k < |at| ==> at[k] < |properties| && Kept(properties, excluded)[k] == properties[at[k]]
    ensures forall n :: 0 <= n < |properties| ==> (n in at <==> properties[n].0 !in excluded)
  {
    at := [];
    if properties != [] {
      var n := |properties| - 1;
      at := KeptInOrder(properties[..n], excluded);
      assert properties[..n + 1] == properties;
      KeptNext(properties, n, excluded);
      hide Kept;
      if properties[n].0 !in excluded { at := at + [n]; }
    }
  }

  lemma {:induction false} DrawableInOrder(features: seq<Feature>) returns (at: seq<nat>)
    ensures |at| == |Drawable(features)| && forall j, k :: 0 <= j < k < |at| ==> at[j] < at[k]
    ensures forall k :: 0 <= k < |at| ==> at[k] < |features| && Drawable(features)[k] == features[at[k]]
    ensures forall n :: 0 <= n < |features| ==> (n in at <==> features[n].geometry != [])
  {
    at := [];
    if features != [] {
      var n := |features| - 1;
      at := DrawableInOrder(features[..n]);
      assert features[..n + 1] == features;
      DrawableNext(features, n);
      hide Drawable;
      if features[n].geometry != [] { at := at + [n]; }
    }
  }

  // What is kept is exactly what no rule excludes.
  lemma {:induction false} KeptHolds(properties: seq<Property>, excluded: set<string>, q: Property)
    ensures q in Kept(properties, excluded) <==> q in properties && q.0 !in excluded
  {
    if properties != [] {
      KeptHolds(properties[..|properties| - 1], excluded, q);
      assert properties == properties[..|properties| - 1] + [properties[|properties| - 1]];
    }
  }
}
