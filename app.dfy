/** The production tick and the two button payloads of the game screen: a
    tick dispatches one `UpdateResource` per (building, rate) pair, computed
    from the state the tick starts from, and the reducer folds them in. */
module Production {
  import opened Data
  import opened Reducer
  import opened Catalog

  // ---------------------------------------------------------------------
  // What one tick dispatches

  /** The update one rate entry dispatches per tick: `rate * count / tps`. */
  function Delta(r: Resource, count: nat, tps: real): Action
    requires tps != 0.0
  {
    UpdateResource(Resource(r.kind, PerTick(Times(r.amount, count as real), tps)))
  }

  /** The deltas of one building, one per rate entry. */
  function RateActions(rps: seq<Resource>, count: nat, tps: real): seq<Action>
    requires tps != 0.0
  {
    seq(|rps|, k requires 0 <= k < |rps| => Delta(rps[k], count, tps))
  }

  lemma RateActionsSnoc(rps: seq<Resource>, i: int, count: nat, tps: real)
    requires tps != 0.0 && 0 <= i < |rps|
    ensures RateActions(rps[..i + 1], count, tps)
         == RateActions(rps[..i], count, tps)
            + [Delta(rps[i], count, tps)]
  {
    var a := RateActions(rps[..i + 1], count, tps);
    var b := RateActions(rps[..i], count, tps)
             + [Delta(rps[i], count, tps)];
    assert |a| == |b|;
    forall j | 0 <= j < |a| ensures a[j] == b[j] {
      if j < i { assert rps[..i + 1][j] == rps[..i][j]; }
    }
  }

  lemma RateActionsTail(rps: seq<Resource>, count: nat, tps: real)
    requires tps != 0.0 && rps != []
    ensures RateActions(rps, count, tps)
         == [Delta(rps[0], count, tps)]
            + RateActions(rps[1..], count, tps)
  {
    var a := RateActions(rps, count, tps);
    var b := [Delta(rps[0], count, tps)]
             + RateActions(rps[1..], count, tps);
    assert |a| == |b|;
    forall j | 0 <= j < |a| ensures a[j] == b[j] {
      if j > 0 { assert rps[1..][j - 1] == rps[j]; }
    }
  }

  lemma ConcatAssoc<T>(a: seq<T>, b: seq<T>, c: seq<T>)
    ensures a + (b + c) == (a + b) + c
  {
  }

  lemma DispatchOne(t: State, act: Action)
    ensures Dispatch(t, [act]) == Reduce(t, act)
  {
    assert [act][1..] == [];
  }

  /** One more rate entry dispatched is one more reducer step. */
  lemma RateStep(s: State, done: seq<Action>, rps: seq<Resource>, i: int, count: nat, t: State, act: Action)
    requires s.tps != 0.0 && 0 <= i < |rps|
    requires t == Dispatch(s, done + RateActions(rps[..i], count, s.tps))
    requires act == Delta(rps[i], count, s.tps)
    ensures Reduce(t, act) == Dispatch(s, done + RateActions(rps[..i + 1], count, s.tps))
  {
    var cur := RateActions(rps[..i], count, s.tps);
    var next := RateActions(rps[..i + 1], count, s.tps);
    RateActionsSnoc(rps, i, count, s.tps);
    assert next == cur + [act];
    ConcatAssoc(done, cur, [act]);
    DispatchAppend(s, done + cur, [act]);
    DispatchOne(t, act);
  }

  /** Number of rate entries over all buildings. */
  function RateCount(bs: seq<Building>): nat
  {
    if bs == [] then 0 else RateCount(bs[..|bs| - 1]) + |bs[|bs| - 1].rps|
  }

  /** Only `UpdateResource` actions. */
  predicate AllUpdates(acts: seq<Action>)
  {
    forall i :: 0 <= i < |acts| ==> acts[i].UpdateResource?
  }

  /** The actions of one tick, building by building, rate by rate. */
  function TickActions(bs: seq<Building>, tps: real): (acts: seq<Action>)
    requires tps != 0.0
    ensures |acts| == RateCount(bs)
    ensures AllUpdates(acts)
  {
    if bs == [] then []
    else
      var last := bs[|bs| - 1];
      TickActions(bs[..|bs| - 1], tps) + RateActions(last.rps, last.amount, tps)
  }

  /** Ordering: the rate entry `k` of building `j` is dispatched at position
      `RateCount(bs[..j]) + k`, after every entry of the buildings before it. */
  lemma {:induction false} TickActionsAt(bs: seq<Building>, tps: real, j: int, k: int)
    requires tps != 0.0
    requires 0 <= j < |bs| && 0 <= k < |bs[j].rps|
    ensures RateCount(bs[..j]) + k < |TickActions(bs, tps)|
    ensures TickActions(bs, tps)[RateCount(bs[..j]) + k]
         == Delta(bs[j].rps[k], bs[j].amount, tps)
    decreases |bs|
  {
    var n := |bs| - 1;
    var init := bs[..n];
    var a := TickActions(init, tps);
    var b := RateActions(bs[n].rps, bs[n].amount, tps);
    assert TickActions(bs, tps) == a + b;
    if j == n {
      assert bs[..j] == init;
      assert (a + b)[|a| + k] == b[k];
    } else {
      assert init[..j] == bs[..j] && init[j] == bs[j];
      TickActionsAt(init, tps, j, k);
      RateCountPrefix(init, j);
      assert (a + b)[RateCount(bs[..j]) + k] == a[RateCount(bs[..j]) + k];
    }
  }

  lemma {:induction false} RateCountPrefix(bs: seq<Building>, j: int)
    requires 0 <= j < |bs|
    ensures RateCount(bs[..j]) + |bs[j].rps| <= RateCount(bs)
    decreases |bs|
  {
    var n := |bs| - 1;
    assert bs[..n + 1] == bs;
    if j < n {
      assert bs[..n][..j] == bs[..j] && bs[..n][j] == bs[j];
      RateCountPrefix(bs[..n], j);
    } else {
      assert bs[..j] == bs[..n];
    }
  }

  /** The state after one tick. */
  function TickResult(s: State): (t: State)
    requires s.tps != 0.0
    ensures t.tps == s.tps && t.buildings == s.buildings
  {
    var acts := TickActions(s.buildings, s.tps);
    DispatchUpdatesFrame(s, acts);
    Dispatch(s, acts)
  }

  /** The `update` callback: dispatches, in order, one resource update per
      building and rate entry, with deltas taken from the starting state. */
  method Update(s: State) returns (t: State)
    requires s.tps != 0.0
    ensures t == TickResult(s)
  {
    var bs := s.buildings;
    t := s;
    for bi := 0 to |bs|
      invariant t == Dispatch(s, TickActions(bs[..bi], s.tps))
    {
      var b := bs[bi];
      ghost var done := TickActions(bs[..bi], s.tps);
      assert RateActions(b.rps[..0], b.amount, s.tps) == [];
      assert done + [] == done;
      for ri := 0 to |b.rps|
        invariant t == Dispatch(s, done + RateActions(b.rps[..ri], b.amount, s.tps))
      {
        var r := b.rps[ri];
        var act := Delta(r, b.amount, s.tps);
        RateStep(s, done, b.rps, ri, b.amount, t, act);
        t := Reduce(t, act);
      }
      assert b.rps[..|b.rps|] == b.rps;
      assert bs[..bi + 1][..bi] == bs[..bi];
    }
    assert bs[..|bs|] == bs;
  }

  // ---------------------------------------------------------------------
  // What one tick does

  /** Sum of the deltas given to kind `k` by a list of actions. */
  function SumDeltas(acts: seq<Action>, k: ResourceType): real
  {
    if acts == [] then 0.0
    else
      (match acts[0]
       case UpdateResource(r) => if r.kind == k then r.amount else 0.0
       case PurchaseBuilding(_) => 0.0)
      + SumDeltas(acts[1..], k)
  }

  lemma {:induction false} SumDeltasAppend(a: seq<Action>, b: seq<Action>, k: ResourceType)
    ensures SumDeltas(a + b, k) == SumDeltas(a, k) + SumDeltas(b, k)
    decreases |a|
  {
    if a == [] {
      assert a + b == b;
    } else {
      assert (a + b)[0] == a[0] && (a + b)[1..] == a[1..] + b;
      SumDeltasAppend(a[1..], b, k);
    }
  }

  /** Resource updates never touch buildings or `tps`. */
  lemma {:induction false} DispatchUpdatesFrame(s: State, acts: seq<Action>)
    requires AllUpdates(acts)
    ensures Dispatch(s, acts).buildings == s.buildings
    ensures Dispatch(s, acts).tps == s.tps
    decreases |acts|
  {
    if acts != [] {
      DispatchUpdatesFrame(Reduce(s, acts[0]), acts[1..]);
    }
  }

  /** Resource updates credit the first resource of kind `k` with the sum of
      the deltas of that kind, and it stays the first of its kind. */
  lemma {:induction false} DispatchUpdatesCredit(s: State, acts: seq<Action>, i: int, k: ResourceType)
    requires AllUpdates(acts)
    requires IsFirst(s.resources, i, k)
    ensures IsFirst(Dispatch(s, acts).resources, i, k)
    ensures Dispatch(s, acts).resources[i].amount == s.resources[i].amount + SumDeltas(acts, k)
    decreases |acts|
  {
    if acts != [] {
      var r := acts[0].resource;
      var s1 := Reduce(s, acts[0]);
      match FindResource(s.resources, r.kind) {
        case Some(j) =>
          if r.kind == k { FirstIsUnique(s.resources, i, j, k); }
          assert s1.resources == s.resources[j := Resource(r.kind, s.resources[j].amount + r.amount)];
        case None =>
          assert s1.resources == s.resources + [r];
      }
      assert IsFirst(s1.resources, i, k);
      assert s1.resources[i].amount == s.resources[i].amount + (if r.kind == k then r.amount else 0.0);
      DispatchUpdatesCredit(s1, acts[1..], i, k);
    }
  }

  /** What the buildings yield of kind `k` per second: `rate * count` summed
      over every rate entry of that kind. */
  function RateYield(rps: seq<Resource>, count: nat, k: ResourceType): real
  {
    if rps == [] then 0.0
    else (if rps[0].kind == k then Times(rps[0].amount, count as real) else 0.0) + RateYield(rps[1..], count, k)
  }

  function Yield(bs: seq<Building>, k: ResourceType): real
  {
    if bs == [] then 0.0
    else Yield(bs[..|bs| - 1], k) + RateYield(bs[|bs| - 1].rps, bs[|bs| - 1].amount, k)
  }

  // ---------------------------------------------------------------------
  // Real arithmetic of a tick. Products and quotients carry a name so that
  // equal arguments give the same term; the arithmetic facts are the small
  // lemmas below.

  function Times(x: real, y: real): real
  {
    x * y
  }

  /** A per-second amount spread over the `tps` ticks of one second. */
  function PerTick(x: real, tps: real): real
    requires tps != 0.0
  {
    x / tps
  }

  /** The delta of one rate entry is the source's `amount * count / tps`. */
  lemma DeltaFormula(r: Resource, count: nat, tps: real)
    requires tps != 0.0
    ensures Delta(r, count, tps).resource.kind == r.kind
    ensures Delta(r, count, tps).resource.amount == r.amount * (count as real) / tps
  {
  }

  lemma PerTickBack(x: real, t: real)
    requires t != 0.0
    ensures Times(PerTick(x, t), t) == x
  {
  }

  lemma DivideBack(x: real, y: real, t: real)
    requires t != 0.0 && Times(x, t) == y
    ensures x == PerTick(y, t)
  {
  }

  lemma ZeroScaled(x: real, t: real, y: real)
    requires x == 0.0 && y == 0.0
    ensures Times(x, t) == y
  {
  }

  /** Scaling distributes over a split sum. */
  lemma ScaledSum(x: real, xa: real, xb: real, t: real, y: real, ya: real, yb: real)
    requires x == xa + xb && y == ya + yb
    requires Times(xa, t) == ya && Times(xb, t) == yb
    ensures Times(x, t) == y
  {
  }

  lemma StepCount(n: nat, d: real)
    requires n > 0
    ensures d + Times((n - 1) as real, d) == Times(n as real, d)
  {
  }

  lemma WholeSecond(n: nat, y: real, t: real)
    requires n > 0 && t == n as real
    ensures Times(n as real, PerTick(y, t)) == y
  {
  }

  // ---------------------------------------------------------------------
  // The deltas of a tick add up to the yield

  lemma DeltaScaled(r: Resource, count: nat, tps: real, k: ResourceType)
    requires tps != 0.0
    ensures var d := Delta(r, count, tps).resource;
      Times(if d.kind == k then d.amount else 0.0, tps)
      == (if r.kind == k then Times(r.amount, count as real) else 0.0)
  {
    if r.kind == k {
      PerTickBack(Times(r.amount, count as real), tps);
    } else {
      ZeroScaled(0.0, tps, 0.0);
    }
  }

  lemma {:induction false} RateActionsSum(rps: seq<Resource>, count: nat, tps: real, k: ResourceType)
    requires tps != 0.0
    ensures Times(SumDeltas(RateActions(rps, count, tps), k), tps) == RateYield(rps, count, k)
    decreases |rps|
  {
    if rps == [] {
      ZeroScaled(SumDeltas(RateActions(rps, count, tps), k), tps, RateYield(rps, count, k));
    } else {
      var acts := RateActions(rps, count, tps);
      var tail := RateActions(rps[1..], count, tps);
      var d := Delta(rps[0], count, tps).resource;
      RateActionsTail(rps, count, tps);
      assert acts[0] == Delta(rps[0], count, tps) && acts[1..] == tail;
      RateActionsSum(rps[1..], count, tps, k);
      DeltaScaled(rps[0], count, tps, k);
      ScaledSum(SumDeltas(acts, k), if d.kind == k then d.amount else 0.0, SumDeltas(tail, k),
                tps, RateYield(rps, count, k),
                if rps[0].kind == k then Times(rps[0].amount, count as real) else 0.0, RateYield(rps[1..], count, k));
    }
  }

  lemma {:induction false} TickActionsSum(bs: seq<Building>, tps: real, k: ResourceType)
    requires tps != 0.0
    ensures Times(SumDeltas(TickActions(bs, tps), k), tps) == Yield(bs, k)
    decreases |bs|
  {
    if bs == [] {
      assert TickActions(bs, tps) == [];
      ZeroScaled(SumDeltas(TickActions(bs, tps), k), tps, Yield(bs, k));
    } else {
      var n := |bs| - 1;
      TickActionsSplit(bs, tps, k);
      TickActionsSum(bs[..n], tps, k);
      RateActionsSum(bs[n].rps, bs[n].amount, tps, k);
      ScaledSum(SumDeltas(TickActions(bs, tps), k),
                SumDeltas(TickActions(bs[..n], tps), k),
                SumDeltas(RateActions(bs[n].rps, bs[n].amount, tps), k),
                tps, Yield(bs, k), Yield(bs[..n], k), RateYield(bs[n].rps, bs[n].amount, k));
    }
  }

  /** A tick's deltas and yield split into the last building's and the rest's. */
  lemma TickActionsSplit(bs: seq<Building>, tps: real, k: ResourceType)
    requires tps != 0.0 && bs != []
    ensures var n := |bs| - 1;
      && SumDeltas(TickActions(bs, tps), k)
         == SumDeltas(TickActions(bs[..n], tps), k) + SumDeltas(RateActions(bs[n].rps, bs[n].amount, tps), k)
      && Yield(bs, k) == Yield(bs[..n], k) + RateYield(bs[n].rps, bs[n].amount, k)
  {
    var n := |bs| - 1;
    SumDeltasAppend(TickActions(bs[..n], tps), RateActions(bs[n].rps, bs[n].amount, tps), k);
  }

  // ---------------------------------------------------------------------
  // What ticks credit

  /** One tick credits every existing kind with its yield spread over the
      ticks of a second, and the resource stays the first of its kind. */
  lemma TickCredit(s: State, i: int, k: ResourceType)
    requires s.tps != 0.0
    requires IsFirst(s.resources, i, k)
    ensures IsFirst(TickResult(s).resources, i, k)
    ensures TickResult(s).resources[i].amount == s.resources[i].amount + PerTick(Yield(s.buildings, k), s.tps)
  {
    var acts := TickActions(s.buildings, s.tps);
    DispatchUpdatesCredit(s, acts, i, k);
    TickActionsSum(s.buildings, s.tps, k);
    DivideBack(SumDeltas(acts, k), Yield(s.buildings, k), s.tps);
  }

  /** `n` ticks in a row. */
  function Ticks(s: State, n: nat): (t: State)
    requires s.tps != 0.0
    ensures t.tps == s.tps && t.buildings == s.buildings
    decreases n
  {
    if n == 0 then s else Ticks(TickResult(s), n - 1)
  }

  /** `n` ticks credit `n` times the per-tick yield. */
  lemma {:induction false} TicksCreditN(s: State, n: nat, i: int, k: ResourceType)
    requires s.tps != 0.0
    requires IsFirst(s.resources, i, k)
    ensures IsFirst(Ticks(s, n).resources, i, k)
    ensures Ticks(s, n).resources[i].amount
         == s.resources[i].amount + Times(n as real, PerTick(Yield(s.buildings, k), s.tps))
    decreases n
  {
    var d := PerTick(Yield(s.buildings, k), s.tps);
    if n == 0 {
      ZeroScaled(0.0, d, 0.0);
    } else {
      TickCredit(s, i, k);
      TicksCreditN(TickResult(s), n - 1, i, k);
      StepCount(n, d);
    }
  }

  /** `tps` ticks in a row, i.e. one second of play, credit every existing
      kind with exactly `rate * count` summed over its rate entries. */
  lemma TicksCredit(s: State, n: nat, i: int, k: ResourceType)
    requires s.tps == n as real && n > 0
    requires IsFirst(s.resources, i, k)
    ensures IsFirst(Ticks(s, n).resources, i, k)
    ensures Ticks(s, n).resources[i].amount == s.resources[i].amount + Yield(s.buildings, k)
  {
    TicksCreditN(s, n, i, k);
    WholeSecond(n, Yield(s.buildings, k), s.tps);
  }

  // ---------------------------------------------------------------------
  // Idle buildings and unguarded consumption

  /** An unowned building dispatches deltas of zero. */
  lemma IdleBuildingZeroDeltas(rps: seq<Resource>, tps: real)
    requires tps != 0.0
    ensures forall a :: a in RateActions(rps, 0, tps) ==> a.resource.amount == 0.0
  {
  }

  /** A zero delta changes nothing for an existing kind and appends a
      zero-amount resource for a missing one. */
  lemma ZeroDeltaEffect(s: State, k: ResourceType)
    ensures Reduce(s, UpdateResource(Resource(k, 0.0)))
         == if Present(s.resources, k) then s else s.(resources := s.resources + [Resource(k, 0.0)])
  {
    match FindResource(s.resources, k)
    case Some(i) =>
      assert s.resources[i := Resource(k, s.resources[i].amount + 0.0)] == s.resources;
    case None =>
  }

  /** One furnace running with no ore and no coal, at 20 ticks per second. */
  const DryFurnace: State :=
    State(20.0, [Resource(Iron, 0.0), Resource(IronOre, 0.0), Resource(Coal, 0.0)],
          [FurnaceBuilding.(amount := 1)])

  /** Consumption is unguarded: the furnace still runs, and the tick drives
      ore and coal below zero. */
  lemma FurnaceRunsDry()
    ensures var t := TickResult(DryFurnace);
      |t.resources| == 3 && t.resources[0].amount == 0.05
      && t.resources[1].amount == -0.05 && t.resources[2].amount == -0.1
  {
    var s := DryFurnace;
    FurnaceYields();
    FurnaceKeepsLength();
    TickCredit(s, 0, Iron);
    TickCredit(s, 1, IronOre);
    TickCredit(s, 2, Coal);
  }

  lemma FurnaceYields()
    ensures Yield(DryFurnace.buildings, Iron) == 1.0
    ensures Yield(DryFurnace.buildings, IronOre) == -1.0
    ensures Yield(DryFurnace.buildings, Coal) == -2.0
  {
    var f := DryFurnace.buildings[0];
    var rps := f.rps;
    assert DryFurnace.buildings[..0] == [];
    assert rps[1..][1..][1..] == [];
    assert Yield(DryFurnace.buildings, Iron) == RateYield(rps, 1, Iron);
    assert Yield(DryFurnace.buildings, IronOre) == RateYield(rps, 1, IronOre);
    assert Yield(DryFurnace.buildings, Coal) == RateYield(rps, 1, Coal);
  }

  lemma FurnaceKeepsLength()
    ensures |TickResult(DryFurnace).resources| == 3
  {
    var s := DryFurnace;
    var f := s.buildings[0];
    assert s.buildings[..0] == [];
    var acts := TickActions(s.buildings, s.tps);
    assert acts == RateActions(f.rps, 1, 20.0);
    forall a | a in acts ensures a.UpdateResource? && Present(s.resources, a.resource.kind) {
      var k :| 0 <= k < |acts| && acts[k] == a;
      assert a.resource.kind == s.resources[k].kind;
    }
    DispatchKeepsLengthWhenPresent(s, acts);
  }

  /** A dispatched resource update leaves its kind present for good. */
  lemma DispatchMakesPresent(s: State, acts: seq<Action>, p: int)
    requires 0 <= p < |acts| && acts[p].UpdateResource?
    ensures Present(Dispatch(s, acts).resources, acts[p].resource.kind)
  {
    var k := acts[p].resource.kind;
    var t := Dispatch(s, acts[..p]);
    assert acts == acts[..p] + acts[p..];
    DispatchAppend(s, acts[..p], acts[p..]);
    assert acts[p..][0] == acts[p] && acts[p..][1..] == acts[p + 1..];
    ReduceKeepsPresent(t, acts[p], k);
    DispatchKeepsPresent(Reduce(t, acts[p]), acts[p + 1..], k);
  }

  /** Iron is absent at the start, yet the first tick makes it present: the
      unowned furnace still dispatches a zero iron update, which appends an
      iron entry. */
  lemma FirstTickAddsIron(tps: real)
    requires tps != 0.0
    ensures !Present(InitialState(tps).resources, Iron)
    ensures Present(TickResult(InitialState(tps)).resources, Iron)
  {
    InitialResourcesZero();
    var s := InitialState(tps);
    var bs := s.buildings;
    TickActionsAt(bs, tps, 4, 0);
    var p := RateCount(bs[..4]);
    assert bs[4].rps[0].kind == Iron;
    DispatchMakesPresent(s, TickActions(bs, tps), p);
  }

  /** Updates of kinds already present never grow the resource list. */
  lemma {:induction false} DispatchKeepsLengthWhenPresent(s: State, acts: seq<Action>)
    requires forall a :: a in acts ==> a.UpdateResource? && Present(s.resources, a.resource.kind)
    ensures |Dispatch(s, acts).resources| == |s.resources|
    decreases |acts|
  {
    if acts != [] {
      var s1 := Reduce(s, acts[0]);
      assert acts[0] in acts;
      assert |s1.resources| == |s.resources|;
      SameKindsPresent(s1.resources, s.resources);
      assert forall a :: a in acts[1..] ==> a in acts;
      DispatchKeepsLengthWhenPresent(s1, acts[1..]);
    }
  }

  // ---------------------------------------------------------------------
  // The two buttons

  /** The "Gain" button of a resource: one unit of that resource's kind. */
  function GainAction(r: Resource): Action
  {
    UpdateResource(Resource(r.kind, 1.0))
  }

  /** With unique kinds, "Gain" adds exactly one to the resource it sits
      under and changes nothing else. */
  lemma GainAddsOne(s: State, idx: int)
    requires UniqueKinds(s.resources) && 0 <= idx < |s.resources|
    ensures Reduce(s, GainAction(s.resources[idx]))
         == s.(resources := s.resources[idx := Resource(s.resources[idx].kind, s.resources[idx].amount + 1.0)])
  {
    UpdateExisting(s, Resource(s.resources[idx].kind, 1.0), idx);
  }

  /** The "Buy" button of a building. */
  function BuyAction(b: Building): Action
  {
    PurchaseBuilding(b.kind)
  }

  /** The "Buy" button is disabled when the cost is not matched. */
  predicate BuyDisabled(s: State, b: Building)
  {
    !MatchesCost(s.resources, b.cost)
  }

  /** With unique building kinds, the button is disabled exactly when
      pressing it would leave the state unchanged. */
  lemma BuyDisabledIffNoOp(s: State, j: int)
    requires UniqueBuildingKinds(s.buildings) && 0 <= j < |s.buildings|
    ensures BuyDisabled(s, s.buildings[j]) <==> Reduce(s, BuyAction(s.buildings[j])) == s
  {
    var k := s.buildings[j].kind;
    assert FindBuilding(s.buildings, k) == Some(j);
    PurchaseNoOpIff(s, k);
  }
}
