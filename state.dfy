/** The game state and the reducer: a pure function from (state, action) to
    the next state, and its left fold over a sequence of dispatched actions. */
module Reducer {
  import opened Data

  /** The aggregate state: ticks per second, resource stocks, buildings. */
  datatype State = State(tps: real, resources: seq<Resource>, buildings: seq<Building>)

  /** The two actions the reducer handles. */
  datatype Action =
    | UpdateResource(resource: Resource)
    | PurchaseBuilding(buildingType: BuildingType)

  // ---------------------------------------------------------------------
  // Building lookup

  /** `j` is the index that `buildings.find(b => b.type === k)` lands on. */
  predicate IsFirstBuilding(bs: seq<Building>, j: int, k: BuildingType)
  {
    0 <= j < |bs| && bs[j].kind == k && forall i :: 0 <= i < j ==> bs[i].kind != k
  }

  predicate BuildingPresent(bs: seq<Building>, k: BuildingType)
  {
    exists j :: 0 <= j < |bs| && bs[j].kind == k
  }

  predicate UniqueBuildingKinds(bs: seq<Building>)
  {
    forall i, j :: 0 <= i < j < |bs| ==> bs[i].kind != bs[j].kind
  }

  /** Array `find` on the building kind: the first match, or none. */
  function FindBuilding(bs: seq<Building>, k: BuildingType): (r: Option<nat>)
    ensures r.Some? ==> IsFirstBuilding(bs, r.value, k)
    ensures r.None? ==> !BuildingPresent(bs, k)
  {
    if bs == [] then None
    else if bs[0].kind == k then Some(0)
    else match FindBuilding(bs[1..], k)
      case None => None
      case Some(j) => Some(j + 1)
  }

  // ---------------------------------------------------------------------
  // The two transitions

  /** The `UPDATE_RESOURCE` draft body: add `r.amount` to the first resource
      of kind `r.kind`, or push `r` when there is none. No sign check. */
  function AddResource(rs: seq<Resource>, r: Resource): (rs': seq<Resource>)
    ensures forall i :: IsFirst(rs, i, r.kind) ==>
      rs' == rs[i := Resource(r.kind, rs[i].amount + r.amount)]
    ensures !Present(rs, r.kind) ==> rs' == rs + [r]
  {
    match FindResource(rs, r.kind)
    case Some(i) => rs[i := rs[i].(amount := rs[i].amount + r.amount)]
    case None => rs + [r]
  }

  /** Every cost entry multiplied in place by `m`, kinds and order kept. */
  function ScaleCost(cost: seq<Resource>, m: real): seq<Resource>
  {
    seq(|cost|, i requires 0 <= i < |cost| => Resource(cost[i].kind, cost[i].amount * m))
  }

  /** A building after one purchase: cost scaled, one more owned. */
  function Bought(b: Building): Building
  {
    b.(cost := ScaleCost(b.cost, b.costMultiplier), amount := b.amount + 1)
  }

  /** The `PURCHASE_BUILDING` draft body: nothing happens unless the building
      exists and its cost is matched; then debit the cost, scale it, count one
      more building. */
  function Purchase(s: State, k: BuildingType): State
  {
    match FindBuilding(s.buildings, k)
    case None => s
    case Some(j) =>
      var b := s.buildings[j];
      if !MatchesCost(s.resources, b.cost) then s
      else s.(resources := Subtract(s.resources, b.cost).0, buildings := s.buildings[j := Bought(b)])
  }

  /** The reducer. It leaves `tps` alone and never lowers a building count. */
  function Reduce(s: State, a: Action): (t: State)
    ensures t.tps == s.tps
    ensures |t.buildings| == |s.buildings|
    ensures forall j :: 0 <= j < |s.buildings| ==>
      t.buildings[j].kind == s.buildings[j].kind && t.buildings[j].amount >= s.buildings[j].amount
  {
    match a
    case UpdateResource(r) => s.(resources := AddResource(s.resources, r))
    case PurchaseBuilding(k) => Purchase(s, k)
  }

  /** Dispatching actions one after the other. */
  function Dispatch(s: State, acts: seq<Action>): (t: State)
    ensures t.tps == s.tps && |t.buildings| == |s.buildings|
    decreases |acts|
  {
    if acts == [] then s else Dispatch(Reduce(s, acts[0]), acts[1..])
  }

  lemma {:induction false} DispatchAppend(s: State, a: seq<Action>, b: seq<Action>)
    ensures Dispatch(s, a + b) == Dispatch(Dispatch(s, a), b)
    decreases |a|
  {
    if a != [] {
      assert (a + b)[0] == a[0] && (a + b)[1..] == a[1..] + b;
      assert Dispatch(s, a + b) == Dispatch(Reduce(s, a[0]), a[1..] + b);
      assert Dispatch(s, a) == Dispatch(Reduce(s, a[0]), a[1..]);
      DispatchAppend(Reduce(s, a[0]), a[1..], b);
    } else {
      assert a + b == b;
    }
  }

  /** No action removes a kind, and a resource update makes its kind present. */
  lemma ReduceKeepsPresent(s: State, a: Action, k: ResourceType)
    requires Present(s.resources, k) || (a.UpdateResource? && a.resource.kind == k)
    ensures Present(Reduce(s, a).resources, k)
  {
    var t := Reduce(s, a);
    match a
    case UpdateResource(r) => {
      match FindResource(s.resources, r.kind)
      case Some(i) =>
        SameKindsPresent(t.resources, s.resources);
      case None =>
        if Present(s.resources, k) {
          var j :| 0 <= j < |s.resources| && s.resources[j].kind == k;
          assert t.resources[j].kind == k;
        } else {
          assert t.resources[|s.resources|].kind == k;
        }
    }
    case PurchaseBuilding(_) =>
      SameKindsPresent(t.resources, s.resources);
  }

  /** Once present, a kind stays present under any sequence of actions. */
  lemma {:induction false} DispatchKeepsPresent(s: State, acts: seq<Action>, k: ResourceType)
    requires Present(s.resources, k)
    ensures Present(Dispatch(s, acts).resources, k)
    decreases |acts|
  {
    if acts != [] {
      ReduceKeepsPresent(s, acts[0], k);
      DispatchKeepsPresent(Reduce(s, acts[0]), acts[1..], k);
    }
  }

  // ---------------------------------------------------------------------
  // UPDATE_RESOURCE

  /** A non-negative update never makes an affordable cost unaffordable, the
      append of an absent kind included. */
  lemma UpdateKeepsAffordable(s: State, r: Resource, cost: seq<Resource>)
    requires r.amount >= 0.0 && MatchesCost(s.resources, cost)
    ensures MatchesCost(Reduce(s, UpdateResource(r)).resources, cost)
  {
    var rs := s.resources;
    var rs' := Reduce(s, UpdateResource(r)).resources;
    forall j | 0 <= j < |rs|
      ensures exists j' :: 0 <= j' < |rs'| && rs'[j'].kind == rs[j].kind && rs'[j'].amount >= rs[j].amount
    {
      assert rs'[j].kind == rs[j].kind && rs'[j].amount >= rs[j].amount;
    }
    MatchesCostMonotone(rs, rs', cost);
  }

  /** An existing kind: the delta goes to the first resource of that kind
      only; nothing else in the state changes. */
  lemma UpdateExisting(s: State, r: Resource, i: int)
    requires IsFirst(s.resources, i, r.kind)
    ensures Reduce(s, UpdateResource(r))
         == s.(resources := s.resources[i := Resource(r.kind, s.resources[i].amount + r.amount)])
  {
  }

  /** A missing kind: the dispatched resource is appended, nothing else changes. */
  lemma UpdateAbsent(s: State, r: Resource)
    requires !Present(s.resources, r.kind)
    ensures Reduce(s, UpdateResource(r)) == s.(resources := s.resources + [r])
  {
  }

  /** No sign check: a negative delta can drive a stock below zero. */
  lemma UpdateNoSignCheck()
    ensures Reduce(State(20.0, [Resource(Wood, 0.0)], []), UpdateResource(Resource(Wood, -1.0)))
         == State(20.0, [Resource(Wood, -1.0)], [])
  {
    UpdateExisting(State(20.0, [Resource(Wood, 0.0)], []), Resource(Wood, -1.0), 0);
  }

  // ---------------------------------------------------------------------
  // PURCHASE_BUILDING

  /** The purchase is a no-op exactly when the building is missing or its
      cost is not matched. */
  lemma PurchaseNoOpIff(s: State, k: BuildingType)
    ensures Reduce(s, PurchaseBuilding(k)) == s <==>
      (!BuildingPresent(s.buildings, k)
       || !MatchesCost(s.resources, s.buildings[FindBuilding(s.buildings, k).value].cost))
  {
    match FindBuilding(s.buildings, k)
    case None =>
    case Some(j) =>
      if MatchesCost(s.resources, s.buildings[j].cost) {
        assert Reduce(s, PurchaseBuilding(k)).buildings[j].amount == s.buildings[j].amount + 1;
      }
  }

  /** A successful purchase debits the pre-scaling cost, scales each cost
      entry by the multiplier and counts one more building; the other
      buildings and `tps` stay as they were. */
  lemma PurchaseEffect(s: State, k: BuildingType, j: int)
    requires IsFirstBuilding(s.buildings, j, k)
    requires MatchesCost(s.resources, s.buildings[j].cost)
    ensures var b := s.buildings[j];
      var t := Reduce(s, PurchaseBuilding(k));
      && t.tps == s.tps
      && t.resources == Subtract(s.resources, b.cost).0
      && Subtract(s.resources, b.cost).1
      && |t.buildings| == |s.buildings|
      && t.buildings[j] == Building(b.kind, ScaleCost(b.cost, b.costMultiplier), b.costMultiplier, b.amount + 1, b.rps)
      && forall i :: 0 <= i < |s.buildings| && i != j ==> t.buildings[i] == s.buildings[i]
  {
    assert FindBuilding(s.buildings, k) == Some(j);
    MatchesCostPresent(s.resources, s.buildings[j].cost);
  }

  /** One step of the reducer on a single building: it is either left as it
      is or bought once. */
  lemma ReduceBuildingStep(s: State, a: Action, j: int)
    requires 0 <= j < |s.buildings|
    ensures Reduce(s, a).buildings[j] == s.buildings[j] || Reduce(s, a).buildings[j] == Bought(s.buildings[j])
  {
  }

  function Pow(m: real, n: nat): real
  {
    if n == 0 then 1.0 else m * Pow(m, n - 1)
  }

  /** `b` is `b0` bought some number of times: same kind, multiplier and
      rates, no fewer copies, and the cost is the starting cost scaled by the
      multiplier raised to the number of copies bought. */
  predicate GrownFrom(b0: Building, b: Building)
  {
    && b.kind == b0.kind
    && b.costMultiplier == b0.costMultiplier
    && b.rps == b0.rps
    && b.amount >= b0.amount
    && b.cost == ScaleCost(b0.cost, Pow(b0.costMultiplier, b.amount - b0.amount))
  }

  lemma ScaleByOne(cost: seq<Resource>)
    ensures ScaleCost(cost, 1.0) == cost
  {
    assert forall i :: 0 <= i < |cost| ==> ScaleCost(cost, 1.0)[i] == cost[i];
  }

  lemma MulAssoc(e: real, x: real, y: real)
    ensures (e * x) * y == e * (x * y)
  {
  }

  lemma ScaleTwice(cost: seq<Resource>, x: real, y: real)
    ensures ScaleCost(ScaleCost(cost, x), y) == ScaleCost(cost, x * y)
  {
    var c := ScaleCost(cost, x);
    var a, b := ScaleCost(c, y), ScaleCost(cost, x * y);
    forall i | 0 <= i < |cost| ensures a[i] == b[i] {
      var e := cost[i].amount;
      assert c[i] == Resource(cost[i].kind, e * x);
      MulAssoc(e, x, y);
    }
  }

  lemma GrownFromSelf(b: Building)
    ensures GrownFrom(b, b)
  {
    ScaleByOne(b.cost);
  }

  /** Growth from a building bought once is growth from the building. */
  lemma GrownFromBought(b0: Building, b: Building)
    requires GrownFrom(Bought(b0), b)
    ensures GrownFrom(b0, b)
  {
    var m := b0.costMultiplier;
    var b1 := Bought(b0);
    assert b1.costMultiplier == m && b1.amount == b0.amount + 1;
    assert b1.cost == ScaleCost(b0.cost, m);
    var d: nat := b.amount - b1.amount;
    var q := Pow(m, d);
    assert b.cost == ScaleCost(ScaleCost(b0.cost, m), q);
    ScaleTwice(b0.cost, m, q);
    var n: nat := b.amount - b0.amount;
    assert n == d + 1;
    assert Pow(m, d + 1) == m * q;
    var p := Pow(m, n);
    assert p == m * q;
    assert b.cost == ScaleCost(b0.cost, p);
  }

  /** Geometric cost growth: whatever actions are dispatched, every cost entry
      of a building is its starting amount times the multiplier raised to the
      number of copies bought meanwhile; kind, multiplier and rates stay. */
  lemma {:induction false} CostGeometric(s: State, acts: seq<Action>, j: int)
    requires 0 <= j < |s.buildings|
    ensures |Dispatch(s, acts).buildings| == |s.buildings|
    ensures GrownFrom(s.buildings[j], Dispatch(s, acts).buildings[j])
    decreases |acts|
  {
    if acts == [] {
      GrownFromSelf(s.buildings[j]);
    } else {
      var s1 := Reduce(s, acts[0]);
      ReduceBuildingStep(s, acts[0], j);
      CostGeometric(s1, acts[1..], j);
      assert Dispatch(s, acts) == Dispatch(s1, acts[1..]);
      if s1.buildings[j] != s.buildings[j] {
        GrownFromBought(s.buildings[j], Dispatch(s1, acts[1..]).buildings[j]);
      }
    }
  }

  /** What growth means for one entry: after `N` purchases, cost entry `i`
      is `C0[i] * m^N`, of the same kind. */
  lemma GrownEntry(b0: Building, b: Building, i: int)
    requires GrownFrom(b0, b) && 0 <= i < |b0.cost|
    ensures |b.cost| == |b0.cost| && b.cost[i].kind == b0.cost[i].kind
    ensures b.cost[i].amount == b0.cost[i].amount * Pow(b0.costMultiplier, b.amount - b0.amount)
  {
  }

  // ---------------------------------------------------------------------
  // Invariants kept by every action

  /** Kinds are unique among resources and among buildings, and no cost
      names a kind twice. */
  predicate WellFormed(s: State)
  {
    && UniqueKinds(s.resources)
    && UniqueBuildingKinds(s.buildings)
    && forall j :: 0 <= j < |s.buildings| ==> UniqueKinds(s.buildings[j].cost)
  }

  lemma SameKindsUnique(a: seq<Resource>, b: seq<Resource>)
    requires UniqueKinds(a)
    requires |a| == |b| && forall j :: 0 <= j < |a| ==> a[j].kind == b[j].kind
    ensures UniqueKinds(b)
  {
    forall i, j | 0 <= i < j < |b| ensures b[i].kind != b[j].kind {
      assert a[i].kind != a[j].kind;
    }
  }

  /** Every action keeps the state well formed. */
  lemma ReducePreservesWellFormed(s: State, a: Action)
    requires WellFormed(s)
    ensures WellFormed(Reduce(s, a))
  {
    var t := Reduce(s, a);
    match a
    case UpdateResource(r) =>
      match FindResource(s.resources, r.kind) {
        case Some(i) =>
          SameKindsUnique(s.resources, t.resources);
        case None =>
          assert t.resources == s.resources + [r];
      }
    case PurchaseBuilding(k) =>
      match FindBuilding(s.buildings, k)
      case None =>
      case Some(j) =>
        if MatchesCost(s.resources, s.buildings[j].cost) {
          SameKindsUnique(s.resources, t.resources);
          SameKindsUnique(s.buildings[j].cost, t.buildings[j].cost);
          assert forall i :: 0 <= i < |s.buildings| ==> t.buildings[i].kind == s.buildings[i].kind;
        }
  }

  lemma {:induction false} DispatchPreservesWellFormed(s: State, acts: seq<Action>)
    requires WellFormed(s)
    ensures WellFormed(Dispatch(s, acts))
    decreases |acts|
  {
    if acts != [] {
      ReducePreservesWellFormed(s, acts[0]);
      DispatchPreservesWellFormed(Reduce(s, acts[0]), acts[1..]);
    }
  }

  predicate NonNegative(rs: seq<Resource>)
  {
    forall i :: 0 <= i < |rs| ==> rs[i].amount >= 0.0
  }

  /** A purchase in a well-formed state never drives a stock below zero. */
  lemma PurchaseKeepsNonNegative(s: State, k: BuildingType)
    requires WellFormed(s) && NonNegative(s.resources)
    ensures NonNegative(Reduce(s, PurchaseBuilding(k)).resources)
  {
    match FindBuilding(s.buildings, k)
    case None =>
    case Some(j) =>
      var cost := s.buildings[j].cost;
      if MatchesCost(s.resources, cost) {
        SubtractAfterMatchNonNegative(s.resources, cost);
        forall i | 0 <= i < |s.resources|
          ensures Subtract(s.resources, cost).0[i].amount >= 0.0
        {
          if forall m :: 0 <= m < |cost| ==> cost[m].kind != s.resources[i].kind {
            SubtractUntouched(s.resources, cost, i);
          }
        }
      }
  }
}
