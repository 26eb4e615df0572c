/** Resource and building records and the two ledger helpers of the game:
    the affordability check `MatchesCost` and the in-place debit
    `SubtractResources`, with the pure function `Subtract` that specifies it. */
module Data {

  datatype Option<T> = None | Some(value: T)

  /** The closed set of resource kinds. */
  datatype ResourceType = Wood | Stone | Coal | IronOre | Iron | ResearchPoints

  /** The closed set of building kinds. */
  datatype BuildingType = Woodcutter | Quarry | CoalMiner | IronMiner | Furnace | Laboratory

  /** A (kind, amount) record: a stock, a cost entry or a production rate. */
  datatype Resource = Resource(kind: ResourceType, amount: real)

  /** A building: what the next one costs, how the cost grows, how many are
      owned and what one of them produces per second (signed). */
  datatype Building = Building(
    kind: BuildingType,
    cost: seq<Resource>,
    costMultiplier: real,
    amount: nat,
    rps: seq<Resource>)

  // ---------------------------------------------------------------------
  // Lookups

  /** Some resource in `rs` has kind `k`. */
  predicate Present(rs: seq<Resource>, k: ResourceType)
  {
    exists j :: 0 <= j < |rs| && rs[j].kind == k
  }

  /** `i` is the index that `rs.find(r => r.type === k)` lands on. */
  predicate IsFirst(rs: seq<Resource>, i: int, k: ResourceType)
  {
    0 <= i < |rs| && rs[i].kind == k && forall j :: 0 <= j < i ==> rs[j].kind != k
  }

  /** No two resources of `rs` share a kind. */
  predicate UniqueKinds(rs: seq<Resource>)
  {
    forall i, j :: 0 <= i < j < |rs| ==> rs[i].kind != rs[j].kind
  }

  /** Array `find` on the kind: the first match, or none. */
  function FindResource(rs: seq<Resource>, k: ResourceType): (r: Option<nat>)
    ensures r.Some? ==> IsFirst(rs, r.value, k)
    ensures r.None? ==> !Present(rs, k)
  {
    if rs == [] then None
    else if rs[0].kind == k then Some(0)
    else match FindResource(rs[1..], k)
      case None => None
      case Some(i) => Some(i + 1)
  }

  lemma FirstIsUnique(rs: seq<Resource>, i: int, j: int, k: ResourceType)
    requires IsFirst(rs, i, k) && IsFirst(rs, j, k)
    ensures i == j
  {
  }

  // ---------------------------------------------------------------------
  // Affordability

  /** `resources.some(r => r.type === c.type && r.amount >= c.amount)`. */
  function Covers(rs: seq<Resource>, c: Resource): (b: bool)
    ensures b <==> exists j :: 0 <= j < |rs| && rs[j].kind == c.kind && rs[j].amount >= c.amount
  {
    |rs| > 0 && ((rs[0].kind == c.kind && rs[0].amount >= c.amount) || Covers(rs[1..], c))
  }

  /** `cost.every(c => Covers(resources, c))`: every cost entry is covered
      by SOME resource of its kind, not necessarily the first one. */
  function MatchesCost(rs: seq<Resource>, cost: seq<Resource>): (ok: bool)
    ensures ok <==> forall m :: 0 <= m < |cost| ==> Covers(rs, cost[m])
  {
    |cost| == 0 || (Covers(rs, cost[0]) && MatchesCost(rs, cost[1..]))
  }

  /** An empty cost is always affordable. */
  lemma EmptyCostMatches(rs: seq<Resource>)
    ensures MatchesCost(rs, [])
  {
  }

  /** A cost entry whose kind is absent from the resources makes the check fail. */
  lemma AbsentKindFails(rs: seq<Resource>, cost: seq<Resource>, m: int)
    requires 0 <= m < |cost| && !Present(rs, cost[m].kind)
    ensures !MatchesCost(rs, cost)
  {
  }

  /** Affordability is monotone: if every resource of `rs` is matched by some
      resource of `rs'` of the same kind holding at least as much, in any
      order and with any extra entries, a cost `rs` affords `rs'` affords. */
  lemma MatchesCostMonotone(rs: seq<Resource>, rs': seq<Resource>, cost: seq<Resource>)
    requires MatchesCost(rs, cost)
    requires forall j :: 0 <= j < |rs| ==>
      exists j' :: 0 <= j' < |rs'| && rs'[j'].kind == rs[j].kind && rs'[j'].amount >= rs[j].amount
    ensures MatchesCost(rs', cost)
  {
    forall m | 0 <= m < |cost|
      ensures Covers(rs', cost[m])
    {
      assert Covers(rs, cost[m]);
      var j :| 0 <= j < |rs| && rs[j].kind == cost[m].kind && rs[j].amount >= cost[m].amount;
      var j' :| 0 <= j' < |rs'| && rs'[j'].kind == rs[j].kind && rs'[j'].amount >= rs[j].amount;
      assert rs'[j'].kind == cost[m].kind && rs'[j'].amount >= cost[m].amount;
    }
  }

  /** A matched cost names only kinds that are present. */
  lemma MatchesCostPresent(rs: seq<Resource>, cost: seq<Resource>)
    requires MatchesCost(rs, cost)
    ensures forall m :: 0 <= m < |cost| ==> Present(rs, cost[m].kind)
  {
    forall m | 0 <= m < |cost|
      ensures Present(rs, cost[m].kind)
    {
      assert Covers(rs, cost[m]);
    }
  }

  // ---------------------------------------------------------------------
  // Debit

  /** Sum of the amounts of the entries of kind `k` in `cost`. */
  function CostOf(cost: seq<Resource>, k: ResourceType): real
  {
    if cost == [] then 0.0
    else (if cost[0].kind == k then cost[0].amount else 0.0) + CostOf(cost[1..], k)
  }

  /** `i` is the first resource of its kind in `rs`. */
  predicate FirstOfItsKind(rs: seq<Resource>, i: int)
    requires 0 <= i < |rs|
  {
    IsFirst(rs, i, rs[i].kind)
  }

  /** Two lists with the same kinds at the same places name the same kinds. */
  lemma SameKindsPresent(a: seq<Resource>, b: seq<Resource>)
    requires |a| == |b| && forall j :: 0 <= j < |a| ==> a[j].kind == b[j].kind
    ensures forall k :: Present(a, k) <==> Present(b, k)
  {
    forall k ensures Present(a, k) ==> Present(b, k) {
      if Present(a, k) {
        var j :| 0 <= j < |a| && a[j].kind == k;
        assert b[j].kind == k;
      }
    }
    forall k ensures Present(b, k) ==> Present(a, k) {
      if Present(b, k) {
        var j :| 0 <= j < |b| && b[j].kind == k;
        assert a[j].kind == k;
      }
    }
  }

  /** `resource.amount -= x` on the resource at index `i`. */
  function Debit(rs: seq<Resource>, i: nat, x: real): (r: seq<Resource>)
    requires i < |rs|
    ensures |r| == |rs| && forall j :: 0 <= j < |rs| ==> r[j].kind == rs[j].kind
    ensures forall k :: Present(r, k) <==> Present(rs, k)
    ensures r[i].amount == rs[i].amount - x
    ensures forall j :: 0 <= j < |rs| && j != i ==> r[j] == rs[j]
  {
    var r := rs[i := rs[i].(amount := rs[i].amount - x)];
    SameKindsPresent(r, rs);
    r
  }

  /** The resource list and the boolean that `subtractResources` leaves behind:
      cost entries are debited one after the other from the first resource of
      their kind; the first entry whose kind is missing stops the walk with
      `false`, and what was debited before stays debited. */
  function Subtract(rs: seq<Resource>, cost: seq<Resource>): (res: (seq<Resource>, bool))
    ensures |res.0| == |rs|
    ensures forall i :: 0 <= i < |rs| ==> res.0[i].kind == rs[i].kind
    ensures res.1 <==> forall m :: 0 <= m < |cost| ==> Present(rs, cost[m].kind)
    decreases |cost|
  {
    if cost == [] then (rs, true)
    else match FindResource(rs, cost[0].kind)
      case None => (rs, false)
      case Some(i) => Subtract(Debit(rs, i, cost[0].amount), cost[1..])
  }

  lemma DebitIs(rs: seq<Resource>, i: nat, x: real, r: Resource)
    requires i < |rs| && r == rs[i].(amount := rs[i].amount - x)
    ensures rs[i := r] == Debit(rs, i, x)
  {
  }

  /** The walk from entry `k` on stops there when its kind is missing... */
  lemma SubtractMissing(rs: seq<Resource>, cost: seq<Resource>, k: int)
    requires 0 <= k < |cost| && FindResource(rs, cost[k].kind).None?
    ensures Subtract(rs, cost[k..]) == (rs, false)
  {
    assert cost[k..][0] == cost[k];
  }

  /** ... and otherwise debits the first resource of that kind and goes on. */
  lemma SubtractFound(rs: seq<Resource>, cost: seq<Resource>, k: int, i: nat)
    requires 0 <= k < |cost| && FindResource(rs, cost[k].kind) == Some(i)
    ensures Subtract(rs, cost[k..]) == Subtract(Debit(rs, i, cost[k].amount), cost[k + 1..])
  {
    assert cost[k..][0] == cost[k] && cost[k..][1..] == cost[k + 1..];
  }

  /** `subtractResources`: debits `cost` from `resources` in place and says
      whether every cost kind was found. */
  method SubtractResources(resources: array<Resource>, cost: seq<Resource>) returns (ok: bool)
    modifies resources
    ensures (resources[..], ok) == Subtract(old(resources[..]), cost)
  {
    for k := 0 to |cost|
      invariant Subtract(resources[..], cost[k..]) == Subtract(old(resources[..]), cost)
    {
      ghost var before := resources[..];
      var found := FindResource(resources[..], cost[k].kind);
      if found.None? {
        SubtractMissing(before, cost, k);
        return false;
      }
      var i := found.value;
      SubtractFound(before, cost, k, i);
      var debited := resources[i].(amount := resources[i].amount - cost[k].amount);
      resources[i] := debited;
      assert resources[..] == before[i := debited];
      DebitIs(before, i, cost[k].amount, debited);
    }
    assert cost[|cost|..] == [];
    return true;
  }

  /** On success, the first resource of each kind has lost the summed cost of
      that kind; every other resource keeps its amount. */
  lemma {:induction false} SubtractAmounts(rs: seq<Resource>, cost: seq<Resource>)
    requires Subtract(rs, cost).1
    ensures forall i :: 0 <= i < |rs| ==>
      Subtract(rs, cost).0[i].amount ==
        rs[i].amount - (if FirstOfItsKind(rs, i) then CostOf(cost, rs[i].kind) else 0.0)
    decreases |cost|
  {
    if cost != [] {
      var m := FindResource(rs, cost[0].kind).value;
      var rs1 := Debit(rs, m, cost[0].amount);
      assert Subtract(rs, cost) == Subtract(rs1, cost[1..]);
      SubtractAmounts(rs1, cost[1..]);
      forall i | 0 <= i < |rs|
        ensures Subtract(rs, cost).0[i].amount ==
          rs[i].amount - (if FirstOfItsKind(rs, i) then CostOf(cost, rs[i].kind) else 0.0)
      {
        assert FirstOfItsKind(rs1, i) == FirstOfItsKind(rs, i);
        if i == m {
          assert FirstOfItsKind(rs, i);
        } else if rs[i].kind == cost[0].kind {
          assert m < i && rs[m].kind == rs[i].kind;
        }
      }
    }
  }

  /** Resources whose kind the cost does not name are left alone, whether the
      debit succeeds or not. */
  lemma {:induction false} SubtractUntouched(rs: seq<Resource>, cost: seq<Resource>, i: int)
    requires 0 <= i < |rs|
    requires forall m :: 0 <= m < |cost| ==> cost[m].kind != rs[i].kind
    ensures Subtract(rs, cost).0[i] == rs[i]
    decreases |cost|
  {
    if cost != [] {
      match FindResource(rs, cost[0].kind)
      case None =>
      case Some(m) =>
        SubtractUntouched(Debit(rs, m, cost[0].amount), cost[1..], i);
    }
  }

  /** The walk over `cost` stops at entry `k`: its kind is the first one
      missing, and the list left behind is what debiting the entries before
      it produces, a debit that itself succeeds. */
  predicate StopsAt(rs: seq<Resource>, cost: seq<Resource>, k: int)
  {
    && 0 <= k < |cost| && !Present(rs, cost[k].kind)
    && (forall m :: 0 <= m < k ==> Present(rs, cost[m].kind))
    && Subtract(rs, cost[..k]) == (Subtract(rs, cost).0, true)
  }

  /** No rollback: on failure the entries before the first missing kind
      stay debited. */
  lemma {:induction false} SubtractNoRollback(rs: seq<Resource>, cost: seq<Resource>)
    requires !Subtract(rs, cost).1
    ensures exists k :: StopsAt(rs, cost, k)
    decreases |cost|
  {
    match FindResource(rs, cost[0].kind)
    case None =>
      assert cost[..0] == [];
      assert StopsAt(rs, cost, 0);
    case Some(i) =>
      var rs1 := Debit(rs, i, cost[0].amount);
      SubtractNoRollback(rs1, cost[1..]);
      var k :| StopsAt(rs1, cost[1..], k);
      StopsAtStep(rs, cost, i, k);
  }

  lemma StopsAtStep(rs: seq<Resource>, cost: seq<Resource>, i: nat, k: int)
    requires cost != [] && FindResource(rs, cost[0].kind) == Some(i)
    requires StopsAt(Debit(rs, i, cost[0].amount), cost[1..], k)
    ensures StopsAt(rs, cost, k + 1)
  {
    var rs1 := Debit(rs, i, cost[0].amount);
    var tail := cost[1..];
    var pre := cost[..k + 1];
    assert Subtract(rs, cost) == Subtract(rs1, tail);
    assert pre[0] == cost[0] && pre[1..] == tail[..k];
    assert Subtract(rs, pre) == Subtract(rs1, tail[..k]);
    assert cost[k + 1] == tail[k];
    PresentBefore(rs, cost, i, k);
  }

  lemma PresentBefore(rs: seq<Resource>, cost: seq<Resource>, i: nat, k: int)
    requires 0 <= k < |cost| - 1 && IsFirst(rs, i, cost[0].kind)
    requires forall m :: 0 <= m < k ==> Present(Debit(rs, i, cost[0].amount), cost[1..][m].kind)
    ensures forall m :: 0 <= m < k + 1 ==> Present(rs, cost[m].kind)
  {
    var rs1 := Debit(rs, i, cost[0].amount);
    forall m | 0 <= m < k + 1
      ensures Present(rs, cost[m].kind)
    {
      if m > 0 {
        assert cost[m] == cost[1..][m - 1];
        assert Present(rs1, cost[m].kind);
      }
    }
  }

  /** A concrete instance of the missing rollback: the wood is debited even
      though the iron entry after it fails. */
  lemma NoRollbackExample()
    ensures Subtract([Resource(Wood, 10.0)], [Resource(Wood, 4.0), Resource(Iron, 1.0)])
         == ([Resource(Wood, 6.0)], false)
  {
    var rs := [Resource(Wood, 10.0)];
    var cost := [Resource(Wood, 4.0), Resource(Iron, 1.0)];
    var rs1 := [Resource(Wood, 6.0)];
    assert FindResource(rs, Wood) == Some(0);
    assert Debit(rs, 0, 4.0) == rs1;
    assert cost[1..] == [Resource(Iron, 1.0)];
    assert FindResource(rs1, Iron) == None by {
      assert FindResource(rs1[1..], Iron) == None;
    }
    assert Subtract(rs1, [Resource(Iron, 1.0)]) == (rs1, false);
  }

  /** `find` takes the first resource of a kind while `some` accepts any: with
      a repeated kind, a cost covered only by the second entry is matched, and
      the debit then lands on the first one and drives it negative. */
  lemma FirstMatchAnyMatch()
    ensures MatchesCost([Resource(Wood, 0.0), Resource(Wood, 10.0)], [Resource(Wood, 5.0)])
    ensures Subtract([Resource(Wood, 0.0), Resource(Wood, 10.0)], [Resource(Wood, 5.0)])
         == ([Resource(Wood, -5.0), Resource(Wood, 10.0)], true)
  {
    var rs := [Resource(Wood, 0.0), Resource(Wood, 10.0)];
    var cost := [Resource(Wood, 5.0)];
    assert Covers(rs, cost[0]) by { assert rs[1].kind == Wood && rs[1].amount >= 5.0; }
    assert FindResource(rs, Wood) == Some(0);
    var debited := rs[0].(amount := rs[0].amount - 5.0);
    DebitIs(rs, 0, 5.0, debited);
    assert rs[0 := debited] == [Resource(Wood, -5.0), Resource(Wood, 10.0)];
    assert cost[1..] == [];
    assert Subtract(rs, cost) == Subtract(Debit(rs, 0, 5.0), []);
  }

  /** With one entry per kind in `cost`, the summed cost of an entry's kind is
      that entry's amount. */
  lemma {:induction false} CostOfDistinct(cost: seq<Resource>, m: int)
    requires UniqueKinds(cost) && 0 <= m < |cost|
    ensures CostOf(cost, cost[m].kind) == cost[m].amount
    decreases |cost|
  {
    if m == 0 {
      CostOfAbsent(cost[1..], cost[0].kind);
    } else {
      CostOfDistinct(cost[1..], m - 1);
    }
  }

  /** A kind the cost does not name costs nothing. */
  lemma {:induction false} CostOfAbsent(cost: seq<Resource>, k: ResourceType)
    requires forall m :: 0 <= m < |cost| ==> cost[m].kind != k
    ensures CostOf(cost, k) == 0.0
    decreases |cost|
  {
    if cost != [] {
      CostOfAbsent(cost[1..], k);
    }
  }

  /** Check-then-act is safe: with unique resource kinds and a cost naming
      each kind once, a matched cost debits successfully and leaves every
      debited amount non-negative. */
  lemma SubtractAfterMatchNonNegative(rs: seq<Resource>, cost: seq<Resource>)
    requires UniqueKinds(rs) && UniqueKinds(cost) && MatchesCost(rs, cost)
    ensures Subtract(rs, cost).1
    ensures forall i, m :: 0 <= i < |rs| && 0 <= m < |cost| && cost[m].kind == rs[i].kind ==>
      Subtract(rs, cost).0[i].amount >= 0.0
  {
    MatchesCostPresent(rs, cost);
    SubtractAmounts(rs, cost);
    forall i, m | 0 <= i < |rs| && 0 <= m < |cost| && cost[m].kind == rs[i].kind
      ensures Subtract(rs, cost).0[i].amount >= 0.0
    {
      assert FirstOfItsKind(rs, i);
      CostOfDistinct(cost, m);
      assert Covers(rs, cost[m]);
      var j :| 0 <= j < |rs| && rs[j].kind == cost[m].kind && rs[j].amount >= cost[m].amount;
      assert j == i;
    }
  }

  // ---------------------------------------------------------------------
  // Resource creation helpers

  function MakeWood(a: real): (r: Resource)
    ensures r.kind == Wood && r.amount == a
  {
    Resource(Wood, a)
  }

  function MakeStone(a: real): (r: Resource)
    ensures r.kind == Stone && r.amount == a
  {
    Resource(Stone, a)
  }

  function MakeCoal(a: real): (r: Resource)
    ensures r.kind == Coal && r.amount == a
  {
    Resource(Coal, a)
  }

  function MakeIronOre(a: real): (r: Resource)
    ensures r.kind == IronOre && r.amount == a
  {
    Resource(IronOre, a)
  }

  function MakeIron(a: real): (r: Resource)
    ensures r.kind == Iron && r.amount == a
  {
    Resource(Iron, a)
  }

  function MakeResearch(a: real): (r: Resource)
    ensures r.kind == ResearchPoints && r.amount == a
  {
    Resource(ResearchPoints, a)
  }
}
