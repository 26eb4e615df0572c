/** The building catalog and the starting state, with the facts about them
    that the rest of the game relies on. */
module Catalog {
  import opened Data
  import opened Reducer

  const WoodcutterBuilding: Building :=
    Building(Woodcutter, [MakeWood(5.0), MakeStone(10.0)], 1.2, 0, [MakeWood(1.0)])

  const QuarryBuilding: Building :=
    Building(Quarry, [MakeWood(10.0), MakeStone(5.0)], 1.2, 0, [MakeStone(1.0)])

  const CoalMinerBuilding: Building :=
    Building(CoalMiner, [MakeWood(50.0), MakeStone(75.0)], 1.2, 0, [MakeCoal(1.0)])

  const IronMinerBuilding: Building :=
    Building(IronMiner, [MakeWood(150.0), MakeStone(100.0), MakeIron(5.0)], 1.2, 0, [MakeIronOre(1.0)])

  const FurnaceBuilding: Building :=
    Building(Furnace, [MakeWood(100.0), MakeStone(150.0), MakeCoal(5.0)], 1.2, 0,
             [MakeIron(1.0), MakeIronOre(-1.0), MakeCoal(-2.0)])

  const LabBuilding: Building :=
    Building(Laboratory, [MakeWood(500.0), MakeStone(500.0), MakeIron(75.0)], 1.2, 0, [MakeResearch(1.0)])

  /** Offline catch-up configuration: the share of production credited while
      away, and the longest away time credited, in milliseconds. */
  const OfflineMultiplier: real := 0.2
  const MaxCatchupTime: nat := 1000 * 60 * 60

  const InitialResources: seq<Resource> :=
    [MakeWood(0.0), MakeStone(0.0), MakeCoal(0.0), MakeIronOre(0.0), MakeResearch(0.0)]

  const InitialBuildings: seq<Building> :=
    [WoodcutterBuilding, QuarryBuilding, CoalMinerBuilding, IronMinerBuilding, FurnaceBuilding, LabBuilding]

  /** The starting state; the catalog sets no tick rate, so it is a parameter. */
  function InitialState(tps: real): (s: State)
    ensures s.tps == tps
    ensures WellFormed(s)
  {
    var s := State(tps, InitialResources, InitialBuildings);
    InitialWellFormed(tps);
    s
  }

  lemma InitialWellFormed(tps: real)
    ensures WellFormed(State(tps, InitialResources, InitialBuildings))
  {
    var bs := InitialBuildings;
    assert forall j :: 0 <= j < |bs| ==> UniqueKinds(bs[j].cost);
  }

  /** Every building starts unowned, with multiplier 1.2, so costs grow, and
      with positive cost amounts. */
  lemma InitialBuildingsFacts()
    ensures |InitialBuildings| == 6
    ensures forall j :: 0 <= j < |InitialBuildings| ==>
      InitialBuildings[j].amount == 0 && InitialBuildings[j].costMultiplier == 1.2
      && InitialBuildings[j].costMultiplier > 1.0
    ensures forall j, m :: 0 <= j < |InitialBuildings| && 0 <= m < |InitialBuildings[j].cost| ==>
      InitialBuildings[j].cost[m].amount > 0.0
    ensures forall k: BuildingType :: BuildingPresent(InitialBuildings, k)
  {
    var bs := InitialBuildings;
    forall k: BuildingType ensures BuildingPresent(bs, k) {
      match k
      case Woodcutter => assert bs[0].kind == k;
      case Quarry => assert bs[1].kind == k;
      case CoalMiner => assert bs[2].kind == k;
      case IronMiner => assert bs[3].kind == k;
      case Furnace => assert bs[4].kind == k;
      case Laboratory => assert bs[5].kind == k;
    }
  }

  /** The starting resources are all zero, and iron is not among them. */
  lemma InitialResourcesZero()
    ensures forall i :: 0 <= i < |InitialResources| ==> InitialResources[i].amount == 0.0
    ensures !Present(InitialResources, Iron)
  {
    var ir := InitialResources;
    assert forall j :: 0 <= j < |ir| ==> ir[j].kind != Iron;
  }

  /** A positive first cost entry cannot be matched from empty stocks. */
  lemma NothingAffordableFromZero(rs: seq<Resource>, cost: seq<Resource>)
    requires forall i :: 0 <= i < |rs| ==> rs[i].amount <= 0.0
    requires |cost| > 0 && cost[0].amount > 0.0
    ensures !MatchesCost(rs, cost)
  {
    assert forall j :: 0 <= j < |rs| ==> rs[j].amount < cost[0].amount;
  }

  /** Nothing is affordable at the start. */
  lemma NothingAffordableAtStart()
    ensures forall j :: 0 <= j < |InitialBuildings| ==> !MatchesCost(InitialResources, InitialBuildings[j].cost)
  {
    forall j | 0 <= j < |InitialBuildings|
      ensures !MatchesCost(InitialResources, InitialBuildings[j].cost)
    {
      NothingAffordableFromZero(InitialResources, InitialBuildings[j].cost);
    }
  }

  /** The iron miner stays unaffordable while every iron entry holds less
      than the 5 iron it costs. */
  lemma IronGatesMiner(rs: seq<Resource>)
    requires forall i :: 0 <= i < |rs| && rs[i].kind == Iron ==> rs[i].amount < 5.0
    ensures !MatchesCost(rs, IronMinerBuilding.cost)
  {
    var c := IronMinerBuilding.cost[2];
    assert c == Resource(Iron, 5.0);
    assert !Covers(rs, c);
  }

  /** The laboratory stays unaffordable while every iron entry holds less
      than the 75 iron it costs. */
  lemma IronGatesLab(rs: seq<Resource>)
    requires forall i :: 0 <= i < |rs| && rs[i].kind == Iron ==> rs[i].amount < 75.0
    ensures !MatchesCost(rs, LabBuilding.cost)
  {
    var c := LabBuilding.cost[2];
    assert c == Resource(Iron, 75.0);
    assert !Covers(rs, c);
  }

  /** The furnace is the only consumer: it turns one iron ore and two coal
      into one iron; every other rate is positive. */
  lemma FurnaceOnlyConsumer()
    ensures FurnaceBuilding.rps == [Resource(Iron, 1.0), Resource(IronOre, -1.0), Resource(Coal, -2.0)]
    ensures forall j, k :: 0 <= j < |InitialBuildings| && 0 <= k < |InitialBuildings[j].rps| ==>
      (InitialBuildings[j].rps[k].amount < 0.0 <==> (InitialBuildings[j].kind == Furnace && k > 0))
  {
  }

  /** Every state reachable from the start is well formed. */
  lemma ReachableWellFormed(tps: real, acts: seq<Action>)
    ensures WellFormed(Dispatch(InitialState(tps), acts))
  {
    DispatchPreservesWellFormed(InitialState(tps), acts);
  }

  /** The offline share lies in [0, 1] and at most an hour is credited. */
  lemma OfflineConfigFacts()
    ensures 0.0 <= OfflineMultiplier <= 1.0
    ensures MaxCatchupTime == 3600000
  {
  }
}
