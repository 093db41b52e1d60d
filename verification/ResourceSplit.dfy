/** Splitting a machine's capacity among the services of the cluster in whole units. */
module ResourceSplit {

  const CPU_HEADROOM_PCT := 20
  const RAM_HEADROOM_PCT := 15

  datatype Weight = Weight(cpu: nat, ram: nat)

  datatype Resources = Resources(cpuRequest: nat, cpuLimit: nat, ramRequest: nat, ramLimit: nat)

  const WEIGHTS: seq<Weight> :=
    [Weight(31, 38), Weight(28, 20), Weight(16, 16), Weight(12, 10), Weight(8, 12), Weight(5, 4)]

  function UsableCpu(cores: nat): nat { cores * 1000 * (100 - CPU_HEADROOM_PCT) / 100 }

  function UsableRam(mib: nat): nat { mib * (100 - RAM_HEADROOM_PCT) / 100 }

  function Share(usable: nat, pct: nat): nat { usable * pct / 100 }

  /** Half of the limit, rounded down. */
  function Half(limit: nat): nat { limit / 2 }

  function Allocation(cpu: nat, ram: nat, w: Weight): Resources {
    Resources(Half(Share(cpu, w.cpu)), Share(cpu, w.cpu), Half(Share(ram, w.ram)), Share(ram, w.ram))
  }

  function Sum(xs: seq<nat>): nat {
    if xs == [] then 0 else xs[0] + Sum(xs[1..])
  }

  function Shares(usable: nat, pcts: seq<nat>): seq<nat> {
    if pcts == [] then [] else [Share(usable, pcts[0])] + Shares(usable, pcts[1..])
  }

  lemma ShareWithin(usable: nat, pct: nat)
    ensures 100 * Share(usable, pct) <= usable * pct <= 100 * Share(usable, pct) + 99
  {
  }

  lemma Distribute(a: nat, b: nat, c: nat)
    ensures a * (b + c) == a * b + a * c
  {
  }

  /** 100 times the shares lies within 99 per service of the exact total. */
  lemma {:induction false} SharesWithin(usable: nat, pcts: seq<nat>)
    ensures 100 * Sum(Shares(usable, pcts)) <= usable * Sum(pcts) <= 100 * Sum(Shares(usable, pcts)) + 99 * |pcts|
  {
    if pcts != [] {
      var s := Shares(usable, pcts);
      assert s[0] == Share(usable, pcts[0]) && s[1..] == Shares(usable, pcts[1..]);
      SharesWithin(usable, pcts[1..]);
      ShareWithin(usable, pcts[0]);
      Distribute(usable, pcts[0], Sum(pcts[1..]));
    }
  }

  /** Weights that sum to 100 never hand out more than there is, and waste less than one unit per
      service. */
  lemma SplitConserves(usable: nat, pcts: seq<nat>)
    requires Sum(pcts) == 100
    ensures Sum(Shares(usable, pcts)) <= usable
    ensures usable - Sum(Shares(usable, pcts)) < |pcts|
  {
    SharesWithin(usable, pcts);
  }

  function CpuPcts(weights: seq<Weight>): seq<nat> {
    seq(|weights|, i requires 0 <= i < |weights| => weights[i].cpu)
  }

  function RamPcts(weights: seq<Weight>): seq<nat> {
    seq(|weights|, i requires 0 <= i < |weights| => weights[i].ram)
  }

  function CpuLimits(allocs: seq<Resources>): seq<nat> {
    seq(|allocs|, i requires 0 <= i < |allocs| => allocs[i].cpuLimit)
  }

  function RamLimits(allocs: seq<Resources>): seq<nat> {
    seq(|allocs|, i requires 0 <= i < |allocs| => allocs[i].ramLimit)
  }

  lemma {:induction false} SharesAt(usable: nat, pcts: seq<nat>)
    ensures |Shares(usable, pcts)| == |pcts|
    ensures forall i :: 0 <= i < |pcts| ==> Shares(usable, pcts)[i] == Share(usable, pcts[i])
  {
    if pcts != [] {
      SharesAt(usable, pcts[1..]);
    }
  }

  lemma LimitsConserve(usable: nat, pcts: seq<nat>, limits: seq<nat>)
    requires |limits| == |pcts| && forall i :: 0 <= i < |pcts| ==> limits[i] == Share(usable, pcts[i])
    ensures Sum(pcts) == 100 ==> usable - |pcts| < Sum(limits) <= usable
  {
    SharesAt(usable, pcts);
    assert limits == Shares(usable, pcts);
    if Sum(pcts) == 100 {
      SplitConserves(usable, pcts);
    }
  }

  /** Every service gets its share of both resources as limit and half of it as request; limits made
      from weights that sum to 100 conserve the capacity. */
  method ComputeAllocations(cpu: nat, ram: nat, weights: seq<Weight>) returns (allocs: seq<Resources>)
    ensures |allocs| == |weights|
    ensures forall i :: 0 <= i < |weights| ==> allocs[i] == Allocation(cpu, ram, weights[i])
    ensures forall i :: 0 <= i < |weights| ==>
              && 100 * allocs[i].cpuLimit <= cpu * weights[i].cpu < 100 * (allocs[i].cpuLimit + 1)
              && 100 * allocs[i].ramLimit <= ram * weights[i].ram < 100 * (allocs[i].ramLimit + 1)
              && 2 * allocs[i].cpuRequest <= allocs[i].cpuLimit < 2 * (allocs[i].cpuRequest + 1)
              && 2 * allocs[i].ramRequest <= allocs[i].ramLimit < 2 * (allocs[i].ramRequest + 1)
    ensures Sum(CpuPcts(weights)) == 100 ==> cpu - |weights| < Sum(CpuLimits(allocs)) <= cpu
    ensures Sum(RamPcts(weights)) == 100 ==> ram - |weights| < Sum(RamLimits(allocs)) <= ram
  {
    allocs := [];
    for i := 0 to |weights|
      invariant |allocs| == i
      invariant forall j :: 0 <= j < i ==> allocs[j] == Allocation(cpu, ram, weights[j])
    {
      var limCpu := cpu * weights[i].cpu / 100;
      var limRam := ram * weights[i].ram / 100;
      allocs := allocs + [Resources(limCpu / 2, limCpu, limRam / 2, limRam)];
    }
    LimitsConserve(cpu, CpuPcts(weights), CpuLimits(allocs));
    LimitsConserve(ram, RamPcts(weights), RamLimits(allocs));
  }

  lemma {:induction false} SumOfSix(xs: seq<nat>)
    requires |xs| == 6
    ensures Sum(xs) == xs[0] + xs[1] + xs[2] + xs[3] + xs[4] + xs[5]
  {
    var five := xs[1..];
    var four := five[1..];
    var three := four[1..];
    var two := three[1..];
    var one := two[1..];
    assert one[1..] == [];
    assert Sum(one) == xs[5] && Sum(two) == xs[4] + Sum(one) && Sum(three) == xs[3] + Sum(two);
    assert Sum(four) == xs[2] + Sum(three) && Sum(five) == xs[1] + Sum(four);
  }

  /** The repository's weights sum to 100 in both columns, so on any machine its split conserves the
      usable CPU and the usable memory, wasting fewer than six units of either. */
  lemma RepositorySplitConserves(cores: nat, mib: nat)
    ensures var cpu := Sum(Shares(UsableCpu(cores), CpuPcts(WEIGHTS)));
            cpu <= UsableCpu(cores) < cpu + 6
    ensures var ram := Sum(Shares(UsableRam(mib), RamPcts(WEIGHTS)));
            ram <= UsableRam(mib) < ram + 6
  {
    SumOfSix(CpuPcts(WEIGHTS));
    SumOfSix(RamPcts(WEIGHTS));
    SplitConserves(UsableCpu(cores), CpuPcts(WEIGHTS));
    SplitConserves(UsableRam(mib), RamPcts(WEIGHTS));
  }

  /** The CPU requests of the repository's services, in table order. */
  function CpuRequests(usable: nat, weights: seq<Weight>): seq<nat> {
    if weights == [] then [] else [Half(Share(usable, weights[0].cpu))] + CpuRequests(usable, weights[1..])
  }

  lemma UsableCpuIs(cores: nat)
    ensures UsableCpu(cores) == 800 * cores
  {
  }

  /** A fifth of the CPU and 15 percent of the memory stay unused, to the unit. */
  lemma UsableIs(cores: nat, mib: nat)
    ensures UsableCpu(cores) == 800 * cores
    ensures 100 * UsableRam(mib) <= 85 * mib < 100 * (UsableRam(mib) + 1)
  {
    UsableCpuIs(cores);
  }

  lemma DivideExact(n: nat)
    ensures 100 * n / 100 == n
  {
  }

  /** Each request is a whole number of millicores per core: nothing is lost to rounding. */
  lemma RequestIs(cores: nat, pct: nat, perCore: nat)
    requires 8 * pct == 2 * perCore
    ensures Half(Share(800 * cores, pct)) == perCore * cores
  {
    assert 800 * cores * pct == 100 * (2 * (perCore * cores)) by {
      assert 800 * cores * pct == 100 * cores * (8 * pct);
      assert 100 * cores * (2 * perCore) == 100 * (2 * (perCore * cores));
    }
    DivideExact(2 * (perCore * cores));
  }

  lemma NodeHolds(cores: nat)
    ensures 400 * cores <= 800 * cores / 1000 * 1000 <==> cores != 1
  {
    var node := 800 * cores / 1000;
    assert 1000 * node <= 800 * cores < 1000 * node + 1000;
    assert node * 1000 == 1000 * node;
  }

  lemma RequestsStep(usable: nat, weights: seq<Weight>)
    requires weights != []
    ensures Sum(CpuRequests(usable, weights)) ==
            Half(Share(usable, weights[0].cpu)) + Sum(CpuRequests(usable, weights[1..]))
  {
    assert CpuRequests(usable, weights)[1..] == CpuRequests(usable, weights[1..]);
  }

  lemma SixRequests(usable: nat)
    ensures Sum(CpuRequests(usable, WEIGHTS)) ==
            Half(Share(usable, 31)) + Half(Share(usable, 28)) + Half(Share(usable, 16)) +
            Half(Share(usable, 12)) + Half(Share(usable, 8)) + Half(Share(usable, 5))
  {
    var five := [Weight(28, 20), Weight(16, 16), Weight(12, 10), Weight(8, 12), Weight(5, 4)];
    var four := five[1..];
    var three := four[1..];
    var two := three[1..];
    var one := two[1..];
    assert WEIGHTS == [Weight(31, 38)] + five && WEIGHTS[1..] == five;
    assert one == [Weight(5, 4)] && one[1..] == [];
    RequestsStep(usable, WEIGHTS);
    RequestsStep(usable, five);
    RequestsStep(usable, four);
    RequestsStep(usable, three);
    RequestsStep(usable, two);
    RequestsStep(usable, one);
  }

  /** With the repository's weights, all CPU requests together fit the whole-core node exactly when
      the machine does not have a single core. */
  lemma RequestsFitNodeIff(cores: nat)
    ensures Sum(CpuRequests(UsableCpu(cores), WEIGHTS)) <= UsableCpu(cores) / 1000 * 1000 <==> cores != 1
  {
    UsableCpuIs(cores);
    RequestIs(cores, 31, 124);
    RequestIs(cores, 28, 112);
    RequestIs(cores, 16, 64);
    RequestIs(cores, 12, 48);
    RequestIs(cores, 8, 32);
    RequestIs(cores, 5, 20);
    SixRequests(800 * cores);
    NodeHolds(cores);
  }
}
