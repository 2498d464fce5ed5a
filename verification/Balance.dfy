/** Balancing regions and leaders over stores (internal/pd/scheduler.go, internal/pd/server.go): each completed move
    lowers the sum of the squared store loads, so balancing comes to rest. */
module Balance {
  import opened Bytes

  /** The stores of each region's peers; for leaders, one store per region. Store 0 does not exist. */
  type Placement = map<nat, set<nat>>

  /** Loads by store; a store that is missing has none. */
  type Counts = map<nat, nat>

  ghost function RegionsOn(p: Placement, s: nat): set<nat> {
    set r | r in p && s in p[r]
  }

  ghost function CountOn(p: Placement, s: nat): nat {
    |RegionsOn(p, s)|
  }

  function Load(counts: Counts, s: nat): nat {
    if s in counts then counts[s] else 0
  }

  ghost predicate CountsOf(counts: Counts, p: Placement) {
    forall s: nat :: Load(counts, s) == CountOn(p, s)
  }

  // ----- Counting -----

  /** GetRegionCountPerStore, and on a placement of leaders GetLeaderCountPerStore. */
  method CountPerStore(p: Placement) returns (counts: Counts)
    ensures CountsOf(counts, p)
  {
    counts := map[];
    var left := p.Keys;
    ghost var done: Placement := map[];
    assert forall s: nat :: RegionsOn(done, s) == {};
    while left != {}
      invariant left <= p.Keys && done == map r | r in p && r !in left :: p[r]
      invariant CountsOf(counts, done)
      decreases |left|
    {
      var r :| r in left;
      left := left - {r};
      var next := CountPeers(counts, p[r]);
      CountsAdded(counts, next, done, r, p[r]);
      counts, done := next, done[r := p[r]];
    }
    assert done == p;
  }

  /** `counts` is `before` with one more for each of `stores`. */
  ghost predicate OneMore(before: Counts, counts: Counts, stores: set<nat>) {
    forall s: nat :: Load(counts, s) == Load(before, s) + (if s in stores then 1 else 0)
  }

  /** Adds one region to the counts of its stores. */
  method CountPeers(before: Counts, stores: set<nat>) returns (counts: Counts)
    ensures OneMore(before, counts, stores)
  {
    counts := before;
    var left, done := stores, {};
    while left != {}
      invariant left + done == stores && left !! done && OneMore(before, counts, done)
      decreases |left|
    {
      var s :| s in left;
      OneMoreStep(before, counts, done, s);
      counts := counts[s := Load(counts, s) + 1];
      left, done := left - {s}, done + {s};
    }
    assert done == stores;
  }

  lemma OneMoreStep(before: Counts, counts: Counts, done: set<nat>, s: nat)
    requires OneMore(before, counts, done) && s !in done
    ensures OneMore(before, counts[s := Load(counts, s) + 1], done + {s})
  {
  }

  lemma CountsAdded(before: Counts, counts: Counts, p: Placement, r: nat, stores: set<nat>)
    requires CountsOf(before, p) && r !in p && OneMore(before, counts, stores)
    ensures CountsOf(counts, p[r := stores])
  {
    forall s: nat ensures Load(counts, s) == CountOn(p[r := stores], s) {
      AddRegion(p, r, stores, s);
    }
  }

  lemma AddRegion(p: Placement, r: nat, stores: set<nat>, s: nat)
    requires r !in p
    ensures CountOn(p[r := stores], s) == CountOn(p, s) + (if s in stores then 1 else 0)
  {
    assert RegionsOn(p[r := stores], s) == RegionsOn(p, s) + (if s in stores then {r} else {});
  }

  // ----- The potential -----

  ghost predicate Distinct(us: seq<nat>) {
    forall i, j | 0 <= i < j < |us| :: us[i] != us[j]
  }

  /** The sum of squared loads over the stores `us`. */
  ghost function Potential(p: Placement, us: seq<nat>): nat {
    if us == [] then 0 else Potential(p, us[..|us| - 1]) + CountOn(p, us[|us| - 1]) * CountOn(p, us[|us| - 1])
  }

  /** Region `r` gives up its peer (or leader) on `a` for one on `b`. */
  function Move(p: Placement, r: nat, a: nat, b: nat): Placement
    requires r in p
  {
    p[r := p[r] - {a} + {b}]
  }

  ghost predicate Movable(p: Placement, r: nat, a: nat, b: nat) {
    r in p && a in p[r] && b !in p[r]
  }

  lemma CountAfterMove(p: Placement, r: nat, a: nat, b: nat, s: nat)
    requires Movable(p, r, a, b)
    ensures CountOn(Move(p, r, a, b), s) == CountOn(p, s) + (if s == b then 1 else 0) - (if s == a then 1 else 0)
  {
    var q := Move(p, r, a, b);
    if s == b {
      assert RegionsOn(q, s) == RegionsOn(p, s) + {r};
    } else if s == a {
      assert RegionsOn(q, s) == RegionsOn(p, s) - {r};
      assert r in RegionsOn(p, s);
    } else {
      assert RegionsOn(q, s) == RegionsOn(p, s);
    }
  }

  /** What a move adds to the potential of a list of distinct stores. */
  ghost function MoveEffect(p: Placement, a: nat, b: nat, us: seq<nat>): int {
    (if a in us then 1 - 2 * CountOn(p, a) else 0) + (if b in us then 2 * CountOn(p, b) + 1 else 0)
  }

  lemma {:induction false} PotentialMoved(p: Placement, r: nat, a: nat, b: nat, us: seq<nat>)
    requires Movable(p, r, a, b) && Distinct(us)
    ensures Potential(Move(p, r, a, b), us) == Potential(p, us) + MoveEffect(p, a, b, us)
  {
    if us != [] {
      var n := |us| - 1;
      var s := us[n];
      PotentialMoved(p, r, a, b, us[..n]);
      CountAfterMove(p, r, a, b, s);
      assert us == us[..n] + [s] && s !in us[..n];
      var c := CountOn(p, s);
      if s == a {
        Square(c, -1);
      } else if s == b {
        Square(c, 1);
      }
    }
  }

  lemma Square(c: int, d: int)
    ensures (c + d) * (c + d) == c * c + 2 * c * d + d * d
  {
  }

  /** A move lowers the potential by twice the difference of the loads less two. */
  lemma MoveLowersPotential(p: Placement, r: nat, a: nat, b: nat, us: seq<nat>)
    requires Movable(p, r, a, b) && Distinct(us) && a in us && b in us
    ensures Potential(Move(p, r, a, b), us) == Potential(p, us) - 2 * (CountOn(p, a) - CountOn(p, b)) + 2
  {
    PotentialMoved(p, r, a, b, us);
  }

  // ----- Region balance -----

  /** The mean load of the schedulable stores. */
  ghost function Total(counts: Counts, stores: seq<nat>, up: set<nat>): nat {
    if stores == [] then 0
    else
      var last := stores[|stores| - 1];
      Total(counts, stores[..|stores| - 1], up) + (if last in up then Load(counts, last) else 0)
  }

  ghost function Schedulable(stores: seq<nat>, up: set<nat>): nat {
    if stores == [] then 0 else Schedulable(stores[..|stores| - 1], up) + (if stores[|stores| - 1] in up then 1 else 0)
  }

  ghost function Mean(counts: Counts, stores: seq<nat>, up: set<nat>): real
    requires Schedulable(stores, up) > 0
  {
    Total(counts, stores, up) as real / Schedulable(stores, up) as real
  }

  predicate Overloaded(count: nat, mean: real, threshold: real) {
    count > mean.Floor + 1 && count as real > mean * (1.0 + threshold)
  }

  predicate Underloaded(count: nat, mean: real, threshold: real) {
    count < mean.Floor && (count as real) < mean * (1.0 - threshold)
  }

  method MeanLoad(counts: Counts, stores: seq<nat>, up: set<nat>) returns (mean: Option<real>)
    ensures mean.None? <==> Schedulable(stores, up) == 0
    ensures mean.Some? ==> mean.value == Mean(counts, stores, up)
  {
    var total, n := 0, 0;
    for i := 0 to |stores|
      invariant total == Total(counts, stores[..i], up) && n == Schedulable(stores[..i], up)
    {
      assert stores[..i + 1][..i] == stores[..i];
      if stores[i] in up {
        total, n := total + Load(counts, stores[i]), n + 1;
      }
    }
    assert stores[..|stores|] == stores;
    if n == 0 {
      return None;
    }
    return Some(total as real / n as real);
  }

  /** The decision of scheduleRegionBalance: from which peer's store to which other store. */
  method ScheduleRegionBalance(counts: Counts, stores: seq<nat>, up: set<nat>, peers: seq<nat>, threshold: real)
    returns (move: Option<(nat, nat)>)
    requires 0 !in stores
    ensures move.Some? ==>
              && Schedulable(stores, up) > 0
              && move.value.0 in peers && Overloaded(Load(counts, move.value.0), Mean(counts, stores, up), threshold)
              && move.value.1 in stores && move.value.1 in up && move.value.1 !in peers
              && Underloaded(Load(counts, move.value.1), Mean(counts, stores, up), threshold)
    ensures move.Some? ==>
              var mean := Mean(counts, stores, up);
              && (exists i :: 0 <= i < |peers| && peers[i] == move.value.0
                              && forall j | 0 <= j < i :: !Overloaded(Load(counts, peers[j]), mean, threshold))
              && (exists i :: 0 <= i < |stores| && stores[i] == move.value.1
                              && forall j | 0 <= j < i && stores[j] in up && stores[j] !in peers ::
                                 !Underloaded(Load(counts, stores[j]), mean, threshold))
    ensures move.None? && Schedulable(stores, up) > 0 ==>
              || (forall s | s in peers :: !Overloaded(Load(counts, s), Mean(counts, stores, up), threshold))
              || (forall s | s in stores && s in up && s !in peers ::
                 !Underloaded(Load(counts, s), Mean(counts, stores, up), threshold))
  {
    var mean := MeanLoad(counts, stores, up);
    if mean.None? {
      return None;
    }
    var source := FindOverloaded(counts, peers, mean.value, threshold);
    if source.None? {
      return None;
    }
    var target := 0;
    ghost var at := 0;
    for i := 0 to |stores|
      invariant target == 0
      invariant forall j | 0 <= j < i && stores[j] in up && stores[j] !in peers ::
          !Underloaded(Load(counts, stores[j]), mean.value, threshold)
    {
      var s := stores[i];
      if s !in peers && s in up && Underloaded(Load(counts, s), mean.value, threshold) {
        target, at := s, i;
        break;
      }
    }
    if target == 0 {
      return None;
    }
    assert stores[at] == target;
    return Some((source.value, target));
  }

  method FindOverloaded(counts: Counts, peers: seq<nat>, mean: real, threshold: real) returns (source: Option<nat>)
    ensures source.Some? ==> source.value in peers && Overloaded(Load(counts, source.value), mean, threshold)
    ensures source.Some? ==>
              exists i :: 0 <= i < |peers| && peers[i] == source.value
                          && forall j | 0 <= j < i :: !Overloaded(Load(counts, peers[j]), mean, threshold)
    ensures source.None? ==> forall s | s in peers :: !Overloaded(Load(counts, s), mean, threshold)
  {
    for i := 0 to |peers|
      invariant forall j | 0 <= j < i :: !Overloaded(Load(counts, peers[j]), mean, threshold)
    {
      if Overloaded(Load(counts, peers[i]), mean, threshold) {
        return Some(peers[i]);
      }
    }
    return None;
  }

  // ----- What the mean is -----

  /** Loads of stores that are not schedulable do not matter. */
  lemma {:induction false} MeanIgnoresDown(counts: Counts, counts': Counts, stores: seq<nat>, up: set<nat>)
    requires forall s | s in stores && s in up :: Load(counts, s) == Load(counts', s)
    ensures Total(counts, stores, up) == Total(counts', stores, up)
    ensures Schedulable(stores, up) > 0 ==> Mean(counts, stores, up) == Mean(counts', stores, up)
  {
    if stores != [] {
      MeanIgnoresDown(counts, counts', stores[..|stores| - 1], up);
    }
  }

  lemma {:induction false} TotalBetween(counts: Counts, stores: seq<nat>, up: set<nat>, lo: nat, hi: nat)
    requires forall s | s in stores && s in up :: lo <= Load(counts, s) <= hi
    ensures lo * Schedulable(stores, up) <= Total(counts, stores, up) <= hi * Schedulable(stores, up)
  {
    if stores != [] {
      TotalBetween(counts, stores[..|stores| - 1], up, lo, hi);
      OneMoreTimes(lo, Schedulable(stores[..|stores| - 1], up));
      OneMoreTimes(hi, Schedulable(stores[..|stores| - 1], up));
    }
  }

  lemma OneMoreTimes(a: nat, n: nat)
    ensures a * (n + 1) == a * n + a
  {
  }

  lemma LessTimes(a: real, b: real, n: real)
    requires a < b && n > 0.0
    ensures a * n < b * n
  {
  }

  lemma RatioTimes(t: nat, n: nat)
    requires n > 0
    ensures (t as real / n as real) * n as real == t as real
  {
  }

  lemma RatioBetween(t: nat, n: nat, lo: nat, hi: nat)
    requires n > 0 && lo * n <= t <= hi * n
    ensures lo as real <= t as real / n as real <= hi as real
  {
    var q, d := t as real / n as real, n as real;
    RatioTimes(t, n);
    assert lo as real * d == (lo * n) as real && hi as real * d == (hi * n) as real;
    if q < lo as real {
      LessTimes(q, lo as real, d);
    }
    if hi as real < q {
      LessTimes(hi as real, q, d);
    }
  }

  /** The mean lies between the smallest and the largest load of a schedulable store. */
  lemma MeanBetween(counts: Counts, stores: seq<nat>, up: set<nat>, lo: nat, hi: nat)
    requires Schedulable(stores, up) > 0 && forall s | s in stores && s in up :: lo <= Load(counts, s) <= hi
    ensures lo as real <= Mean(counts, stores, up) <= hi as real
  {
    TotalBetween(counts, stores, up, lo, hi);
    RatioBetween(Total(counts, stores, up), Schedulable(stores, up), lo, hi);
  }

  lemma {:induction false} TotalGrows(counts: Counts, stores: seq<nat>, up: set<nat>, s: nat)
    requires Distinct(stores)
    ensures Total(counts[s := Load(counts, s) + 1], stores, up)
         == Total(counts, stores, up) + if s in stores && s in up then 1 else 0
  {
    if stores != [] {
      var n := |stores| - 1;
      TotalGrows(counts, stores[..n], up, s);
      assert stores == stores[..n] + [stores[n]];
    }
  }

  /** One more region on a schedulable store adds one to the mean times the number of schedulable stores; on any other
      store it adds nothing. */
  lemma MeanGrows(counts: Counts, stores: seq<nat>, up: set<nat>, s: nat)
    requires Distinct(stores) && Schedulable(stores, up) > 0
    ensures MeanTimes(counts[s := Load(counts, s) + 1], stores, up)
         == MeanTimes(counts, stores, up) + if s in stores && s in up then 1.0 else 0.0
  {
    TotalGrows(counts, stores, up, s);
    MeanTimesIs(counts, stores, up);
    MeanTimesIs(counts[s := Load(counts, s) + 1], stores, up);
  }

  /** The mean times the number of schedulable stores. */
  ghost function MeanTimes(counts: Counts, stores: seq<nat>, up: set<nat>): real
    requires Schedulable(stores, up) > 0
  {
    Times(Mean(counts, stores, up), Schedulable(stores, up))
  }

  ghost function Times(a: real, n: nat): real { a * n as real }

  lemma MeanTimesIs(counts: Counts, stores: seq<nat>, up: set<nat>)
    requires Schedulable(stores, up) > 0
    ensures MeanTimes(counts, stores, up) == Total(counts, stores, up) as real
  {
    RatioTimes(Total(counts, stores, up), Schedulable(stores, up));
  }

  ghost function UpStores(stores: seq<nat>, up: set<nat>): set<nat> {
    set s | s in stores && s in up
  }

  /** The number of schedulable stores. */
  lemma {:induction false} SchedulableIs(stores: seq<nat>, up: set<nat>)
    requires Distinct(stores)
    ensures Schedulable(stores, up) == |UpStores(stores, up)|
  {
    if stores != [] {
      var n := |stores| - 1;
      var s := stores[n];
      SchedulableIs(stores[..n], up);
      assert stores == stores[..n] + [s] && s !in stores[..n];
      assert UpStores(stores, up) == UpStores(stores[..n], up) + if s in up then {s} else {};
    }
  }

  /** The guards: with one region less an overloaded store still lies above the mean, with one more an underloaded store
      does not; and both are off the mean by more than the threshold. */
  lemma GuardsExactly(c: nat, mean: real, threshold: real)
    ensures Overloaded(c, mean, threshold) <==> c as real - 1.0 > mean && c as real - mean > mean * threshold
    ensures Underloaded(c, mean, threshold) <==> c as real + 1.0 <= mean && mean - c as real > mean * threshold
  {
    assert mean * (1.0 + threshold) == mean + mean * threshold && mean * (1.0 - threshold) == mean - mean * threshold;
    assert mean.Floor as real <= mean < mean.Floor as real + 1.0;
  }

  /** A store that is overloaded has at least three more than one that is underloaded. */
  lemma OverloadedIsThreeAhead(c: nat, d: nat, mean: real, threshold: real)
    requires Overloaded(c, mean, threshold) && Underloaded(d, mean, threshold)
    ensures c >= d + 3
  {
  }

  // ----- Leader balance -----

  /** Peer `k` is on store `s`, and the schedulable ones before it have more leaders. */
  ghost predicate IsFirstLeast(counts: Counts, up: set<nat>, peers: seq<nat>, k: nat, s: nat)
    requires k < |peers|
  {
    peers[k] == s && forall j | 0 <= j < k && peers[j] in up :: Load(counts, s) < Load(counts, peers[j])
  }

  /** scheduleLeaderBalance: the schedulable peer store with the fewest leaders, if it has at least two fewer. */
  method ScheduleLeaderBalance(counts: Counts, up: set<nat>, peers: seq<nat>, leader: nat) returns (target: Option<nat>)
    requires 0 !in peers
    ensures target.Some? ==>
              && target.value in peers && target.value in up && target.value != leader
              && Load(counts, leader) >= Load(counts, target.value) + 2
              && forall s | s in peers && s in up :: Load(counts, target.value) <= Load(counts, s)
    ensures target.Some? ==> exists i :: 0 <= i < |peers| && IsFirstLeast(counts, up, peers, i, target.value)
    ensures target.None? ==> forall s | s in peers && s in up :: Load(counts, leader) <= Load(counts, s) + 1
  {
    var best := 0;
    for i := 0 to |peers|
      invariant best == 0 ==> forall j | 0 <= j < i :: peers[j] !in up
      invariant best != 0 ==> best in peers && best in up && forall j | 0 <= j < i && peers[j] in up ::
          Load(counts, best) <= Load(counts, peers[j])
      invariant best != 0 ==> exists k :: 0 <= k < i && IsFirstLeast(counts, up, peers, k, best)
    {
      var s := peers[i];
      if s in up && (best == 0 || Load(counts, s) < Load(counts, best)) {
        best := s;
        assert IsFirstLeast(counts, up, peers, i, best);
      }
    }
    if best != 0 && best != leader && Load(counts, leader) - Load(counts, best) > 1 {
      return Some(best);
    }
    return None;
  }

  // ----- Leaders -----

  /** Each region has its leader on one of its own stores. */
  ghost predicate Consistent(c: Cluster) {
    && c.leaders.Keys <= c.regions.Keys
    && forall r | r in c.leaders :: |c.leaders[r]| == 1 && c.leaders[r] <= c.regions[r]
  }

  ghost function Sum(p: Placement, us: seq<nat>): nat {
    if us == [] then 0 else Sum(p, us[..|us| - 1]) + CountOn(p, us[|us| - 1])
  }

  ghost function Covered(p: Placement, us: seq<nat>): set<nat> {
    if us == [] then {} else Covered(p, us[..|us| - 1]) + RegionsOn(p, us[|us| - 1])
  }

  /** A region on one store only is not on the others. */
  lemma {:induction false} NotCovered(p: Placement, us: seq<nat>, r: nat, s: nat)
    requires r in p && |p[r]| == 1 && s in p[r] && s !in us
    ensures r !in Covered(p, us)
  {
    if us != [] {
      NotCovered(p, us[..|us| - 1], r, s);
      OneStore(p[r], s);
    }
  }

  /** Regions with one store each are counted once. */
  lemma {:induction false} SumIsCovered(p: Placement, us: seq<nat>)
    requires Distinct(us) && forall r | r in p :: |p[r]| == 1
    ensures Sum(p, us) == |Covered(p, us)| && Covered(p, us) <= p.Keys
  {
    if us != [] {
      var n := |us| - 1;
      SumIsCovered(p, us[..n]);
      forall r | r in RegionsOn(p, us[n]) ensures r !in Covered(p, us[..n]) {
        NotCovered(p, us[..n], r, us[n]);
      }
    }
  }

  lemma {:induction false} SquaresBelowSquare(p: Placement, us: seq<nat>)
    ensures Potential(p, us) <= Sum(p, us) * Sum(p, us)
  {
    if us != [] {
      var n := |us| - 1;
      SquaresBelowSquare(p, us[..n]);
      SquareOfSum(Sum(p, us[..n]), CountOn(p, us[n]));
    }
  }

  lemma SquareOfSum(a: nat, b: nat)
    ensures a * a + b * b <= (a + b) * (a + b)
  {
    assert (a + b) * (a + b) == a * a + b * b + 2 * (a * b);
  }

  lemma SquareMonotone(a: nat, b: nat)
    requires a <= b
    ensures a * a <= b * b
  {
    assert a * a <= a * b <= b * b;
  }

  /** However the leaders of n regions are spread, the sum of squares is at most n squared. */
  lemma LeaderPotentialIsBounded(p: Placement, us: seq<nat>)
    requires Distinct(us) && forall r | r in p :: |p[r]| == 1
    ensures Potential(p, us) <= |p| * |p|
  {
    SumIsCovered(p, us);
    SquaresBelowSquare(p, us);
    assert |p| == |p.Keys| && p.Keys == Covered(p, us) + (p.Keys - Covered(p, us));
    SquareMonotone(Sum(p, us), |p|);
  }

  // ----- Runs -----

  /** A completed region move, which hands leadership to `leader` if the source peer led, and a leader transfer. */
  datatype Step =
    | RegionMove(region: nat, source: nat, target: nat, leader: nat)
    | LeaderTransfer(region: nat, source: nat, target: nat)

  /** Regions and leaders, and the stores they are on. */
  datatype Cluster = Cluster(regions: Placement, leaders: Placement)

  ghost predicate Gap(p: Placement, r: nat, a: nat, b: nat, us: seq<nat>, gap: nat) {
    Movable(p, r, a, b) && a in us && b in us && CountOn(p, a) >= CountOn(p, b) + gap
  }

  ghost predicate Leads(c: Cluster, r: nat, a: nat) {
    r in c.leaders && c.leaders[r] == {a}
  }

  /** A step the scheduler takes on its current counts; region moves differ by three and leader transfers by two. */
  ghost predicate Enabled(c: Cluster, us: seq<nat>, step: Step) {
    match step
    case RegionMove(r, a, b, leader) =>
      Gap(c.regions, r, a, b, us, 3) && (Leads(c, r, a) ==> leader != a && leader in c.regions[r] + {b})
    case LeaderTransfer(r, a, b) =>
      Gap(c.leaders, r, a, b, us, 2) && Leads(c, r, a) && r in c.regions && b in c.regions[r]
  }

  ghost function Next(c: Cluster, us: seq<nat>, step: Step): Cluster
    requires Enabled(c, us, step)
  {
    match step
    case RegionMove(r, a, b, leader) =>
      Cluster(Move(c.regions, r, a, b), if Leads(c, r, a) then c.leaders[r := {leader}] else c.leaders)
    case LeaderTransfer(r, a, b) => c.(leaders := Move(c.leaders, r, a, b))
  }

  /** Leaders stay on stores of their regions, and no region loses or gains one. */
  lemma StepKeepsConsistent(c: Cluster, us: seq<nat>, step: Step)
    requires Consistent(c) && Enabled(c, us, step)
    ensures Consistent(Next(c, us, step)) && |Next(c, us, step).leaders| == |c.leaders|
  {
    var d := Next(c, us, step);
    assert d.leaders.Keys == c.leaders.Keys;
    assert |d.leaders| == |d.leaders.Keys| && |c.leaders| == |c.leaders.Keys|;
    forall r | r in d.leaders ensures |d.leaders[r]| == 1 && d.leaders[r] <= d.regions[r] {
      match step
      case RegionMove(q, a, b, leader) =>
        if r == q && !Leads(c, q, a) {
          OneStore(c.leaders[r], a);
        }
      case LeaderTransfer(q, a, b) =>
        if r == q {
          assert {a} - {a} + {b} == {b};
        }
    }
  }

  lemma OneStore(s: set<nat>, a: nat)
    requires |s| == 1
    ensures a in s <==> s == {a}
  {
    if a in s {
      assert |s - {a}| == 0;
    }
  }

  /** The energy of a cluster: a region move is worth more than any change of leaders it can bring. */
  ghost function Energy(c: Cluster, us: seq<nat>): nat {
    Weighted(|c.leaders|, Potential(c.regions, us), Potential(c.leaders, us))
  }

  function Weighted(n: nat, regions: nat, leaders: nat): nat {
    (n * n + 2) * regions + 4 * leaders
  }

  /** A region move lowers the sum of squared region counts by at least four, a leader transfer that of the leader
      counts by at least two and the region counts not at all. */
  lemma StepLowersPotential(c: Cluster, us: seq<nat>, step: Step)
    requires Enabled(c, us, step) && Distinct(us)
    ensures step.RegionMove? ==> Potential(Next(c, us, step).regions, us) + 4 <= Potential(c.regions, us)
    ensures step.LeaderTransfer? ==> Next(c, us, step).regions == c.regions
    ensures step.LeaderTransfer? ==> Potential(Next(c, us, step).leaders, us) + 2 <= Potential(c.leaders, us)
  {
    match step
    case RegionMove(r, a, b, _) => MoveLowersPotential(c.regions, r, a, b, us);
    case LeaderTransfer(r, a, b) => MoveLowersPotential(c.leaders, r, a, b, us);
  }

  /** With its weight, a drop of four outweighs anything up to n squared. */
  lemma WeightedDrop(n: nat, regions: nat, regions': nat, leaders: nat, leaders': nat)
    requires (regions' + 4 <= regions && leaders' <= n * n) || (regions' == regions && leaders' + 2 <= leaders)
    ensures Weighted(n, regions', leaders') + 8 <= Weighted(n, regions, leaders)
  {
    var w := n * n + 2;
    if regions' + 4 <= regions {
      assert w * regions' + 4 * w == w * (regions' + 4) <= w * regions;
    }
  }

  /** Every step lowers the energy, by at least eight. */
  lemma StepLowersEnergy(c: Cluster, us: seq<nat>, step: Step)
    requires Consistent(c) && Enabled(c, us, step) && Distinct(us)
    ensures Energy(Next(c, us, step), us) + 8 <= Energy(c, us)
  {
    var n, r, r', l, l' := StepDrops(c, us, step);
    WeightedDrop(n, r, r', l, l');
    StepKeepsConsistent(c, us, step);
    assert Energy(c, us) == Weighted(n, r, l) && Energy(Next(c, us, step), us) == Weighted(n, r', l');
  }

  lemma StepDrops(c: Cluster, us: seq<nat>, step: Step) returns (n: nat, r: nat, r': nat, l: nat, l': nat)
    requires Consistent(c) && Enabled(c, us, step) && Distinct(us)
    ensures n == |c.leaders| && r == Potential(c.regions, us) && l == Potential(c.leaders, us)
    ensures r' == Potential(Next(c, us, step).regions, us) && l' == Potential(Next(c, us, step).leaders, us)
    ensures (r' + 4 <= r && l' <= n * n) || (r' == r && l' + 2 <= l)
  {
    var d := Next(c, us, step);
    n, r, l := |c.leaders|, Potential(c.regions, us), Potential(c.leaders, us);
    r', l' := Potential(d.regions, us), Potential(d.leaders, us);
    StepKeepsConsistent(c, us, step);
    LeaderPotentialIsBounded(d.leaders, us);
    StepLowersPotential(c, us, step);
  }

  /** The clusters a run passes through. */
  ghost predicate IsRun(us: seq<nat>, steps: seq<Step>, states: seq<Cluster>) {
    && |states| == |steps| + 1
    && forall i | 0 <= i < |steps| :: Enabled(states[i], us, steps[i]) && states[i + 1] == Next(states[i], us, steps[i])
  }

  /** Balancing comes to rest: however moves, the hand-overs they bring and transfers are mixed, no run is longer
      than an eighth of the energy it starts with. */
  lemma {:induction false} RunsAreBounded(us: seq<nat>, steps: seq<Step>, states: seq<Cluster>)
    requires IsRun(us, steps, states) && Distinct(us) && Consistent(states[0])
    ensures Consistent(states[|steps|]) && 8 * |steps| + Energy(states[|steps|], us) <= Energy(states[0], us)
  {
    if steps != [] {
      var n := |steps| - 1;
      RunsAreBounded(us, steps[..n], states[..n + 1]);
      StepKeepsConsistent(states[n], us, steps[n]);
      StepLowersEnergy(states[n], us, steps[n]);
    }
  }

  function RegionMoves(steps: seq<Step>): nat {
    if steps == [] then 0 else RegionMoves(steps[..|steps| - 1]) + if steps[|steps| - 1].RegionMove? then 1 else 0
  }

  /** A run has at most a quarter of the initial sum of squared region counts in region moves. */
  lemma {:induction false} RegionMovesAreBounded(us: seq<nat>, steps: seq<Step>, states: seq<Cluster>)
    requires IsRun(us, steps, states) && Distinct(us)
    ensures 4 * RegionMoves(steps) + Potential(states[|steps|].regions, us) <= Potential(states[0].regions, us)
  {
    if steps != [] {
      var n := |steps| - 1;
      RegionMovesAreBounded(us, steps[..n], states[..n + 1]);
      StepLowersPotential(states[n], us, steps[n]);
    }
  }

  /** A stretch of leader transfers is at most half the square of the number of leaders. */
  lemma {:induction false} TransfersAreBounded(us: seq<nat>, steps: seq<Step>, states: seq<Cluster>)
    requires IsRun(us, steps, states) && Distinct(us) && Consistent(states[0]) && RegionMoves(steps) == 0
    ensures 2 * |steps| + Potential(states[|steps|].leaders, us) <= Potential(states[0].leaders, us)
    ensures 2 * |steps| <= |states[0].leaders| * |states[0].leaders|
  {
    LeaderPotentialIsBounded(states[0].leaders, us);
    if steps != [] {
      var n := |steps| - 1;
      TransfersAreBounded(us, steps[..n], states[..n + 1]);
      StepLowersPotential(states[n], us, steps[n]);
    }
  }

  /** What the hand-over of a region move does to the leader counts' sum of squares. It can rise by more than that of
      the region counts falls, when a store with many leaders is handed one more. */
  lemma HandOverChangesLeaders(c: Cluster, us: seq<nat>, r: nat, a: nat, b: nat, leader: nat)
    requires Distinct(us) && a in us && leader in us && a != leader
    requires Enabled(c, us, RegionMove(r, a, b, leader)) && Leads(c, r, a)
    ensures var d := Next(c, us, RegionMove(r, a, b, leader));
            Potential(d.leaders, us)
            == Potential(c.leaders, us) + 2 * (CountOn(c.leaders, leader) - CountOn(c.leaders, a)) + 2
  {
    assert c.leaders[r] - {a} + {leader} == {leader};
    MoveLowersPotential(c.leaders, r, a, leader, us);
  }

  /** What the schedulers decide on the counts of the cluster are steps of a run. */
  lemma DecisionsAreSteps(c: Cluster, us: seq<nat>, counts: Counts, r: nat, peers: seq<nat>, a: nat, b: nat,
                          leader: nat, mean: real, threshold: real)
    requires r in c.regions && (forall s :: s in peers <==> s in c.regions[r]) && CountsOf(counts, c.regions)
    requires a in peers && b !in peers && a in us && b in us && leader != a && (leader in peers || leader == b)
    requires Overloaded(Load(counts, a), mean, threshold) && Underloaded(Load(counts, b), mean, threshold)
    ensures Enabled(c, us, RegionMove(r, a, b, leader))
  {
    OverloadedIsThreeAhead(Load(counts, a), Load(counts, b), mean, threshold);
    assert Load(counts, a) == CountOn(c.regions, a) && Load(counts, b) == CountOn(c.regions, b);
  }

  lemma TransfersAreSteps(c: Cluster, us: seq<nat>, counts: Counts, r: nat, peers: seq<nat>, leader: nat, target: nat)
    requires r in c.regions && (forall s :: s in peers <==> s in c.regions[r]) && CountsOf(counts, c.leaders)
    requires Leads(c, r, leader) && target in peers && leader in us && target in us
    requires target != leader && Load(counts, leader) >= Load(counts, target) + 2
    ensures Enabled(c, us, LeaderTransfer(r, leader, target))
  {
    assert Load(counts, leader) == CountOn(c.leaders, leader) && Load(counts, target) == CountOn(c.leaders, target);
  }
}
