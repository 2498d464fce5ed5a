/** The timestamp oracle (internal/pd/server.go, internal/pd/tso_buffer.go, pkg/txntypes/timestamp.go): blocks of
    timestamps handed out by one leader never repeat and always grow, whatever the clock reads. */
module Tso {
  import opened Bytes

  const LOGICAL_BITS: nat := 18
  const LOGICAL_SPACE: nat := 0x4_0000                 // 2^18
  const PHYSICAL_SPACE: nat := 0x4000_0000_0000        // 2^46
  const WORD: nat := 0x1_0000_0000_0000_0000           // 2^64
  const BATCH_SIZE: nat := 1000

  /** A timestamp as a pair; also the last timestamp an allocator gave out. */
  datatype Stamp = Stamp(physical: int, logical: int)

  predicate Less(a: Stamp, b: Stamp) {
    a.physical < b.physical || (a.physical == b.physical && a.logical < b.logical)
  }

  predicate AtMost(a: Stamp, b: Stamp) {
    !Less(b, a)
  }

  // ----- The allocator -----

  /** The state after allocating `count` stamps; `now` and `again` are the two readings of the clock. */
  function Allocated(s: Stamp, count: int, now: int, again: int): Stamp {
    var p, l := if now > s.physical then now else s.physical, if now > s.physical then 0 else s.logical;
    if l + count >= LOGICAL_SPACE then Stamp(if again >= p + 1 then again else p + 1, count)
    else Stamp(p, l + count)
  }

  /** The block of `count` stamps ending at `last` starts after `s`. */
  lemma AllocatedIsNew(s: Stamp, count: int, now: int, again: int)
    requires 0 < count && 0 <= s.logical
    ensures var t := Allocated(s, count, now, again);
            Less(s, Stamp(t.physical, t.logical - count + 1)) && t.logical >= count
  {
  }

  /** An allocated stamp fits its 18 logical bits exactly when fewer than 2^18 are asked for. */
  lemma AllocatedFitsExactly(s: Stamp, count: int, now: int, again: int)
    requires 0 < count && 0 <= s.logical
    ensures Allocated(s, count, now, again).logical < LOGICAL_SPACE <==> count < LOGICAL_SPACE
  {
  }

  /** The block is never behind the clock. It follows the last one without gap on the same physical part, or it starts a
      new one from its first stamp, and it does that only when the clock has moved on or the logical part is used up:
      at the reading, or one above the old part if that is later than the second reading. */
  lemma AllocatedFollowsClock(s: Stamp, count: int, now: int, again: int)
    requires 0 < count && 0 <= s.logical
    ensures var t := Allocated(s, count, now, again);
            var full := (if now > s.physical then 0 else s.logical) + count >= LOGICAL_SPACE;
            && now <= t.physical && s.physical <= t.physical
            && (t.physical == s.physical <==> now <= s.physical && !full)
            && t.logical == (if t.physical == s.physical then s.logical else 0) + count
            && (now > s.physical && !full ==> t.physical == now)
            && (full ==> t.physical == Max(Max(s.physical, now) + 1, again))
  {
  }

  class TSOAllocator {
    var physical: int
    var logical: int

    constructor ()
      ensures State() == Stamp(0, 0)
    {
      physical, logical := 0, 0;
    }

    function State(): Stamp
      reads this
    {
      Stamp(physical, logical)
    }

    /** Allocate; the clock is read once, and once more on overflow. */
    method Allocate(count: int, now: int, again: int) returns (ts: Option<Stamp>)
      modifies this
      ensures count <= 0 ==> ts == None && State() == old(State())
      ensures count > 0 ==> State() == Allocated(old(State()), count, now, again) && ts == Some(State())
    {
      if count <= 0 {
        return None;
      }
      if now > physical {
        physical := now;
        logical := 0;
      }
      logical := logical + count;
      if logical >= LOGICAL_SPACE {
        var next := physical + 1;
        if again >= next {
          next := again;
        }
        physical := next;
        logical := count;
      }
      return Some(Stamp(physical, logical));
    }
  }

  // ----- Blocks of stamps -----

  /** The stamps (physical, first) up to (physical, last). */
  datatype Block = Block(physical: int, first: int, last: int)

  ghost predicate InBlock(s: Stamp, b: Block) {
    s.physical == b.physical && b.first <= s.logical <= b.last
  }

  ghost predicate WellFormed(b: Block) {
    0 < b.first <= b.last
  }

  /** All stamps of all blocks fit their 18 logical bits. */
  ghost predicate AllFit(bs: seq<Block>) {
    forall i | 0 <= i < |bs| :: bs[i].last < LOGICAL_SPACE
  }

  function Top(b: Block): Stamp {
    Stamp(b.physical, b.last)
  }

  function Bottom(b: Block): Stamp {
    Stamp(b.physical, b.first)
  }

  /** Each block starts after the one before it ends. */
  ghost predicate Growing(bs: seq<Block>) {
    && (forall i | 0 <= i < |bs| :: WellFormed(bs[i]))
    && (forall i | 0 <= i < |bs| - 1 :: Less(Top(bs[i]), Bottom(bs[i + 1])))
  }

  ghost predicate AllUpTo(bs: seq<Block>, s: Stamp) {
    bs == [] || AtMost(Top(bs[|bs| - 1]), s)
  }

  lemma {:induction false} GrowingBetween(bs: seq<Block>, i: nat, j: nat)
    requires Growing(bs) && i < j < |bs|
    ensures Less(Top(bs[i]), Bottom(bs[j]))
    decreases j - i
  {
    if i + 1 < j {
      GrowingBetween(bs, i, j - 1);
    }
    assert Less(Top(bs[j - 1]), Bottom(bs[j - 1 + 1]));
  }

  // ----- The leader's buffer -----

  function BatchFor(count: int): int {
    if count > BATCH_SIZE then count else BATCH_SIZE
  }

  function Max(a: int, b: int): int {
    if a < b then b else a
  }

  class TSOBuffer {
    var physical: int
    var logical: int
    var remain: int
    const allocator: TSOAllocator

    ghost var issued: seq<Block>
    ghost var largest: int              // the largest block asked for

    constructor (allocator: TSOAllocator)
      requires allocator.logical >= 0
      ensures this.allocator == allocator && issued == [] && largest == 0 && Valid()
    {
      this.allocator := allocator;
      physical, logical, remain := 0, 0, 0;
      issued, largest := [], 0;
    }

    /** The blocks issued so far grow and lie at or below what the allocator has given out; a filled buffer lies
        between the two. As long as fewer than 2^18 stamps are asked for at a time, all of them fit. */
    ghost predicate Valid()
      reads this, allocator
    {
      && Growing(issued) && AllUpTo(issued, allocator.State()) && 0 <= allocator.logical
      && 0 <= remain
      && (remain > 0 ==>
            && 0 <= logical
            && AllUpTo(issued, Stamp(physical, logical))
            && AtMost(Stamp(physical, logical + remain), allocator.State()))
      && (largest < LOGICAL_SPACE ==> AllFit(issued) && (remain > 0 ==> logical + remain < LOGICAL_SPACE))
    }

    /** refill; proposing can fail, and then nothing changes. */
    method Refill(batchSize: int, proposed: bool, now: int, again: int) returns (ok: bool)
      requires Valid() && 0 < batchSize && (largest < LOGICAL_SPACE ==> batchSize < LOGICAL_SPACE)
      modifies this`physical, this`logical, this`remain, allocator
      ensures Valid() && ok == proposed
      ensures ok ==> remain == batchSize
      ensures ok ==> allocator.State() == Allocated(old(allocator.State()), batchSize, now, again)
      ensures ok ==> Stamp(physical, logical + batchSize) == allocator.State()
      ensures !ok ==> physical == old(physical) && logical == old(logical) && remain == old(remain)
      ensures !ok ==> allocator.State() == old(allocator.State())
    {
      if !proposed {
        return false;
      }
      AllocatedIsNew(allocator.State(), batchSize, now, again);
      AllocatedFitsExactly(allocator.State(), batchSize, now, again);
      var ts := allocator.Allocate(batchSize, now, again);
      physical := ts.value.physical;
      logical := ts.value.logical - batchSize;
      remain := batchSize;
      return true;
    }

    /** GetTS: issues one more block of `count` stamps, of which the last is returned. `Valid` says it lies above all
        blocks issued before. */
    method GetTS(count: int, proposed: bool, now: int, again: int) returns (ts: Option<Stamp>)
      requires Valid()
      modifies this, allocator
      ensures Valid()
      ensures largest == Max(old(largest), if count <= 0 then 1 else count)
      ensures ts.None? ==> issued == old(issued)
      ensures ts.Some? ==>
                var n := if count <= 0 then 1 else count;
                issued == old(issued) + [Block(ts.value.physical, ts.value.logical - n + 1, ts.value.logical)]
      ensures ts.None? ==> !proposed
      ensures var n := if count <= 0 then 1 else count;
              if n <= old(remain)
              then ts == Some(Stamp(old(physical), old(logical) + n)) && remain == old(remain) - n
                   && allocator.State() == old(allocator.State())
              else (ts.Some? <==> proposed) && (proposed ==> remain == Max(BATCH_SIZE, n) - n)
    {
      var n := if count <= 0 then 1 else count;
      largest := Max(largest, n);
      if remain < n {
        var ok := Refill(BatchFor(n), proposed, now, again);
        if !ok {
          return None;
        }
      }
      var last := Serve(n);
      return Some(last);
    }

    /** Serves `n` stamps from the buffer. */
    method Serve(n: int) returns (last: Stamp)
      requires Valid() && 0 < n <= remain && n <= largest
      modifies this`logical, this`remain, this`issued
      ensures Valid() && remain == old(remain) - n && last == Stamp(physical, old(logical) + n)
      ensures issued == old(issued) + [Block(physical, last.logical - n + 1, last.logical)]
    {
      logical := logical + n;
      remain := remain - n;
      issued := issued + [Block(physical, logical - n + 1, logical)];
      return Stamp(physical, logical);
    }

    /** Reset, on a change of leader. */
    method Reset()
      requires Valid()
      modifies this`physical, this`logical, this`remain
      ensures Valid() && physical == 0 && logical == 0 && remain == 0
    {
      physical, logical, remain := 0, 0, 0;
    }

    /** Another command allocates in between; what the buffer issued and holds stays below it. */
    method OtherAllocation(count: int, now: int, again: int)
      requires Valid()
      modifies allocator
      ensures Valid()
      ensures allocator.State()
           == if count > 0 then Allocated(old(allocator.State()), count, now, again) else old(allocator.State())
    {
      if count > 0 {
        AllocatedIsNew(allocator.State(), count, now, again);
      }
      var _ := allocator.Allocate(count, now, again);
    }
  }

  // ----- Packed timestamps -----

  function Pow2(n: nat): (r: nat)
    ensures r > 0
  {
    if n == 0 then 1 else 2 * Pow2(n - 1)
  }

  /** Bitwise or of naturals. */
  function BitOr(a: nat, b: nat): nat {
    if a == 0 && b == 0 then 0
    else 2 * BitOr(a / 2, b / 2) + (if a % 2 == 1 || b % 2 == 1 then 1 else 0)
  }

  /** ComposeTS: the shift by 18 bits is truncated to 64. */
  function ComposeTS(physical: nat, logical: nat): nat {
    BitOr(physical * LOGICAL_SPACE % WORD, logical)
  }

  lemma {:induction false} OrZero(a: nat)
    ensures BitOr(a, 0) == a
  {
    if a > 0 {
      OrZero(a / 2);
    }
  }

  lemma {:induction false} OrIsSum(p: nat, l: nat, n: nat)
    requires l < Pow2(n)
    ensures BitOr(p * Pow2(n), l) == p * Pow2(n) + l
    decreases n
  {
    if n == 0 {
      OrZero(p);
    } else {
      var half := p * Pow2(n - 1);
      assert p * Pow2(n) == 2 * half;
      OrIsSum(p, l / 2, n - 1);
      assert (2 * half) / 2 == half && (2 * half) % 2 == 0;
    }
  }

  lemma LogicalSpaceIsPow2()
    ensures Pow2(18) == LOGICAL_SPACE
  {
    assert Pow2(6) == 64;
    PowSum(6, 6);
    PowSum(12, 6);
  }

  lemma {:induction false} PowSum(a: nat, b: nat)
    ensures Pow2(a + b) == Pow2(a) * Pow2(b)
  {
    if a > 0 {
      PowSum(a - 1, b);
    }
  }

  lemma ComposeIsSum(physical: nat, logical: nat)
    requires physical < PHYSICAL_SPACE && logical < LOGICAL_SPACE
    ensures ComposeTS(physical, logical) == physical * LOGICAL_SPACE + logical
  {
    LogicalSpaceIsPow2();
    assert physical * LOGICAL_SPACE < WORD;
    OrIsSum(physical, logical, LOGICAL_BITS);
  }

  /** Packing keeps the order of stamps that fit. */
  lemma ComposeOrder(a: Stamp, b: Stamp)
    requires 0 <= a.physical < PHYSICAL_SPACE && 0 <= a.logical < LOGICAL_SPACE
    requires 0 <= b.physical < PHYSICAL_SPACE && 0 <= b.logical < LOGICAL_SPACE
    ensures ComposeTS(a.physical, a.logical) < ComposeTS(b.physical, b.logical) <==> Less(a, b)
  {
    ComposeIsSum(a.physical, a.logical);
    ComposeIsSum(b.physical, b.logical);
  }

  ghost predicate Packable(bs: seq<Block>) {
    forall i | 0 <= i < |bs| :: 0 <= bs[i].physical < PHYSICAL_SPACE
  }

  /** Any stamp of an earlier block lies below any stamp of a later one, whatever their sizes. */
  lemma IssuedAreOrdered(bs: seq<Block>, i: nat, j: nat, a: Stamp, b: Stamp)
    requires Growing(bs) && i < j < |bs| && InBlock(a, bs[i]) && InBlock(b, bs[j])
    ensures Less(a, b)
  {
    GrowingBetween(bs, i, j);
  }

  /** Where the parts fit it also packs below it: no timestamp is issued twice. */
  lemma IssuedAreIncreasing(bs: seq<Block>, i: nat, j: nat, a: Stamp, b: Stamp)
    requires Growing(bs) && AllFit(bs) && Packable(bs) && i < j < |bs| && InBlock(a, bs[i]) && InBlock(b, bs[j])
    ensures ComposeTS(a.physical, a.logical) < ComposeTS(b.physical, b.logical)
  {
    IssuedAreOrdered(bs, i, j, a, b);
    ComposeOrder(a, b);
  }

  // ----- Blocks that do not fit -----

  lemma {:induction false} OrAbove(p: nat, l: nat, n: nat)
    requires p % 2 == 1 && l < Pow2(n)
    ensures BitOr(p * Pow2(n), Pow2(n) + l) == p * Pow2(n) + l
    decreases n
  {
    if n == 0 {
      OrZero(p / 2);
    } else {
      var half := p * Pow2(n - 1);
      assert p * Pow2(n) == 2 * half;
      OrAbove(p, l / 2, n - 1);
      assert (2 * half) / 2 == half && (2 * half) % 2 == 0;
      assert (Pow2(n) + l) / 2 == Pow2(n - 1) + l / 2 && (Pow2(n) + l) % 2 == l % 2;
    }
  }

  /** Beyond the logical bits the sum runs into the physical part: for an odd one it starts again from zero. */
  lemma ComposeWraps(physical: nat, l: nat)
    requires physical < PHYSICAL_SPACE && physical % 2 == 1 && l < LOGICAL_SPACE
    ensures ComposeTS(physical, LOGICAL_SPACE + l) == ComposeTS(physical, l)
  {
    LogicalSpaceIsPow2();
    assert physical * LOGICAL_SPACE < WORD;
    OrAbove(physical, l, LOGICAL_BITS);
    OrIsSum(physical, l, LOGICAL_BITS);
  }

  /** The block of `count` stamps that ends at `t` packs to strictly increasing timestamps. */
  ghost predicate PacksIncreasing(t: Stamp, count: int)
    requires 0 <= t.physical && count <= t.logical
  {
    forall l, m | t.logical - count < l < m <= t.logical :: ComposeTS(t.physical, l) < ComposeTS(t.physical, m)
  }

  /** What is packed: the physical part fits 46 bits. */
  ghost predicate Usable(s: Stamp, t: Stamp) {
    0 <= s.physical && 0 <= s.logical && 0 <= t.physical < PHYSICAL_SPACE
  }

  /** Whatever the allocator's state and the clock, the block it gives out packs to increasing timestamps. */
  ghost predicate AlwaysPacks(count: int)
    requires 0 < count
  {
    forall s: Stamp, now: int, again: int | Usable(s, Allocated(s, count, now, again)) ::
      Packs(Allocated(s, count, now, again), count)
  }

  ghost predicate Packs(t: Stamp, count: int) {
    0 <= t.physical && count <= t.logical && PacksIncreasing(t, count)
  }

  /** Blocks pack to increasing timestamps for every state and clock if and only if fewer than 2^18 are asked for. */
  lemma BlocksPackExactly(count: int)
    requires 0 < count
    ensures AlwaysPacks(count) <==> count < LOGICAL_SPACE
  {
    if count < LOGICAL_SPACE {
      forall s: Stamp, now: int, again: int | Usable(s, Allocated(s, count, now, again))
        ensures Packs(Allocated(s, count, now, again), count)
      {
        BlockPacks(s, count, now, again);
      }
    } else {
      var p: nat := 1;
      LargeBlockGoesBack(count, p);
      assert !Packs(Allocated(Stamp(0, 0), count, 0, p), count);
    }
  }

  lemma BlockPacks(s: Stamp, count: int, now: int, again: int)
    requires 0 < count < LOGICAL_SPACE && Usable(s, Allocated(s, count, now, again))
    ensures Packs(Allocated(s, count, now, again), count)
  {
    var t := Allocated(s, count, now, again);
    AllocatedIsNew(s, count, now, again);
    AllocatedFitsExactly(s, count, now, again);
    forall l, m | t.logical - count < l < m <= t.logical ensures ComposeTS(t.physical, l) < ComposeTS(t.physical, m) {
      ComposeOrder(Stamp(t.physical, l), Stamp(t.physical, m));
    }
  }

  /** With 2^18 stamps or more and an odd physical part, the stamp of logical part 2^18 packs below the first of its
      own block. */
  lemma LargeBlockGoesBack(count: int, p: nat)
    requires LOGICAL_SPACE <= count && p % 2 == 1 && p < PHYSICAL_SPACE
    ensures Allocated(Stamp(0, 0), count, 0, p) == Stamp(p, count)
    ensures ComposeTS(p, LOGICAL_SPACE) < ComposeTS(p, 1) && !Packs(Stamp(p, count), count)
  {
    ComposeWraps(p, 0);
    ComposeIsSum(p, 0);
    ComposeIsSum(p, 1);
    var l, m, t := 1, LOGICAL_SPACE, Stamp(p, count);
    assert t.logical - count < l < m <= t.logical && !(ComposeTS(t.physical, l) < ComposeTS(t.physical, m));
  }

  /** With more than 2^18 stamps and an odd physical part, two stamps of one block pack to the same timestamp. */
  lemma LargeBlockCollides(count: int, p: nat)
    requires LOGICAL_SPACE < count && p % 2 == 1 && p < PHYSICAL_SPACE
    ensures var t := Allocated(Stamp(0, 0), count, 0, p);
            t == Stamp(p, count) && t.logical - count < 1 < LOGICAL_SPACE + 1 <= t.logical
    ensures ComposeTS(p, LOGICAL_SPACE + 1) == ComposeTS(p, 1)
  {
    ComposeWraps(p, 1);
  }

  // ----- Change of leader -----

  /** The allocator after the batches of a log, each applied at the given pair of clock readings. */
  function Replayed(batches: seq<int>, clock: seq<(int, int)>): Stamp
    requires |clock| == |batches|
  {
    if batches == [] then Stamp(0, 0)
    else
      var n := |batches| - 1;
      Allocated(Replayed(batches[..n], clock[..n]), batches[n], clock[n].0, clock[n].1)
  }

  /** Replicas apply the same batches on their own clocks. A new leader with a slow clock gives out stamps below the
      old leader's. */
  lemma SlowReplicaGoesBack()
    ensures var old' := Replayed([1000], [(50, 50)]);
            var new' := Replayed([1000, 1000], [(10, 10), (20, 20)]);
            Less(new', old')
  {
    assert [1000, 1000][..1] == [1000] && [(10, 10), (20, 20)][..1] == [(10, 10)];
  }

  /** The two readings of `b` are ordered and not behind any of `a`. */
  predicate NotBehind(a: (int, int), b: (int, int)) {
    a.0 <= b.0 <= b.1 && a.1 <= b.0
  }

  lemma AllocatedMonotone(s: Stamp, t: Stamp, count: int, a: (int, int), b: (int, int))
    requires 0 <= s.logical && 0 <= t.logical && AtMost(s, t) && 0 < count < LOGICAL_SPACE && NotBehind(a, b)
    ensures AtMost(Allocated(s, count, a.0, a.1), Allocated(t, count, b.0, b.1))
  {
  }

  /** A replica whose clock is never behind the old leader's is never behind its allocator, so the batches it allocates
      as the new leader start above everything the old one gave out. */
  lemma {:induction false} FastReplicaStaysAhead(batches: seq<int>, old': seq<(int, int)>, new': seq<(int, int)>)
    requires |old'| == |batches| && |new'| == |batches|
    requires forall i | 0 <= i < |batches| :: 0 < batches[i] < LOGICAL_SPACE && NotBehind(old'[i], new'[i])
    ensures 0 <= Replayed(batches, old').logical && 0 <= Replayed(batches, new').logical
    ensures AtMost(Replayed(batches, old'), Replayed(batches, new'))
  {
    if batches != [] {
      var n := |batches| - 1;
      FastReplicaStaysAhead(batches[..n], old'[..n], new'[..n]);
      var s, t := Replayed(batches[..n], old'[..n]), Replayed(batches[..n], new'[..n]);
      AllocatedMonotone(s, t, batches[n], old'[n], new'[n]);
      AllocatedIsNew(s, batches[n], old'[n].0, old'[n].1);
      AllocatedIsNew(t, batches[n], new'[n].0, new'[n].1);
    }
  }

  /** The first stamp of a block of `count` that ends at `t`. */
  function FirstOf(t: Stamp, count: int): Stamp {
    Stamp(t.physical, t.logical - count + 1)
  }

  /** Every block the new leader can give out starts above the last stamp of the old one. */
  ghost predicate StartsAbove(old': Stamp, new': Stamp) {
    forall count: int, now: int, again: int | 0 < count < LOGICAL_SPACE ::
      Less(old', FirstOf(Allocated(new', count, now, again), count))
  }

  /** A change of leader is safe, whatever is asked next and whatever the clock reads, if and only if the new leader's
      allocator is not behind the old one's. */
  lemma FailoverIsSafeExactly(old': Stamp, new': Stamp)
    requires 0 < old'.logical < LOGICAL_SPACE && 0 <= new'.logical < LOGICAL_SPACE
    ensures StartsAbove(old', new') <==> AtMost(old', new')
  {
    if AtMost(old', new') {
      forall count: int, now: int, again: int | 0 < count < LOGICAL_SPACE
        ensures Less(old', FirstOf(Allocated(new', count, now, again), count))
      {
        AllocatedIsNew(new', count, now, again);
      }
    } else {
      var p := new'.physical;
      assert !Less(old', FirstOf(Allocated(new', 1, p, p), 1));
    }
  }

  /** Hence a replica whose clock was never behind the old leader's can take over. */
  lemma FailoverIsSafe(batches: seq<int>, old': seq<(int, int)>, new': seq<(int, int)>)
    requires |old'| == |batches| && |new'| == |batches| && batches != []
    requires forall i | 0 <= i < |batches| :: 0 < batches[i] < LOGICAL_SPACE && NotBehind(old'[i], new'[i])
    ensures StartsAbove(Replayed(batches, old'), Replayed(batches, new'))
  {
    FastReplicaStaysAhead(batches, old', new');
    ReplayedFits(batches, old');
    ReplayedFits(batches, new');
    FailoverIsSafeExactly(Replayed(batches, old'), Replayed(batches, new'));
  }

  lemma {:induction false} ReplayedFits(batches: seq<int>, clock: seq<(int, int)>)
    requires |clock| == |batches| && forall i | 0 <= i < |batches| :: 0 < batches[i] < LOGICAL_SPACE
    ensures 0 <= Replayed(batches, clock).logical < LOGICAL_SPACE
    ensures batches != [] ==> 0 < Replayed(batches, clock).logical
  {
    if batches != [] {
      var n := |batches| - 1;
      ReplayedFits(batches[..n], clock[..n]);
      AllocatedIsNew(Replayed(batches[..n], clock[..n]), batches[n], clock[n].0, clock[n].1);
      AllocatedFitsExactly(Replayed(batches[..n], clock[..n]), batches[n], clock[n].0, clock[n].1);
    }
  }
}
