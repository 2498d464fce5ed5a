/** Linearizable reads on the inline path (internal/raftstore/peer.go): a read's callback fires at most once, and it
    succeeds only when everything committed up to its read index has been applied. */
module ReadIndex {
  import opened Bytes
  import opened ApplyPipeline

  type Ctx = Bytes

  /** One call of a read's callback. */
  datatype Fired = Fired(ctx: Ctx, ok: bool, readIndex: nat)

  datatype ReadState = ReadState(ctx: Ctx, index: nat)

  /** What a Ready brings that matters for reads; `snapshot` is the index of a snapshot to apply, which can fail to
      load. */
  datatype ReadyPart = ReadyPart(leader: Option<bool>, snapshot: Option<nat>, loaded: bool, committed: seq<Entry>,
      readStates: seq<ReadState>)

  class InlinePeer {
    /** The region's committed log: the entry of index i is log[i - 1]. */
    ghost const log: seq<Entry>

    var isLeader: bool
    var appliedIndex: nat
    var truncatedIndex: nat
    var pendingReads: map<Ctx, nat>     // 0 until the read index is known
    var handed: seq<Entry>              // entries given to applyFunc
    var fired: seq<Fired>

    ghost var delivered: nat            // raft has delivered the committed entries up to here
    ghost var snapshotIndex: nat        // the engine contains everything up to here, from a snapshot or an earlier run
    ghost var missed: set<nat>          // positions of data that snapshots which failed to load have skipped
    ghost var asked: set<Ctx>

    /** A new region, with zero for both indices, or a restart: the engine holds what was applied before, and raft
        delivers again what was not truncated. */
    constructor (ghost log: seq<Entry>, truncatedIndex: nat, appliedIndex: nat)
      requires (forall i | 0 <= i < |log| :: log[i].index == i + 1) && truncatedIndex <= appliedIndex <= |log|
      ensures Valid() && this.log == log && fired == [] && asked == {} && missed == {}
      ensures this.appliedIndex == appliedIndex && this.truncatedIndex == delivered == truncatedIndex
      ensures snapshotIndex == appliedIndex && handed == [] && pendingReads == map[]
    {
      this.log := log;
      this.appliedIndex, this.truncatedIndex := appliedIndex, truncatedIndex;
      isLeader, pendingReads, handed, fired := false, map[], [], [];
      delivered, snapshotIndex, missed, asked := truncatedIndex, appliedIndex, {}, {};
    }

    /** Every committed data entry up to index `i` has been applied, from the log or by a snapshot. */
    ghost predicate AppliedUpTo(i: nat)
      reads this
    {
      i <= |log| && forall k | 0 <= k < i && IsData(log[k]) :: k < snapshotIndex || log[k] in handed
    }

    /** The same, except for what failed snapshots skipped. */
    ghost predicate Covered(i: nat)
      reads this
    {
      i <= |log| && forall k | 0 <= k < i && IsData(log[k]) && k !in missed :: k < snapshotIndex || log[k] in handed
    }

    /** What counts as skipped is data that raft takes for applied and that is not in the engine. */
    ghost predicate MissedIsMissing()
      reads this
    {
      forall k | k in missed :: snapshotIndex <= k < delivered <= |log| && IsData(log[k]) && log[k] !in handed
    }

    /** A read that succeeded is backed by applied data if and only if no failed snapshot has skipped any below it. */
    lemma ReadIsTrueExactly(i: nat)
      requires Valid() && i < |fired| && fired[i].ok
      ensures AppliedUpTo(fired[i].readIndex) <==> forall k | k in missed :: fired[i].readIndex <= k
    {
      assert Covered(fired[i].readIndex);
    }

    ghost predicate FiredOnce()
      reads this
    {
      && (forall i, j | 0 <= i < j < |fired| :: fired[i].ctx != fired[j].ctx)
      && (forall i | 0 <= i < |fired| :: fired[i].ctx in asked && fired[i].ctx !in pendingReads)
      && pendingReads.Keys <= asked
    }

    ghost predicate ReadsCovered()
      reads this
    {
      forall i | 0 <= i < |fired| && fired[i].ok :: Covered(fired[i].readIndex)
    }

    ghost predicate Valid()
      reads this
    {
      && (forall i | 0 <= i < |log| :: log[i].index == i + 1)
      && Covered(appliedIndex) && Covered(delivered) && truncatedIndex <= delivered
      && MissedIsMissing() && (forall e | e in handed :: e.index <= delivered)
      && FiredOnce() && ReadsCovered()
    }

    /** Nothing about a finished read changes, and what has been applied stays applied. The applied index moves back
        only while entries from before a restart are delivered again. */
    twostate predicate Extends()
      reads this
    {
      && old(fired) <= fired && old(handed) <= handed && old(snapshotIndex) <= snapshotIndex
      && old(delivered) <= delivered && (old(appliedIndex) <= old(delivered) ==> old(appliedIndex) <= appliedIndex)
    }

    /** handleReadIndexRequest: a follower refuses at once, a leader registers the read. */
    method HandleReadIndexRequest(ctx: Ctx)
      requires Valid() && ctx !in asked
      modifies this`fired, this`pendingReads, this`asked
      ensures Valid() && asked == old(asked) + {ctx} && Extends()
      ensures !isLeader ==> fired == old(fired) + [Fired(ctx, false, 0)] && pendingReads == old(pendingReads)
      ensures isLeader ==> fired == old(fired) && pendingReads == old(pendingReads)[ctx := 0]
    {
      asked := asked + {ctx};
      if !isLeader {
        fired := fired + [Fired(ctx, false, 0)];
        return;
      }
      pendingReads := pendingReads[ctx := 0];
    }

    /** A timed-out read is dropped without a callback. */
    method CancelRead(ctx: Ctx)
      requires Valid()
      modifies this`pendingReads
      ensures Valid() && pendingReads == old(pendingReads) - {ctx}
    {
      pendingReads := pendingReads - {ctx};
    }

    /** Fires one pending read and forgets it. */
    method Fire(ctx: Ctx, ok: bool)
      requires Valid() && ctx in pendingReads && (ok ==> pendingReads[ctx] <= appliedIndex)
      modifies this`fired, this`pendingReads
      ensures Valid() && fired == old(fired) + [Fired(ctx, ok, old(pendingReads)[ctx])]
          && pendingReads == old(pendingReads) - {ctx}
    {
      fired := fired + [Fired(ctx, ok, pendingReads[ctx])];
      pendingReads := pendingReads - {ctx};
    }

    /** Some callback has been called for `ctx`. */
    ghost predicate Answered(ctx: Ctx)
      reads this
    {
      exists i :: 0 <= i < |fired| && fired[i].ctx == ctx
    }

    /** Reads leave the pending table only by being answered, and none enter it. */
    twostate predicate OnlyAnswered()
      reads this
    {
      && pendingReads.Keys <= old(pendingReads).Keys
      && forall ctx | ctx in old(pendingReads) && ctx !in pendingReads :: Answered(ctx)
    }

    /** Fails every pending read. */
    method FailReads()
      requires Valid()
      modifies this`fired, this`pendingReads
      ensures Valid() && old(fired) <= fired && pendingReads == map[] && OnlyAnswered()
      ensures forall i | |old(fired)| <= i < |fired| :: !fired[i].ok
    {
      while pendingReads != map[]
        invariant Valid() && old(fired) <= fired && OnlyAnswered()
        invariant forall i | |old(fired)| <= i < |fired| :: !fired[i].ok
        decreases |pendingReads|
      {
        var ctx :| ctx in pendingReads;
        label before:
        Fire(ctx, false);
        StillAnswered@before();
        assert fired[|fired| - 1].ctx == ctx;
      }
    }

    twostate lemma StillAnswered()
      requires old(fired) <= fired
      ensures forall ctx | old(Answered(ctx)) :: Answered(ctx)
    {
      forall ctx | old(Answered(ctx)) ensures Answered(ctx) {
        var i :| 0 <= i < |old(fired)| && old(fired)[i].ctx == ctx;
        assert fired[i].ctx == ctx;
      }
    }

    /** Leadership news of a Ready: a peer that is not leader fails all pending reads. */
    method UpdateLeadership(leads: bool)
      requires Valid()
      modifies this`isLeader, this`fired, this`pendingReads
      ensures Valid() && isLeader == leads && old(fired) <= fired && OnlyAnswered()
      ensures leads ==> fired == old(fired) && pendingReads == old(pendingReads)
      ensures !leads ==> pendingReads == map[] && forall i | |old(fired)| <= i < |fired| :: !fired[i].ok
    {
      isLeader := leads;
      if !leads {
        FailReads();
      }
    }

    /** ApplySnapshot of a newer snapshot; one at or below the truncated index is skipped. If the data cannot be loaded
        nothing changes here, the error is only logged, and raft goes on behind the snapshot. */
    method ApplySnapshot(index: nat, loaded: bool)
      requires Valid() && (index > truncatedIndex ==> appliedIndex <= index <= |log| && delivered <= index)
      modifies this`appliedIndex, this`truncatedIndex, this`snapshotIndex, this`delivered, this`missed
      ensures Valid() && Extends()
      ensures delivered == if index > old(truncatedIndex) then index else old(delivered)
      ensures appliedIndex == if index > old(truncatedIndex) && loaded then index else old(appliedIndex)
      ensures index > old(truncatedIndex) && loaded ==> truncatedIndex == index <= snapshotIndex
      ensures index <= old(truncatedIndex) || !loaded ==>
                truncatedIndex == old(truncatedIndex) && snapshotIndex == old(snapshotIndex)
      ensures index <= old(truncatedIndex) ==> missed == old(missed)
      ensures index > old(truncatedIndex) ==>
                missed == if loaded then {} else old(missed) + Skipped(old(delivered), index)
    {
      if index <= truncatedIndex {
        return;
      }
      if !loaded {
        missed := missed + Skipped(delivered, index);
        delivered := index;
        return;
      }
      appliedIndex, truncatedIndex := index, index;
      snapshotIndex, delivered := if index > snapshotIndex then index else snapshotIndex, index;
      missed := {};
    }

    /** The data between two indices that the engine does not hold yet. */
    ghost function Skipped(lo: nat, hi: nat): set<nat>
      requires hi <= |log|
      reads this
    {
      set k | lo <= k < hi && snapshotIndex <= k && IsData(log[k])
    }

    /** applyInline: hands over the data entries, then records the index. */
    method ApplyInline(es: seq<Entry>)
      requires Valid() && es != [] && delivered + |es| <= |log| && es == log[delivered..delivered + |es|]
      modifies this`handed, this`appliedIndex, this`delivered
      ensures Valid() && Extends()
      ensures handed == old(handed) + DataOf(es) && appliedIndex == delivered == old(delivered) + |es|
    {
      DataOfSlice(log, delivered, es);
      var data := FilterData(es);
      if |data| > 0 {
        handed := handed + data;
      }
      var lastEntry := es[|es| - 1];
      assert lastEntry == log[delivered + |es| - 1];
      appliedIndex := lastEntry.index;
      delivered := delivered + |es|;
      assert Covered(delivered);
    }

    /** One read state: it fixes the read index of its request, which fires if that index is already reached. */
    method TakeReadState(rs: ReadState)
      requires Valid()
      modifies this`fired, this`pendingReads
      ensures Valid() && OnlyAnswered()
      ensures fired == old(fired)
          + (if rs.ctx in old(pendingReads) && rs.index <= appliedIndex then [Fired(rs.ctx, true, rs.index)] else [])
      ensures Advanced(old(pendingReads), pendingReads, appliedIndex, {rs.ctx})
    {
      if rs.ctx in pendingReads {
        pendingReads := pendingReads[rs.ctx := rs.index];
        if appliedIndex >= rs.index {
          Fire(rs.ctx, true);
          assert fired[|fired| - 1].ctx == rs.ctx;
        }
      }
    }

    /** The read states of a Ready. What is still pending afterwards is untouched by the read states or has an index
        that is not reached yet; what fired did so with an index raft confirmed. */
    method ProcessReadStates(rss: seq<ReadState>)
      requires Valid()
      modifies this`fired, this`pendingReads
      ensures Valid() && old(fired) <= fired && OnlyAnswered()
      ensures forall i | |old(fired)| <= i < |fired| ::
          Confirmed(fired[i], old(pendingReads), rss, appliedIndex)
      ensures Advanced(old(pendingReads), pendingReads, appliedIndex, Contexts(rss))
    {
      for i := 0 to |rss|
        invariant Valid() && old(fired) <= fired && OnlyAnswered()
        invariant forall k | |old(fired)| <= k < |fired| ::
            Confirmed(fired[k], old(pendingReads), rss, appliedIndex)
        invariant Advanced(old(pendingReads), pendingReads, appliedIndex, Contexts(rss[..i]))
      {
        assert rss[..i + 1][..i] == rss[..i];
        label before:
        TakeReadState(rss[i]);
        StillAnswered@before();
        assert rss[i] == ReadState(rss[i].ctx, rss[i].index);
      }
      assert rss[..|rss|] == rss;
    }

    /** The sweep: every pending read whose index is known and reached fires. */
    method SweepReads()
      requires Valid()
      modifies this`fired, this`pendingReads
      ensures Valid() && Extends()
      ensures pendingReads == map ctx | ctx in old(pendingReads)
          && !Satisfied(old(pendingReads)[ctx], appliedIndex) :: old(pendingReads)[ctx]
      ensures forall ctx | ctx in old(pendingReads) && Satisfied(old(pendingReads)[ctx], appliedIndex) ::
                Fired(ctx, true, old(pendingReads)[ctx]) in fired
      ensures forall i | |old(fired)| <= i < |fired| :: FiredFor(fired[i], old(pendingReads), appliedIndex)
    {
      var left := pendingReads.Keys;
      while left != {}
        invariant Valid() && old(fired) <= fired && left <= pendingReads.Keys
        invariant forall i | |old(fired)| <= i < |fired| :: FiredFor(fired[i], old(pendingReads), appliedIndex)
        invariant forall ctx | ctx in pendingReads ::
            ctx in old(pendingReads) && pendingReads[ctx] == old(pendingReads)[ctx]
        invariant forall ctx | ctx in pendingReads && ctx !in left :: !Satisfied(pendingReads[ctx], appliedIndex)
        invariant forall ctx | ctx in old(pendingReads) && ctx !in pendingReads ::
                    Satisfied(old(pendingReads)[ctx], appliedIndex) && Fired(ctx, true, old(pendingReads)[ctx]) in fired
        decreases |left|
      {
        var ctx :| ctx in left;
        left := left - {ctx};
        if pendingReads[ctx] > 0 && appliedIndex >= pendingReads[ctx] {
          Fire(ctx, true);
        }
      }
    }

    /** handleReady, apply and read parts. `Valid` is the safety property: no callback has fired twice, and every
        read that succeeded is covered by what has been applied, except for what failed snapshots skipped. No read is
        lost, none that could fire is kept. */
    method HandleReady(rd: ReadyPart)
      requires Valid() && Appliable(rd.snapshot, rd.committed)
      modifies this
      ensures Valid() && Extends() && asked == old(asked)
      ensures rd.loaded || rd.snapshot.None? ==> missed <= old(missed)
      ensures forall ctx | ctx in old(pendingReads) :: ctx in pendingReads || Answered(ctx)
      ensures forall ctx | ctx in pendingReads :: pendingReads[ctx] == 0 || pendingReads[ctx] > appliedIndex
      ensures handed == old(handed) + DataOf(rd.committed) && delivered == old(Base(rd.snapshot)) + |rd.committed|
      ensures rd.committed != [] ==> appliedIndex == delivered
      ensures isLeader == if rd.leader.Some? then rd.leader.value else old(isLeader)
      ensures rd.leader == Some(false) ==>
                pendingReads == map[] && forall i | |old(fired)| <= i < |fired| :: !fired[i].ok
      ensures rd.leader != Some(false) ==>
                Served(old(pendingReads), rd.readStates, appliedIndex, pendingReads, fired[|old(fired)|..])
    {
      TakeLeadership(rd.leader);
      label led:
      ApplyAndServe(rd.snapshot, rd.loaded, rd.committed, rd.readStates);
      StillAnswered@led();
    }

    method ApplyAndServe(snapshot: Option<nat>, loaded: bool, committed: seq<Entry>, rss: seq<ReadState>)
      requires Valid() && Appliable(snapshot, committed)
      modifies this`handed, this`appliedIndex, this`truncatedIndex, this`snapshotIndex, this`delivered, this`missed,
        this`fired, this`pendingReads
      ensures Valid() && Extends()
      ensures loaded || snapshot.None? ==> missed <= old(missed)
      ensures handed == old(handed) + DataOf(committed) && delivered == old(Base(snapshot)) + |committed|
      ensures committed != [] ==> appliedIndex == delivered
      ensures forall ctx | ctx in old(pendingReads) :: ctx in pendingReads || Answered(ctx)
      ensures forall ctx | ctx in pendingReads :: pendingReads[ctx] == 0 || pendingReads[ctx] > appliedIndex
      ensures Served(old(pendingReads), rss, appliedIndex, pendingReads, fired[|old(fired)|..])
    {
      ApplyReady(snapshot, loaded, committed);
      ServeReads(rss);
    }

    method TakeLeadership(news: Option<bool>)
      requires Valid()
      modifies this`isLeader, this`fired, this`pendingReads
      ensures Valid() && old(fired) <= fired && OnlyAnswered()
      ensures isLeader == if news.Some? then news.value else old(isLeader)
      ensures news != Some(false) ==> fired == old(fired) && pendingReads == old(pendingReads)
      ensures news == Some(false) ==> pendingReads == map[] && forall i | |old(fired)| <= i < |fired| :: !fired[i].ok
    {
      if news.Some? {
        UpdateLeadership(news.value);
      }
    }

    /** The read states of a Ready and the sweep after them. */
    method ServeReads(rss: seq<ReadState>)
      requires Valid()
      modifies this`fired, this`pendingReads
      ensures Valid() && old(fired) <= fired
      ensures forall ctx | ctx in old(pendingReads) :: ctx in pendingReads || Answered(ctx)
      ensures forall ctx | ctx in pendingReads ::
                ctx in old(pendingReads) && !Satisfied(pendingReads[ctx], appliedIndex)
      ensures Served(old(pendingReads), rss, appliedIndex, pendingReads, fired[|old(fired)|..])
    {
      ProcessReadStates(rss);
      label processed:
      ghost var mid, n := pendingReads, |fired|;
      SweepReads();
      StillAnswered@processed();
      SweptAfterStates(old(pendingReads), mid, rss, appliedIndex, pendingReads, fired[|old(fired)|..n], fired[n..]);
      assert fired[|old(fired)|..] == fired[|old(fired)|..n] + fired[n..];
    }

    /** The snapshot and the committed entries of a Ready, in that order. */
    method ApplyReady(snapshot: Option<nat>, loaded: bool, committed: seq<Entry>)
      requires Valid() && Appliable(snapshot, committed)
      modifies this`handed, this`appliedIndex, this`truncatedIndex, this`snapshotIndex, this`delivered,
        this`missed
      ensures Valid() && Extends() && handed == old(handed) + DataOf(committed)
      ensures loaded || snapshot.None? ==> missed <= old(missed)
      ensures delivered == old(Base(snapshot)) + |committed|
      ensures committed != [] ==> appliedIndex == delivered
      ensures committed == [] ==>
                appliedIndex == if snapshot.Some? && snapshot.value > old(truncatedIndex) && loaded
                                then snapshot.value else old(appliedIndex)
    {
      if snapshot.Some? {
        ApplySnapshot(snapshot.value, loaded);
      }
      if |committed| > 0 {
        ApplyInline(committed);
      }
    }

    /** What committed entries continue: a snapshot that is not stale, or what is delivered. */
    ghost function Base(snapshot: Option<nat>): nat
      reads this
    {
      if snapshot.Some? && snapshot.value > truncatedIndex then snapshot.value else delivered
    }

    /** Raft's contract: a snapshot that is not stale is ahead of what is applied and delivered, and committed entries
        continue what is delivered after it. */
    ghost predicate Appliable(snapshot: Option<nat>, committed: seq<Entry>)
      reads this
    {
      var base := Base(snapshot);
      && delivered <= base <= |log|
      && (snapshot.Some? && snapshot.value > truncatedIndex ==> appliedIndex <= snapshot.value)
      && base + |committed| <= |log| && committed == log[base..base + |committed|]
    }
  }

  /** A success at the index the read was waiting for. */
  ghost predicate FiredFor(f: Fired, was: map<Ctx, nat>, applied: nat) {
    f.ok && f.ctx in was && f.readIndex == was[f.ctx] <= applied
  }

  /** A success at an index that raft has confirmed for the read. */
  ghost predicate Confirmed(f: Fired, was: map<Ctx, nat>, rss: seq<ReadState>, applied: nat) {
    f.ok && f.ctx in was && f.readIndex <= applied && ReadState(f.ctx, f.readIndex) in rss
  }

  ghost function Contexts(rss: seq<ReadState>): set<Ctx> {
    if rss == [] then {} else Contexts(rss[..|rss| - 1]) + {rss[|rss| - 1].ctx}
  }

  /** How read states for `ctxs` change the pending table: the others are untouched, these wait for more. */
  ghost predicate Advanced(was: map<Ctx, nat>, now: map<Ctx, nat>, applied: nat, ctxs: set<Ctx>) {
    && (forall ctx | ctx in now :: ctx in was && if ctx in ctxs then now[ctx] > applied else now[ctx] == was[ctx])
    && (forall ctx | ctx in was && ctx !in ctxs :: ctx in now)
  }

  /** What a Ready makes of the reads that were waiting: those raft has confirmed are answered or wait for the index,
      the others go on as before, and each success is at an index raft has confirmed, now or earlier. */
  ghost predicate Served(was: map<Ctx, nat>, rss: seq<ReadState>, applied: nat, now: map<Ctx, nat>,
      answers: seq<Fired>) {
    && (forall ctx | ctx in now ::
          ctx in was && if ctx in Contexts(rss) then now[ctx] > applied else now[ctx] == was[ctx])
    && (forall i | 0 <= i < |answers| ::
          Confirmed(answers[i], was, rss, applied) || FiredFor(answers[i], was, applied))
  }

  /** The sweep after the read states answers only reads that those did not name. */
  lemma SweptAfterStates(was: map<Ctx, nat>, mid: map<Ctx, nat>, rss: seq<ReadState>, applied: nat, now: map<Ctx, nat>,
      a: seq<Fired>, b: seq<Fired>)
    requires Advanced(was, mid, applied, Contexts(rss))
    requires forall ctx | ctx in now :: ctx in mid && now[ctx] == mid[ctx]
    requires forall i | 0 <= i < |a| :: Confirmed(a[i], was, rss, applied)
    requires forall i | 0 <= i < |b| :: FiredFor(b[i], mid, applied)
    ensures Served(was, rss, applied, now, a + b)
  {
    forall i | 0 <= i < |b| ensures FiredFor(b[i], was, applied) {
      assert b[i].ctx !in Contexts(rss);
    }
  }

  predicate Satisfied(readIndex: nat, applied: nat) {
    0 < readIndex <= applied
  }

  /** The data of a slice of the log is the log's data there. */
  lemma DataOfSlice(log: seq<Entry>, d: nat, es: seq<Entry>)
    requires (forall i | 0 <= i < |log| :: log[i].index == i + 1) && d + |es| <= |log| && es == log[d..d + |es|]
    ensures forall k | d <= k < d + |es| && IsData(log[k]) :: log[k] in DataOf(es)
    ensures forall e | e in DataOf(es) :: d < e.index <= d + |es|
  {
    forall k | d <= k < d + |es| && IsData(log[k]) ensures log[k] in DataOf(es) {
      assert log[k] == es[k - d];
      DataOfIs(es, log[k]);
    }
    forall e | e in DataOf(es) ensures d < e.index <= d + |es| {
      DataOfIs(es, e);
      var i :| 0 <= i < |es| && es[i] == e;
      assert log[d + i] == e;
    }
  }

  /** The leader of a new region, with one read waiting for its index. */
  method LeaderWithRead(log: seq<Entry>, ctx: Ctx) returns (p: InlinePeer)
    requires forall i | 0 <= i < |log| :: log[i].index == i + 1
    ensures fresh(p) && p.Valid() && p.log == log && p.fired == [] && p.pendingReads == map[ctx := 0]
    ensures p.appliedIndex == p.truncatedIndex == p.delivered == p.snapshotIndex == 0 && p.missed == {}
  {
    p := new InlinePeer(log, 0, 0);
    p.UpdateLeadership(true);
    p.HandleReadIndexRequest(ctx);
  }

  /** A snapshot of the first entry fails to load, and the second entry is applied. */
  method SkipFirst(p: InlinePeer, second: Entry)
    requires p.Valid() && |p.log| == 2 && IsData(p.log[0]) && second == p.log[1]
    requires p.appliedIndex == p.truncatedIndex == p.delivered == p.snapshotIndex == 0
    modifies p`appliedIndex, p`truncatedIndex, p`snapshotIndex, p`delivered, p`missed, p`handed
    ensures p.Valid() && p.appliedIndex == 2 && 0 in p.missed
  {
    p.ApplySnapshot(1, false);
    assert p.log[1..2] == [second];
    p.ApplyInline([second]);
  }

  /** The calls of a Ready whose snapshot fails to load: a read at the snapshot's index succeeds, and the data is not
      there. */
  method FailedSnapshotHidesData(log: seq<Entry>, ctx: Ctx) returns (p: InlinePeer)
    requires |log| == 2 && (forall i | 0 <= i < |log| :: log[i].index == i + 1) && IsData(log[0])
    ensures p.Valid() && p.log == log && p.fired == [Fired(ctx, true, 1)] && !p.AppliedUpTo(1)
  {
    p := LeaderWithRead(log, ctx);
    SkipFirst(p, log[1]);
    p.TakeReadState(ReadState(ctx, 1));
    p.ReadIsTrueExactly(0);
  }
}
