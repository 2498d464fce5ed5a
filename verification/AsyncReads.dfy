/** Linearizable reads with the apply worker pool (internal/raftstore/peer.go): pending reads fire on the applied index,
    which a batch without data moves at once. A read can then succeed before the data it must see has been applied. */
module AsyncReads {
  import opened Bytes
  import opened ApplyPipeline
  import opened ReadIndex

  /** A read that succeeded, with what ApplyFunc had been given when its callback was called. */
  datatype Served = Served(ctx: Ctx, index: nat, seen: seq<Entry>)

  datatype Reader = Reader(pipe: State, pending: map<Ctx, nat>, served: set<Served>)

  datatype Event =
    | Ask(ctx: Ctx)                                        // a leader registers a read
    | Drop(ctx: Ctx)                                       // a read is cancelled or failed
    | HandleReady(es: seq<Entry>, readStates: seq<ReadState>)
    | ProcessTask                                          // a worker's part
    | OnApplyResult

  /** Every pending read whose index is known and reached fires. */
  function Swept(r: Reader): Reader {
    SweptBut(r, {})
  }

  /** The same, with the reads of `left` still to come. */
  function SweptBut(r: Reader, left: set<Ctx>): Reader {
    var applied := r.pipe.appliedIndex;
    r.(pending := map ctx | ctx in r.pending && (ctx in left || !Satisfied(r.pending[ctx], applied)) :: r.pending[ctx],
       served := r.served + set ctx | ctx in r.pending && ctx !in left && Satisfied(r.pending[ctx], applied)
                              :: Served(ctx, r.pending[ctx], r.pipe.handed))
  }

  lemma SweepStarts(r: Reader)
    ensures SweptBut(r, r.pending.Keys) == r
  {
    var s := SweptBut(r, r.pending.Keys);
    assert s.pending == r.pending && s.served == r.served;
  }

  lemma SweepGoesOn(r: Reader, left: set<Ctx>, ctx: Ctx)
    requires left <= r.pending.Keys && ctx in left
    ensures var s, s' := SweptBut(r, left), SweptBut(r, left - {ctx});
            && ctx in s.pending && s.pending[ctx] == r.pending[ctx]
            && s' == if Satisfied(r.pending[ctx], r.pipe.appliedIndex)
                     then s.(pending := s.pending - {ctx},
                             served := s.served + {Served(ctx, r.pending[ctx], r.pipe.handed)})
                     else s
  {
    var s, s' := SweptBut(r, left), SweptBut(r, left - {ctx});
    if Satisfied(r.pending[ctx], r.pipe.appliedIndex) {
      assert s'.pending == s.pending - {ctx};
      assert s'.served == s.served + {Served(ctx, r.pending[ctx], r.pipe.handed)};
    } else {
      assert s'.pending == s.pending && s'.served == s.served;
    }
  }

  function TookState(r: Reader, rs: ReadState): Reader {
    if rs.ctx !in r.pending then r
    else if rs.index <= r.pipe.appliedIndex then
      r.(pending := r.pending - {rs.ctx}, served := r.served + {Served(rs.ctx, rs.index, r.pipe.handed)})
    else r.(pending := r.pending[rs.ctx := rs.index])
  }

  function TookStates(r: Reader, rss: seq<ReadState>): Reader {
    if rss == [] then r else TookState(TookStates(r, rss[..|rss| - 1]), rss[|rss| - 1])
  }

  /** submitToApplyWorker: a batch without data moves the index and sweeps. */
  function Applied(r: Reader, es: seq<Entry>): Reader {
    if es == [] then r
    else
      var r1 := r.(pipe := Submitted(r.pipe, es));
      if DataOf(es) == [] then Swept(r1) else r1
  }

  /** onApplyResult: sweeps if the index moved. */
  function GotResult(r: Reader): Reader
    requires r.pipe.results != []
  {
    var r1 := r.(pipe := Next(r.pipe, Result));
    if r1.pipe.appliedIndex > r.pipe.appliedIndex then Swept(r1) else r1
  }

  predicate CanHappen(r: Reader, ev: Event) {
    match ev
    case HandleReady(es, _) => es == [] || Continues(r.pipe, es)
    case ProcessTask => r.pipe.pool != []
    case OnApplyResult => r.pipe.results != []
    case _ => true
  }

  function After(r: Reader, ev: Event): Reader
    requires CanHappen(r, ev)
  {
    match ev
    case Ask(ctx) => r.(pending := r.pending[ctx := 0])
    case Drop(ctx) => r.(pending := r.pending - {ctx})
    case HandleReady(es, rss) => Swept(TookStates(Applied(r, es), rss))
    case ProcessTask => r.(pipe := Next(r.pipe, Work))
    case OnApplyResult => GotResult(r)
  }

  function Begin(base: uint64, restored: uint64): Reader {
    Reader(Start(base, restored), map[], {})
  }

  function History(base: uint64, restored: uint64, evs: seq<Event>): Option<Reader> {
    if evs == [] then Some(Begin(base, restored))
    else
      match History(base, restored, evs[..|evs| - 1])
      case None => None
      case Some(r) => if CanHappen(r, evs[|evs| - 1]) then Some(After(r, evs[|evs| - 1])) else None
  }

  // ----- Fresh reads -----

  /** All delivered data up to index `i` is in `seen` or was applied before the start. */
  ghost predicate Sees(s: State, seen: seq<Entry>, i: nat) {
    forall e | e in s.committed && IsData(e) && s.restored < e.index <= i :: e in seen
  }

  /** Every callback that reported success was called after everything up to its read index had been applied. */
  ghost predicate Fresh(r: Reader) {
    forall f | f in r.served :: f.index <= Max(LastCommitted(r.pipe), r.pipe.restored) && Sees(r.pipe, f.seen, f.index)
  }

  ghost predicate IsOut(s: State, t: Task) {
    t in s.pool || t in s.pendingTasks
  }

  /** No task that is out or queued holds data from after the start. */
  ghost predicate NothingNewOut(s: State) {
    forall t, e | IsOut(s, t) && e in t.entries :: e.index <= s.restored
  }

  /** A batch without data finds nothing new out. */
  ghost predicate Calm(r: Reader, ev: Event) {
    ev.HandleReady? && ev.es != [] && DataOf(ev.es) == [] ==> NothingNewOut(r.pipe)
  }

  // ----- What every history keeps -----

  /** Entries are delivered in log order. */
  ghost predicate InOrder(s: State) {
    forall i | 0 <= i < |s.committed| :: s.committed[i].index == s.base + 1 + i
  }

  /** Queued data lies above every index that is reported before it. */
  ghost predicate QueueInOrder(s: State) {
    && (forall t, e, i | t in s.pendingTasks && e in t.entries && i in s.results :: i < e.index)
    && (forall t, e, u | t in s.pendingTasks && e in t.entries && u in s.pool :: u.lastCommittedIndex < e.index)
    && (forall i, j, e | 0 <= i < j < |s.pendingTasks| && e in s.pendingTasks[j].entries ::
          s.pendingTasks[i].lastCommittedIndex < e.index)
  }

  ghost predicate Sound(s: State) {
    Inv(s) && InOrder(s) && QueueInOrder(s)
  }

  /** New data that is out lies above the applied index. */
  ghost predicate OutIsBeyond(s: State) {
    forall t, e | IsOut(s, t) && e in t.entries :: s.appliedIndex < e.index || e.index <= s.restored
  }

  lemma DataIsNew(s: State, es: seq<Entry>, e: Entry)
    requires Continues(s, es) && e in DataOf(es)
    ensures LastCommitted(s) < e.index <= es[|es| - 1].index
  {
    DataOfIs(es, e);
  }

  lemma DataKeepsQueue(s: State, committed: seq<Entry>, last: uint64, data: seq<Entry>)
    requires OneInFlight(s) && IndicesKept(s) && QueueInOrder(s)
    requires forall e | e in data :: LastCommitted(s) < e.index
    ensures QueueInOrder(WithData(s.(committed := committed), last, data))
  {
    var s' := WithData(s.(committed := committed), last, data);
    if data != [] && s.applyInFlight {
      forall i, j, e | 0 <= i < j < |s'.pendingTasks| && e in s'.pendingTasks[j].entries
        ensures s'.pendingTasks[i].lastCommittedIndex < e.index
      {
        assert s'.pendingTasks[i] == s.pendingTasks[i];
      }
    }
  }

  lemma SubmittedKeepsSound(s: State, es: seq<Entry>)
    requires Sound(s) && Continues(s, es)
    ensures Sound(Submitted(s, es))
  {
    ReadyKeepsInv(s, es);
    SubmittedKeepsQueue(s, es);
    SubmittedInOrder(s, es, Submitted(s, es));
  }

  lemma SubmittedKeepsQueue(s: State, es: seq<Entry>)
    requires Sound(s) && Continues(s, es)
    ensures QueueInOrder(Submitted(s, es)) && Submitted(s, es).committed == s.committed + es
  {
    forall e | e in DataOf(es) ensures LastCommitted(s) < e.index {
      DataIsNew(s, es, e);
    }
    DataKeepsQueue(s, s.committed + es, es[|es| - 1].index, DataOf(es));
  }

  lemma SubmittedInOrder(s: State, es: seq<Entry>, s': State)
    requires InOrder(s) && Continues(s, es) && s'.base == s.base && s'.committed == s.committed + es
    ensures InOrder(s')
  {
  }

  lemma StepKeepsSound(s: State, step: Step)
    requires Sound(s) && Enabled(s, step)
    ensures Sound(Next(s, step))
  {
    StepKeepsInv(s, step);
    if step.Ready? {
      SubmittedKeepsSound(s, step.es);
    } else if step.Work? {
      assert s.pool == [s.pool[0]];
    } else {
      ResultKeepsQueue(s);
    }
  }

  lemma ResultKeepsQueue(s: State)
    requires Sound(s) && s.results != []
    ensures QueueInOrder(Next(s, Result))
  {
    if s.pendingTasks != [] {
      var s' := Next(s, Result);
      assert s.pool == [] && s'.pool == [s.pendingTasks[0]] && s'.results == [];
      forall t, e | t in s'.pendingTasks && e in t.entries ensures s.pendingTasks[0].lastCommittedIndex < e.index {
        var j :| 0 <= j < |s'.pendingTasks| && s'.pendingTasks[j] == t;
        assert s.pendingTasks[j + 1] == t;
      }
    }
  }

  // ----- The applied index of a calm history is true -----

  lemma {:induction false} EntriesOfMember(tasks: seq<Task>, e: Entry)
    ensures e in EntriesOf(tasks) <==> exists t :: t in tasks && e in t.entries
  {
    if tasks != [] {
      EntriesOfMember(tasks[1..], e);
      assert tasks == [tasks[0]] + tasks[1..];
    }
  }

  lemma SeesApplied(s: State)
    requires Inv(s) && OutIsBeyond(s)
    ensures Sees(s, s.handed, s.appliedIndex)
  {
    forall e | e in s.committed && IsData(e) && s.restored < e.index <= s.appliedIndex ensures e in s.handed {
      DataOfIs(s.committed, e);
      EntriesOfMember(s.pool, e);
      EntriesOfMember(s.pendingTasks, e);
    }
  }

  lemma DataStaysBeyond(s: State, committed: seq<Entry>, last: uint64, data: seq<Entry>)
    requires IndicesKept(s) && OutIsBeyond(s) && (data == [] ==> NothingNewOut(s))
    requires forall e | e in data :: LastCommitted(s) < e.index
    ensures OutIsBeyond(WithData(s.(committed := committed), last, data))
  {
    var s', task := WithData(s.(committed := committed), last, data), Task(data, last);
    forall t, e | IsOut(s', t) && e in t.entries ensures s'.appliedIndex < e.index || e.index <= s'.restored {
      assert IsOut(s, t) || t == task;
    }
  }

  lemma SubmittedStaysBeyond(s: State, es: seq<Entry>)
    requires Sound(s) && OutIsBeyond(s) && Continues(s, es) && (DataOf(es) == [] ==> NothingNewOut(s))
    ensures OutIsBeyond(Submitted(s, es))
  {
    forall e | e in DataOf(es) ensures LastCommitted(s) < e.index {
      DataIsNew(s, es, e);
    }
    DataStaysBeyond(s, s.committed + es, es[|es| - 1].index, DataOf(es));
  }

  lemma ResultStaysBeyond(s: State)
    requires Sound(s) && OutIsBeyond(s) && s.results != []
    ensures OutIsBeyond(Next(s, Result))
  {
    var s', idx := Next(s, Result), s.results[0];
    assert s.pool == [] && idx in s.results;
    forall t, e | IsOut(s', t) && e in t.entries ensures s'.appliedIndex < e.index || e.index <= s'.restored {
      assert s.pendingTasks != [] && t in s.pendingTasks;
      assert IsOut(s, t) && idx < e.index;
    }
  }

  /** Reads that were fresh stay fresh. */
  lemma StaysFresh(r: Reader, s': State)
    requires Fresh(r) && s'.restored == r.pipe.restored && r.pipe.committed <= s'.committed
    requires LastCommitted(r.pipe) <= LastCommitted(s')
    requires forall i | |r.pipe.committed| <= i < |s'.committed| :: LastCommitted(r.pipe) < s'.committed[i].index
    ensures Fresh(r.(pipe := s'))
  {
    forall f, e | f in r.served && e in s'.committed && IsData(e) && s'.restored < e.index <= f.index
      ensures e in f.seen
    {
      var i :| 0 <= i < |s'.committed| && s'.committed[i] == e;
      assert i < |r.pipe.committed|;
      assert e == r.pipe.committed[i];
    }
  }

  lemma SweptFresh(r: Reader)
    requires Fresh(r) && Inv(r.pipe) && OutIsBeyond(r.pipe)
    ensures Fresh(Swept(r)) && Swept(r).pipe == r.pipe
  {
    SeesApplied(r.pipe);
  }

  lemma {:induction false} TookStatesFresh(r: Reader, rss: seq<ReadState>)
    requires Fresh(r) && Inv(r.pipe) && OutIsBeyond(r.pipe)
    ensures Fresh(TookStates(r, rss)) && TookStates(r, rss).pipe == r.pipe
  {
    if rss != [] {
      TookStatesFresh(r, rss[..|rss| - 1]);
      SeesApplied(r.pipe);
    }
  }

  ghost predicate AllTrue(r: Reader) {
    Sound(r.pipe) && OutIsBeyond(r.pipe) && Fresh(r)
  }

  lemma SubmittedGoesOn(s: State, es: seq<Entry>)
    requires Sound(s) && Continues(s, es)
    ensures var s' := Submitted(s, es);
            && s'.restored == s.restored && s.committed <= s'.committed && LastCommitted(s) <= LastCommitted(s')
            && forall i | |s.committed| <= i < |s'.committed| :: LastCommitted(s) < s'.committed[i].index
  {
    ReadyKeepsIndices(s, es);
    assert Submitted(s, es).committed == s.committed + es;
  }

  lemma SubmittedFresh(r: Reader, es: seq<Entry>)
    requires AllTrue(r) && Continues(r.pipe, es) && (DataOf(es) == [] ==> NothingNewOut(r.pipe))
    ensures AllTrue(r.(pipe := Submitted(r.pipe, es)))
  {
    SubmittedKeepsSound(r.pipe, es);
    SubmittedStaysBeyond(r.pipe, es);
    SubmittedGoesOn(r.pipe, es);
    StaysFresh(r, Submitted(r.pipe, es));
  }

  lemma HandleReadyFresh(r: Reader, es: seq<Entry>, rss: seq<ReadState>)
    requires AllTrue(r) && CanHappen(r, HandleReady(es, rss)) && Calm(r, HandleReady(es, rss))
    ensures AllTrue(After(r, HandleReady(es, rss)))
  {
    var r1 := Applied(r, es);
    if es != [] {
      SubmittedFresh(r, es);
      SweptFresh(r.(pipe := Submitted(r.pipe, es)));
    }
    TookStatesFresh(r1, rss);
    SweptFresh(TookStates(r1, rss));
  }

  lemma GotResultFresh(r: Reader)
    requires AllTrue(r) && r.pipe.results != []
    ensures AllTrue(GotResult(r))
  {
    StepKeepsSound(r.pipe, Result);
    ResultStaysBeyond(r.pipe);
    StaysFresh(r, Next(r.pipe, Result));
    SweptFresh(r.(pipe := Next(r.pipe, Result)));
  }

  lemma CalmStepIsFresh(r: Reader, ev: Event)
    requires AllTrue(r) && CanHappen(r, ev) && Calm(r, ev)
    ensures AllTrue(After(r, ev))
  {
    match ev
    case HandleReady(es, rss) => HandleReadyFresh(r, es, rss);
    case ProcessTask =>
      StepKeepsSound(r.pipe, Work);
      StaysFresh(r, Next(r.pipe, Work));
    case OnApplyResult => GotResultFresh(r);
    case _ =>
  }

  ghost predicate CalmHistory(base: uint64, restored: uint64, evs: seq<Event>) {
    forall i | 0 <= i < |evs| && History(base, restored, evs[..i]).Some? ::
      Calm(History(base, restored, evs[..i]).value, evs[i])
  }

  /** In a history in which batches without data find nothing new out, every read that succeeded is fresh. */
  lemma {:induction false} CalmHistoryIsFresh(base: uint64, restored: uint64, evs: seq<Event>)
    requires History(base, restored, evs).Some? && CalmHistory(base, restored, evs)
    ensures AllTrue(History(base, restored, evs).value)
  {
    if evs != [] {
      var n := |evs| - 1;
      forall i | 0 <= i < n && History(base, restored, evs[..n][..i]).Some?
        ensures Calm(History(base, restored, evs[..n][..i]).value, evs[..n][i])
      {
        assert evs[..n][..i] == evs[..i];
      }
      CalmHistoryIsFresh(base, restored, evs[..n]);
      CalmStepIsFresh(History(base, restored, evs[..n]).value, evs[n]);
    }
  }

  // ----- Otherwise some read is stale -----

  lemma {:induction false} DataInOrder(es: seq<Entry>, i: nat, j: nat)
    requires forall a, b | 0 <= a < b < |es| :: es[a].index < es[b].index
    requires i < j < |DataOf(es)|
    ensures DataOf(es)[i].index < DataOf(es)[j].index
  {
    var n := |es| - 1;
    if j < |DataOf(es[..n])| {
      DataInOrder(es[..n], i, j);
    } else {
      DataOfIs(es[..n], DataOf(es)[i]);
    }
  }

  /** An entry does not occur on both sides of a cut. */
  lemma OnOneSide(all: seq<Entry>, handed: seq<Entry>, out: seq<Entry>, e: Entry)
    requires forall i, j | 0 <= i < j < |all| :: all[i].index < all[j].index
    requires handed + out == all && e in out
    ensures e in all && e !in handed
  {
    var j :| 0 <= j < |out| && out[j] == e;
    assert all[|handed| + j] == e;
    forall i | 0 <= i < |handed| ensures handed[i] != e {
      assert all[i] == handed[i];
    }
  }

  /** Data that is out has not been handed over. */
  lemma OutIsUnapplied(s: State, t: Task, e: Entry)
    requires Sound(s) && IsOut(s, t) && e in t.entries
    ensures e in s.committed && IsData(e) && e !in s.handed && s.base < e.index <= LastCommitted(s)
  {
    var out := EntriesOf(s.pool) + EntriesOf(s.pendingTasks);
    EntriesOfMember(s.pool, e);
    EntriesOfMember(s.pendingTasks, e);
    var all := DataOf(s.committed);
    assert s.handed + out == all;
    forall i, j | 0 <= i < j < |all| ensures all[i].index < all[j].index {
      DataInOrder(s.committed, i, j);
    }
    OnOneSide(all, s.handed, out, e);
    DataOfIs(s.committed, e);
  }

  /** Whatever is pending and whatever raft confirms, the Ready serves fresh reads only. */
  ghost predicate ServesFresh(r: Reader, es: seq<Entry>)
    requires Continues(r.pipe, es)
  {
    forall pending, rss :: Fresh(After(r.(pending := pending), HandleReady(es, rss)))
  }

  /** Nothing that was served is taken back. */
  lemma SweptServes(r: Reader, ctx: Ctx)
    requires ctx in r.pending && Satisfied(r.pending[ctx], r.pipe.appliedIndex)
    ensures Served(ctx, r.pending[ctx], r.pipe.handed) in Swept(r).served && Swept(r).served <= Swept(Swept(r)).served
  {
  }

  /** A read that waits for data which is out is served stale by a batch without data. */
  lemma ServedStale(r: Reader, es: seq<Entry>, t: Task, e: Entry, ctx: Ctx)
    requires Sound(r.pipe) && Continues(r.pipe, es) && DataOf(es) == [] && ctx in r.pending && r.pending[ctx] == e.index
    requires IsOut(r.pipe, t) && e in t.entries && r.pipe.restored < e.index
    ensures Served(ctx, e.index, r.pipe.handed) in After(r, HandleReady(es, [])).served
    ensures !Fresh(After(r, HandleReady(es, [])))
  {
    OutIsUnapplied(r.pipe, t, e);
    ReadyKeepsIndices(r.pipe, es);
    var r1 := r.(pipe := Submitted(r.pipe, es));
    SweptServes(r1, ctx);
    assert After(r, HandleReady(es, [])) == Swept(Swept(r1));
    assert e in r1.pipe.committed && !Sees(r1.pipe, r.pipe.handed, e.index);
  }

  /** At any point of a calm history, a batch without data serves only fresh reads, whatever is pending, if and only if
      nothing new is out or queued. */
  lemma ServesFreshExactly(r: Reader, es: seq<Entry>)
    requires AllTrue(r) && Continues(r.pipe, es) && DataOf(es) == []
    ensures ServesFresh(r, es) <==> NothingNewOut(r.pipe)
  {
    if NothingNewOut(r.pipe) {
      forall pending, rss ensures Fresh(After(r.(pending := pending), HandleReady(es, rss))) {
        HandleReadyFresh(r.(pending := pending), es, rss);
      }
    } else {
      var t, e :| IsOut(r.pipe, t) && e in t.entries && e.index > r.pipe.restored;
      ServedStale(r.(pending := map[[] := e.index]), es, t, e, []);
    }
  }

  /** Where nothing is replayed, that is no task out and none queued. */
  lemma NothingNewOutIs(s: State)
    requires Sound(s) && s.restored == s.base
    ensures NothingNewOut(s) <==> s.pool == [] && s.pendingTasks == []
  {
    if s.pool != [] {
      assert IsOut(s, s.pool[0]) && s.pool[0].entries[0] in s.pool[0].entries;
      OutIsUnapplied(s, s.pool[0], s.pool[0].entries[0]);
    }
    if s.pendingTasks != [] {
      var t := s.pendingTasks[0];
      assert IsOut(s, t) && t.entries[0] in t.entries;
      OutIsUnapplied(s, t, t.entries[0]);
    }
  }

  lemma Continue(base: uint64, restored: uint64, evs: seq<Event>, r: Reader, ev: Event)
    requires History(base, restored, evs) == Some(r) && CanHappen(r, ev)
    ensures History(base, restored, evs + [ev]) == Some(After(r, ev))
    ensures CalmHistory(base, restored, evs) && Calm(r, ev) ==> CalmHistory(base, restored, evs + [ev])
  {
    var more := evs + [ev];
    assert more[..|evs|] == evs;
    if CalmHistory(base, restored, evs) && Calm(r, ev) {
      forall i | 0 <= i < |more| && History(base, restored, more[..i]).Some?
        ensures Calm(History(base, restored, more[..i]).value, more[i])
      {
        if i < |evs| {
          assert more[..i] == evs[..i];
        }
      }
    }
  }

  lemma SweptNothing(r: Reader)
    requires forall ctx | ctx in r.pending :: !Satisfied(r.pending[ctx], r.pipe.appliedIndex)
    ensures Swept(r) == r
  {
    assert Swept(r).pending == r.pending && Swept(r).served == r.served;
  }

  /** A region whose first data entry is with a worker. */
  function OneOut(base: uint64, e: Entry, pending: map<Ctx, nat>): Reader {
    Reader(State(base, base, [e], base, true, [], [Task([e], e.index)], [], []), pending, {})
  }

  lemma EntryGoesOut(base: uint64, e: Entry)
    requires IsData(e) && e.index == base + 1
    ensures After(Begin(base, base), HandleReady([e], [])) == OneOut(base, e, map[])
  {
    DataOfOne(e);
    SweptNothing(OneOut(base, e, map[]));
  }

  lemma ReadIsConfirmed(base: uint64, e: Entry, ctx: Ctx)
    requires e.index == base + 1
    ensures After(OneOut(base, e, map[ctx := 0]), HandleReady([], [ReadState(ctx, e.index)]))
         == OneOut(base, e, map[ctx := e.index])
  {
    var r, rs := OneOut(base, e, map[ctx := 0]), ReadState(ctx, e.index);
    assert [rs][..0] == [];
    assert TookStates(r, [rs]) == TookState(r, rs);
    assert map[ctx := 0][ctx := e.index] == map[ctx := e.index];
    SweptNothing(OneOut(base, e, map[ctx := e.index]));
  }

  /** A data entry is committed and goes to a worker. A read that raft confirms at that entry's index waits for it. */
  lemma ReadWaits(base: uint64, e: Entry, ctx: Ctx) returns (evs: seq<Event>)
    requires IsData(e) && e.index == base + 1
    ensures History(base, base, evs) == Some(OneOut(base, e, map[ctx := e.index])) && CalmHistory(base, base, evs)
  {
    var first, ask, confirm := HandleReady([e], []), Ask(ctx), HandleReady([], [ReadState(ctx, e.index)]);
    var r0, r1, r2 := Begin(base, base), OneOut(base, e, map[]), OneOut(base, e, map[ctx := 0]);
    DataOfOne(e);
    EntryGoesOut(base, e);
    Continue(base, base, [], r0, first);
    evs := [] + [first];
    assert After(r1, ask) == r2;
    Continue(base, base, evs, r1, ask);
    evs := evs + [ask];
    ReadIsConfirmed(base, e, ctx);
    Continue(base, base, evs, r2, confirm);
    evs := evs + [confirm];
  }

  /** Then a configuration change commits, and the read succeeds although the entry has not been applied. */
  lemma StaleRead(base: uint64, e: Entry, change: Entry, ctx: Ctx) returns (evs: seq<Event>)
    requires IsData(e) && e.index == base + 1 && !change.normal && change.index == base + 2
    ensures History(base, base, evs).Some?
    ensures var r := History(base, base, evs).value;
            e in r.pipe.committed && Served(ctx, e.index, []) in r.served && !Fresh(r)
  {
    evs := ReadWaits(base, e, ctx);
    CalmHistoryIsFresh(base, base, evs);
    var r, last := OneOut(base, e, map[ctx := e.index]), HandleReady([change], []);
    DataOfOne(change);
    Continue(base, base, evs, r, last);
    ServedStale(r, [change], r.pipe.pool[0], e, ctx);
    evs := evs + [last];
  }

  // ----- No read is forgotten -----

  ghost predicate IsServed(r: Reader, ctx: Ctx) {
    exists f :: f in r.served && f.ctx == ctx
  }

  lemma SweptKeeps(r: Reader, ctx: Ctx)
    requires ctx in r.pending || IsServed(r, ctx)
    ensures ctx in Swept(r).pending || IsServed(Swept(r), ctx)
  {
    if IsServed(r, ctx) {
      var f :| f in r.served && f.ctx == ctx;
      assert f in Swept(r).served;
    } else if ctx !in Swept(r).pending {
      assert Served(ctx, r.pending[ctx], r.pipe.handed) in Swept(r).served;
    }
  }

  lemma {:induction false} TookStatesKeep(r: Reader, rss: seq<ReadState>, ctx: Ctx)
    requires ctx in r.pending || IsServed(r, ctx)
    ensures ctx in TookStates(r, rss).pending || IsServed(TookStates(r, rss), ctx)
  {
    if rss != [] {
      var n := |rss| - 1;
      TookStatesKeep(r, rss[..n], ctx);
      var m := TookStates(r, rss[..n]);
      if IsServed(m, ctx) {
        var f :| f in m.served && f.ctx == ctx;
        assert f in TookStates(r, rss).served;
      } else if ctx !in TookStates(r, rss).pending {
        assert Served(ctx, rss[n].index, m.pipe.handed) in TookStates(r, rss).served;
      }
    }
  }

  /** A read that was asked for stays pending until it is served or dropped, and one that was served stays so. */
  lemma ReadsAreKept(r: Reader, ev: Event, ctx: Ctx)
    requires CanHappen(r, ev) && ev != Drop(ctx) && (ctx in r.pending || IsServed(r, ctx) || ev == Ask(ctx))
    ensures ctx in After(r, ev).pending || IsServed(After(r, ev), ctx)
  {
    match ev
    case HandleReady(es, rss) =>
      var r1 := Applied(r, es);
      if es != [] && DataOf(es) == [] {
        SweptKeeps(r.(pipe := Submitted(r.pipe, es)), ctx);
      }
      assert ctx in r1.pending || IsServed(r1, ctx);
      TookStatesKeep(r1, rss, ctx);
      SweptKeeps(TookStates(r1, rss), ctx);
    case OnApplyResult =>
      SweptKeeps(r.(pipe := Next(r.pipe, Result)), ctx);
    case _ =>
  }

  /** No read waits that could be served: this holds after every event but the registration of a read. */
  ghost predicate NoneOverdue(r: Reader) {
    forall ctx | ctx in r.pending :: r.pending[ctx] == 0 || r.pending[ctx] > r.pipe.appliedIndex
  }

  lemma NoneIsOverdue(r: Reader, ev: Event)
    requires CanHappen(r, ev) && NoneOverdue(r)
    ensures NoneOverdue(After(r, ev))
  {
  }

  /** A confirmed read is served by the Ready that confirms it, or waits for its own index. */
  lemma ConfirmedIsServed(r: Reader, es: seq<Entry>, rs: ReadState)
    requires CanHappen(r, HandleReady(es, [rs])) && NoneOverdue(r) && rs.ctx in r.pending && r.pending[rs.ctx] == 0
    ensures var r' := After(r, HandleReady(es, [rs]));
            if rs.index <= r'.pipe.appliedIndex then IsServed(r', rs.ctx) && rs.ctx !in r'.pending
            else rs.ctx in r'.pending && r'.pending[rs.ctx] == rs.index
  {
    var r1 := Applied(r, es);
    assert rs.ctx in r1.pending;
    assert [rs][..0] == [];
    var r2 := TookState(r1, rs);
    assert TookStates(r1, [rs]) == r2;
    if rs.index <= r1.pipe.appliedIndex {
      assert Served(rs.ctx, rs.index, r1.pipe.handed) in Swept(r2).served;
    }
  }

  // ----- The peer's procedures -----

  class AsyncPeer {
    const applies: ApplyPeer
    var pendingReads: map<Ctx, nat>     // 0 until the read index is known
    var served: set<Served>             // callbacks that were called with success

    ghost function View(): Reader
      reads this, applies
    {
      Reader(applies.View(), pendingReads, served)
    }

    constructor (ghost base: uint64, appliedIndex: uint64)
      ensures View() == Begin(base, appliedIndex) && fresh(applies)
    {
      applies := new ApplyPeer(base, appliedIndex);
      pendingReads, served := map[], {};
    }

    /** The sweep over the pending reads. */
    method SweepReads()
      modifies this`pendingReads, this`served
      ensures View() == Swept(old(View()))
    {
      var left := pendingReads.Keys;
      SweepStarts(View());
      while left != {}
        invariant left <= old(pendingReads).Keys && View() == SweptBut(old(View()), left)
        decreases |left|
      {
        var ctx :| ctx in left;
        SweepGoesOn(old(View()), left, ctx);
        left := left - {ctx};
        if pendingReads[ctx] > 0 && applies.appliedIndex >= pendingReads[ctx] {
          served := served + {Served(ctx, pendingReads[ctx], applies.handed)};
          pendingReads := pendingReads - {ctx};
        }
      }
    }

    /** submitToApplyWorker with its sweep. */
    method SubmitToApplyWorker(es: seq<Entry>)
      requires es != []
      modifies this`pendingReads, this`served, applies
      ensures View() == Applied(old(View()), es)
    {
      var data := FilterData(es);
      applies.SubmitToApplyWorker(es);
      if |data| == 0 && |pendingReads| > 0 {
        SweepReads();
      } else if |data| == 0 {
        SweptNothing(View());
      }
    }

    /** onApplyResult with its sweep. */
    method OnApplyResult()
      requires applies.mailbox != []
      modifies this`pendingReads, this`served, applies
      ensures View() == GotResult(old(View()))
    {
      var was := applies.appliedIndex;
      applies.OnApplyResult();
      if applies.appliedIndex > was {
        SweepReads();
      }
    }

    method ProcessReadStates(rss: seq<ReadState>)
      modifies this`pendingReads, this`served
      ensures View() == TookStates(old(View()), rss)
    {
      for i := 0 to |rss|
        invariant View() == TookStates(old(View()), rss[..i])
      {
        assert rss[..i + 1][..i] == rss[..i];
        var rs := rss[i];
        if rs.ctx in pendingReads {
          if applies.appliedIndex >= rs.index {
            served := served + {Served(rs.ctx, rs.index, applies.handed)};
            pendingReads := pendingReads - {rs.ctx};
          } else {
            pendingReads := pendingReads[rs.ctx := rs.index];
          }
        }
      }
      assert rss[..|rss|] == rss;
    }

    /** handleReady, apply and read parts. */
    method HandleReady(es: seq<Entry>, rss: seq<ReadState>)
      requires CanHappen(View(), Event.HandleReady(es, rss))
      modifies this`pendingReads, this`served, applies
      ensures View() == After(old(View()), Event.HandleReady(es, rss))
    {
      if |es| > 0 {
        SubmitToApplyWorker(es);
      }
      ProcessReadStates(rss);
      SweepReads();
    }
  }
}
