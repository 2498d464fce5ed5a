/** What a region move does, told by its heartbeats alone (internal/pd/move_tracker.go): it waits for the target, lets
    three more heartbeats pass, hands the leadership over while the source leads, asks the source to leave, and is
    complete on the first heartbeat after that which does not show the source. */
module MoveHistory {
  import opened Bytes
  import opened MoveTracker

  ghost predicate Shows(hb: Heartbeat, store: nat) {
    store in Stores(hb.peers)
  }

  /** The target is first shown on heartbeat `t`. */
  ghost predicate JoinsAt(hbs: seq<Heartbeat>, target: nat, t: nat) {
    t < |hbs| && Shows(hbs[t], target) && forall i | 0 <= i < t :: !Shows(hbs[i], target)
  }

  ghost predicate HasHeir(hb: Heartbeat, source: nat) {
    exists p :: p in hb.peers && p.store != source && p.store != 0
  }

  /** The source may be asked to leave: somebody else leads. On the first heartbeat after stabilizing it is enough that
      the source is not known to lead, or that nobody could take over. */
  ghost predicate MayLeave(hb: Heartbeat, source: nat, first: bool) {
    || (hb.leader.Some? && hb.leader.value.store != source)
    || (first && (hb.leader.None? || !HasHeir(hb, source)))
  }

  /** The source is held back on heartbeats `from` to `to`. */
  ghost predicate HeldBack(hbs: seq<Heartbeat>, source: nat, t: nat, to: nat)
    requires to <= |hbs|
  {
    forall i | t + 3 <= i < to :: !MayLeave(hbs[i], source, i == t + 3)
  }

  /** After the target joined on heartbeat `t`, heartbeat `u` is the first on which the source may leave. */
  ghost predicate LeavesAt(hbs: seq<Heartbeat>, source: nat, t: nat, u: nat) {
    t + 3 <= u < |hbs| && MayLeave(hbs[u], source, u == t + 3) && HeldBack(hbs, source, t, u)
  }

  /** After that, heartbeat `v` is the first that does not show the source. */
  ghost predicate GoneAt(hbs: seq<Heartbeat>, source: nat, u: nat, v: nat) {
    u < v < |hbs| && !Shows(hbs[v], source) && forall i | u < i < v :: Shows(hbs[i], source)
  }

  /** The move in a later state, with the peer that joined. */
  function MoveIn(source: Peer, target: nat, joined: Heartbeat, state: MoveState, n: nat): PendingMove {
    var p := FirstOn(joined.peers, target, true);
    PendingMove(source, target, if p.Some? then p.value.id else 0, state, n, 0)
  }

  lemma TargetIsFound(hb: Heartbeat, store: nat)
    ensures FirstOn(hb.peers, store, true).Some? <==> Shows(hb, store)
  {
    FirstOnExists(hb.peers, store, true);
  }

  lemma HeirIsFound(hb: Heartbeat, source: nat)
    ensures FirstOn(hb.peers, source, false).Some? <==> HasHeir(hb, source)
  {
    FirstOnExists(hb.peers, source, false);
  }

  lemma {:induction false} WaitsForTarget(source: Peer, target: nat, hbs: seq<Heartbeat>)
    requires forall i | 0 <= i < |hbs| :: !Shows(hbs[i], target)
    ensures After(source, target, hbs) == Some(NewMove(source, target)) && CommandAt(source, target, hbs) == None
  {
    if hbs != [] {
      var n := |hbs| - 1;
      WaitsForTarget(source, target, hbs[..n]);
      TargetIsFound(hbs[n], target);
    }
  }

  lemma {:induction false} Stabilizes(source: Peer, target: nat, hbs: seq<Heartbeat>, t: nat)
    requires JoinsAt(hbs, target, t) && |hbs| <= t + 3
    ensures After(source, target, hbs) == Some(MoveIn(source, target, hbs[t], Stabilizing, |hbs| - 1 - t))
    ensures CommandAt(source, target, hbs) == None
  {
    var n := |hbs| - 1;
    if t == n {
      WaitsForTarget(source, target, hbs[..n]);
      TargetIsFound(hbs[n], target);
    } else {
      Stabilizes(source, target, hbs[..n], t);
    }
  }

  /** While the source leads and somebody else could, each heartbeat from the third on commands a transfer. */
  lemma {:induction false} HandsOver(source: Peer, target: nat, hbs: seq<Heartbeat>, t: nat)
    requires JoinsAt(hbs, target, t) && t + 3 < |hbs| && HeldBack(hbs, source.store, t, |hbs|)
    ensures After(source, target, hbs) == Some(MoveIn(source, target, hbs[t], Transferring, STABILIZE_HEARTBEATS))
    ensures var p := FirstOn(hbs[|hbs| - 1].peers, source.store, false);
            && (p.Some? <==> HasHeir(hbs[|hbs| - 1], source.store))
            && CommandAt(source, target, hbs) == if p.Some? then Some(TransferLeader(p.value)) else None
  {
    var n := |hbs| - 1;
    HeirIsFound(hbs[n], source.store);
    assert !MayLeave(hbs[n], source.store, n == t + 3);
    if n == t + 3 {
      Stabilizes(source, target, hbs[..n], t);
    } else {
      HandsOver(source, target, hbs[..n], t);
    }
  }

  /** From the first heartbeat on which the source may leave, it is asked to on every heartbeat that shows it. */
  lemma {:induction false} AsksToLeave(source: Peer, target: nat, hbs: seq<Heartbeat>, t: nat, u: nat)
    requires JoinsAt(hbs, target, t) && LeavesAt(hbs, source.store, t, u)
    requires forall i | u < i < |hbs| :: Shows(hbs[i], source.store)
    ensures After(source, target, hbs) == Some(MoveIn(source, target, hbs[t], Removing, STABILIZE_HEARTBEATS))
    ensures CommandAt(source, target, hbs) == Some(RemoveNode(source))
  {
    var n := |hbs| - 1;
    HeirIsFound(hbs[n], source.store);
    TargetIsFound(hbs[n], source.store);
    if n == u && u == t + 3 {
      Stabilizes(source, target, hbs[..n], t);
    } else if n == u {
      assert HeldBack(hbs[..n], source.store, t, n);
      HandsOver(source, target, hbs[..n], t);
    } else {
      assert LeavesAt(hbs[..n], source.store, t, u);
      AsksToLeave(source, target, hbs[..n], t, u);
    }
  }

  /** The move is complete on the first heartbeat after that which does not show the source, and stays so. */
  lemma {:induction false} Completes(source: Peer, target: nat, hbs: seq<Heartbeat>, t: nat, u: nat, v: nat)
    requires JoinsAt(hbs, target, t) && LeavesAt(hbs, source.store, t, u) && GoneAt(hbs, source.store, u, v)
    ensures After(source, target, hbs) == None && CommandAt(source, target, hbs) == None
  {
    var n := |hbs| - 1;
    assert LeavesAt(hbs[..n], source.store, t, u);
    if n == v {
      TargetIsFound(hbs[n], source.store);
      AsksToLeave(source, target, hbs[..n], t, u);
    } else {
      Completes(source, target, hbs[..n], t, u, v);
    }
  }

  /** A move is complete if and only if the three moments have come, whatever the heartbeats show besides. */
  lemma CompleteExactly(source: Peer, target: nat, hbs: seq<Heartbeat>)
    ensures After(source, target, hbs).None?
            <==> exists t, u, v :: JoinsAt(hbs, target, t) && LeavesAt(hbs, source.store, t, u)
                                   && GoneAt(hbs, source.store, u, v)
  {
    if t, u, v :| JoinsAt(hbs, target, t) && LeavesAt(hbs, source.store, t, u) && GoneAt(hbs, source.store, u, v) {
      Completes(source, target, hbs, t, u, v);
    } else {
      NotComplete(source, target, hbs);
    }
  }

  lemma {:induction false} FirstShown(hbs: seq<Heartbeat>, target: nat, n: nat) returns (t: nat)
    requires n < |hbs| && Shows(hbs[n], target)
    ensures JoinsAt(hbs, target, t)
    decreases n
  {
    if i :| 0 <= i < n && Shows(hbs[i], target) {
      t := FirstShown(hbs, target, i);
    } else {
      t := n;
    }
  }

  lemma {:induction false} FirstLeaving(hbs: seq<Heartbeat>, source: nat, t: nat, n: nat) returns (u: nat)
    requires t + 3 <= n < |hbs| && MayLeave(hbs[n], source, n == t + 3)
    ensures LeavesAt(hbs, source, t, u)
    decreases n
  {
    if i :| t + 3 <= i < n && MayLeave(hbs[i], source, i == t + 3) {
      u := FirstLeaving(hbs, source, t, i);
    } else {
      u := n;
    }
  }

  lemma {:induction false} FirstGone(hbs: seq<Heartbeat>, source: nat, u: nat, n: nat) returns (v: nat)
    requires u < n < |hbs| && !Shows(hbs[n], source)
    ensures GoneAt(hbs, source, u, v)
    decreases n
  {
    if i :| u < i < n && !Shows(hbs[i], source) {
      v := FirstGone(hbs, source, u, i);
    } else {
      v := n;
    }
  }

  lemma NotComplete(source: Peer, target: nat, hbs: seq<Heartbeat>)
    requires !exists t, u, v :: JoinsAt(hbs, target, t) && LeavesAt(hbs, source.store, t, u)
                                && GoneAt(hbs, source.store, u, v)
    ensures After(source, target, hbs).Some?
  {
    if i :| 0 <= i < |hbs| && Shows(hbs[i], target) {
      var t := FirstShown(hbs, target, i);
      if |hbs| <= t + 3 {
        Stabilizes(source, target, hbs, t);
      } else if j :| t + 3 <= j < |hbs| && MayLeave(hbs[j], source.store, j == t + 3) {
        var u := FirstLeaving(hbs, source.store, t, j);
        if k :| u < k < |hbs| && !Shows(hbs[k], source.store) {
          var v := FirstGone(hbs, source.store, u, k);
        } else {
          AsksToLeave(source, target, hbs, t, u);
        }
      } else {
        HandsOver(source, target, hbs, t);
      }
    } else {
      WaitsForTarget(source, target, hbs);
    }
  }

  /** In numbers: if on the third heartbeat after the target joined somebody else leads, the source is asked to leave
      there, and the move is complete on the next heartbeat if that does not show the source. */
  lemma CompletesInTime(source: Peer, target: nat, hbs: seq<Heartbeat>, t: nat)
    requires JoinsAt(hbs, target, t) && |hbs| == t + 5
    requires hbs[t + 3].leader.Some? && hbs[t + 3].leader.value.store != source.store
    requires !Shows(hbs[t + 4], source.store)
    ensures CommandAt(source, target, hbs[..t + 4]) == Some(RemoveNode(source)) && After(source, target, hbs).None?
  {
    assert JoinsAt(hbs[..t + 4], target, t) && LeavesAt(hbs[..t + 4], source.store, t, t + 3);
    AsksToLeave(source, target, hbs[..t + 4], t, t + 3);
    assert LeavesAt(hbs, source.store, t, t + 3) && GoneAt(hbs, source.store, t + 3, t + 4);
    Completes(source, target, hbs, t, t + 3, t + 4);
  }
}
