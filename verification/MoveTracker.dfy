/** Region moves over heartbeats (internal/pd/move_tracker.go): a move only goes forward, removes its source peer
    only after the new peer has been seen and three more heartbeats have passed, never leaves the region with fewer
    peers than it started with, and the number of moves stays within the rate limit. */
module MoveTracker {
  import opened Bytes

  const STABILIZE_HEARTBEATS: nat := 3
  const COOLDOWN_HEARTBEATS: nat := 10

  datatype Peer = Peer(id: nat, store: nat)

  datatype MoveState = Adding | Stabilizing | Transferring | Removing

  /** A region move in progress; `startedAt` is a clock reading. */
  datatype PendingMove = PendingMove(
    source: Peer, target: nat, targetPeer: nat, state: MoveState, stabilized: nat, startedAt: int)

  datatype Command = TransferLeader(to: Peer) | RemoveNode(peer: Peer)

  /** A heartbeat of the region: its peers and its leader. */
  datatype Heartbeat = Heartbeat(peers: seq<Peer>, leader: Option<Peer>)

  ghost function Stores(ps: seq<Peer>): set<nat> {
    set i | 0 <= i < |ps| :: ps[i].store
  }

  // ----- Peers of a region -----

  /** hasPeerOnStore. */
  method HasPeerOnStore(ps: seq<Peer>, store: nat) returns (has: bool)
    ensures has <==> store in Stores(ps)
  {
    for i := 0 to |ps|
      invariant forall j | 0 <= j < i :: ps[j].store != store
    {
      if ps[i].store == store {
        return true;
      }
    }
    return false;
  }

  /** A peer on the store, or one that can take over from it: store ID zero is never picked. */
  predicate Suits(p: Peer, store: nat, on: bool) {
    if on then p.store == store else p.store != store && p.store != 0
  }

  /** The first peer on a store, or the first that can take over from it. */
  function FirstOn(ps: seq<Peer>, store: nat, on: bool): Option<Peer> {
    if ps == [] then None
    else if Suits(ps[0], store, on) then Some(ps[0])
    else FirstOn(ps[1..], store, on)
  }

  lemma {:induction false} FirstOnIs(ps: seq<Peer>, store: nat, on: bool, i: nat)
    requires forall j | 0 <= j < |ps| && j < i :: !Suits(ps[j], store, on)
    ensures i < |ps| && Suits(ps[i], store, on) ==> FirstOn(ps, store, on) == Some(ps[i])
    ensures i >= |ps| ==> FirstOn(ps, store, on) == None
  {
    if i > 0 && ps != [] {
      FirstOnIs(ps[1..], store, on, i - 1);
    }
  }

  lemma {:induction false} FirstOnExists(ps: seq<Peer>, store: nat, on: bool)
    ensures match FirstOn(ps, store, on)
            case Some(p) => p in ps && Suits(p, store, on)
            case None => forall i | 0 <= i < |ps| :: !Suits(ps[i], store, on)
  {
    if ps != [] {
      FirstOnExists(ps[1..], store, on);
      assert ps == [ps[0]] + ps[1..];
    }
  }

  /** pickTransferTarget, and with `on` the search for the new peer. */
  method PickPeer(ps: seq<Peer>, store: nat, on: bool) returns (r: Option<Peer>)
    ensures r == FirstOn(ps, store, on)
  {
    for i := 0 to |ps|
      invariant forall j | 0 <= j < i :: !Suits(ps[j], store, on)
    {
      if Suits(ps[i], store, on) {
        FirstOnIs(ps, store, on, i);
        return Some(ps[i]);
      }
    }
    FirstOnIs(ps, store, on, |ps|);
    return None;
  }

  // ----- One heartbeat of a move -----

  /** The move after a heartbeat, `None` when it is complete, and the command that is sent. */
  datatype Advanced = Advanced(move: Option<PendingMove>, command: Option<Command>)

  function Step(m: PendingMove, hb: Heartbeat): Advanced {
    match m.state
    case Adding =>
      (match FirstOn(hb.peers, m.target, true)
       case None => Advanced(Some(m), None)
       case Some(p) => Advanced(Some(m.(targetPeer := p.id, state := Stabilizing, stabilized := 0)), None))
    case Stabilizing =>
      var n := m.(stabilized := m.stabilized + 1);
      if n.stabilized < STABILIZE_HEARTBEATS then Advanced(Some(n), None)
      else if LedFrom(hb, m.source.store) then
        (match FirstOn(hb.peers, m.source.store, false)
         case None => Advanced(Some(n.(state := Removing)), Some(RemoveNode(m.source)))
         case Some(p) => Advanced(Some(n.(state := Transferring)), Some(TransferLeader(p))))
      else Advanced(Some(n.(state := Removing)), Some(RemoveNode(m.source)))
    case Transferring =>
      if hb.leader.Some? && hb.leader.value.store != m.source.store then
        Advanced(Some(m.(state := Removing)), Some(RemoveNode(m.source)))
      else
        (match FirstOn(hb.peers, m.source.store, false)
         case None => Advanced(Some(m), None)
         case Some(p) => Advanced(Some(m), Some(TransferLeader(p))))
    case Removing =>
      if FirstOn(hb.peers, m.source.store, true).None? then Advanced(None, None)
      else Advanced(Some(m), Some(RemoveNode(m.source)))
  }

  predicate LedFrom(hb: Heartbeat, store: nat) {
    hb.leader.Some? && hb.leader.value.store == store
  }

  function Rank(s: MoveState): nat {
    match s case Adding => 0 case Stabilizing => 1 case Transferring => 2 case Removing => 3
  }

  /** A move keeps its peers, never goes back, finishes only when the source is gone, and transfers leadership only to
      a peer that stays. */
  lemma StepGoesForward(m: PendingMove, hb: Heartbeat)
    ensures var r := Step(m, hb);
            && (r.move.Some? ==>
                  && r.move.value.source == m.source && r.move.value.target == m.target
                  && Rank(m.state) <= Rank(r.move.value.state))
            && (r.move.None? ==> m.state == Removing && m.source.store !in Stores(hb.peers))
            && (r.command.Some? && r.command.value.RemoveNode? ==>
                  r.command.value.peer == m.source && r.move.Some? && r.move.value.state == Removing)
            && (r.command.Some? && r.command.value.TransferLeader? ==>
                  r.command.value.to in hb.peers && r.command.value.to.store != m.source.store)
  {
    FirstOnExists(hb.peers, m.source.store, true);
    FirstOnExists(hb.peers, m.source.store, false);
  }

  /** The source is first asked to leave when it does not lead, or when nobody else could. */
  lemma LeaderIsMovedFirst(m: PendingMove, hb: Heartbeat)
    requires m.state != Removing && Step(m, hb).command == Some(RemoveNode(m.source))
    ensures !LedFrom(hb, m.source.store) || Stores(hb.peers) <= {m.source.store, 0}
  {
    FirstOnExists(hb.peers, m.source.store, false);
  }

  // ----- A move over its heartbeats -----

  function NewMove(source: Peer, target: nat, startedAt: int := 0): PendingMove {
    PendingMove(source, target, 0, Adding, 0, startedAt)
  }

  /** The move after the heartbeats so far; `None` once complete. */
  function After(source: Peer, target: nat, hbs: seq<Heartbeat>): Option<PendingMove> {
    if hbs == [] then Some(NewMove(source, target))
    else
      match After(source, target, hbs[..|hbs| - 1])
      case None => None
      case Some(m) => Step(m, hbs[|hbs| - 1]).move
  }

  /** The command sent on the last heartbeat. */
  function CommandAt(source: Peer, target: nat, hbs: seq<Heartbeat>): Option<Command> {
    if hbs == [] then None
    else
      match After(source, target, hbs[..|hbs| - 1])
      case None => None
      case Some(m) => Step(m, hbs[|hbs| - 1]).command
  }

  /** The target was in the region on heartbeat `i`, at least `n` heartbeats before the last. */
  ghost predicate SeenBefore(target: nat, hbs: seq<Heartbeat>, i: nat, n: nat) {
    i + n < |hbs| && target in Stores(hbs[i].peers)
  }

  lemma {:induction false} StateMeansSeen(source: Peer, target: nat, hbs: seq<Heartbeat>) returns (i: nat)
    requires After(source, target, hbs).Some? && After(source, target, hbs).value.state != Adding
    ensures After(source, target, hbs).value.target == target
    ensures var m := After(source, target, hbs).value;
            SeenBefore(target, hbs, i, if m.state == Stabilizing then m.stabilized else STABILIZE_HEARTBEATS)
  {
    var n := |hbs| - 1;
    var was := After(source, target, hbs[..n]).value;
    TargetIsKept(source, target, hbs[..n]);
    StepGoesForward(was, hbs[n]);
    if was.state == Adding {
      i := n;
      FirstOnExists(hbs[n].peers, target, true);
    } else {
      i := StateMeansSeen(source, target, hbs[..n]);
    }
  }

  lemma {:induction false} TargetIsKept(source: Peer, target: nat, hbs: seq<Heartbeat>)
    ensures After(source, target, hbs).Some? ==>
              After(source, target, hbs).value.target == target && After(source, target, hbs).value.source == source
  {
    if hbs != [] {
      TargetIsKept(source, target, hbs[..|hbs| - 1]);
      var was := After(source, target, hbs[..|hbs| - 1]);
      if was.Some? {
        StepGoesForward(was.value, hbs[|hbs| - 1]);
      }
    }
  }

  /** On whatever heartbeats a move is driven: when it asks the source to leave, the target was in the region at least
      three heartbeats earlier. */
  lemma RemovedOnlyAfterStabilizing(source: Peer, target: nat, hbs: seq<Heartbeat>) returns (i: nat)
    requires CommandAt(source, target, hbs) == Some(RemoveNode(source))
    ensures SeenBefore(target, hbs, i, STABILIZE_HEARTBEATS)
  {
    var n := |hbs| - 1;
    StepGoesForward(After(source, target, hbs[..n]).value, hbs[n]);
    i := StateMeansSeen(source, target, hbs);
  }

  // ----- The region's peers during a move -----

  /** The region: its stores now and at all earlier times, its move, and whether removing the source was asked for. */
  datatype World = World(members: set<nat>, history: seq<set<nat>>, move: Option<PendingMove>, removing: bool)

  /** A heartbeat that shows the region as it is or once was; the new peer joins; the source leaves. */
  datatype Event = Beat(hb: Heartbeat) | TargetJoins | SourceLeaves

  ghost predicate Enabled(w: World, e: Event) {
    match e
    case Beat(hb) => Stores(hb.peers) in w.history
    case TargetJoins => true
    case SourceLeaves => w.removing
  }

  ghost function Changed(w: World, members: set<nat>): World {
    w.(members := members, history := w.history + [members])
  }

  ghost function Next(w: World, source: Peer, target: nat, e: Event): World {
    match e
    case Beat(hb) =>
      (match w.move
       case None => w
       case Some(m) =>
         var r := Step(m, hb);
         w.(move := r.move, removing := w.removing || r.command == Some(RemoveNode(source))))
    case TargetJoins => Changed(w, w.members + {target})
    case SourceLeaves => Changed(w, w.members - {source.store})
  }

  ghost predicate Inv(w: World, start: set<nat>, source: Peer, target: nat) {
    && (w.move.Some? ==> w.move.value.source == source && w.move.value.target == target)
    && w.members - {source.store, target} == start - {source.store}
    && (source.store !in w.members ==> w.removing)
    && (w.removing || (w.move.Some? && w.move.value.state != Adding) ==> target in w.members)
    && (forall i | 0 <= i < |w.history| && target in w.history[i] :: target in w.members)
  }

  lemma EventKeepsInv(w: World, start: set<nat>, source: Peer, target: nat, e: Event)
    requires Inv(w, start, source, target) && Enabled(w, e) && source.store in start && target !in start
    ensures Inv(Next(w, source, target, e), start, source, target)
  {
    match e
    case TargetJoins =>
    case SourceLeaves =>
    case Beat(hb) =>
      if w.move.Some? {
        StepGoesForward(w.move.value, hb);
        FirstOnExists(hb.peers, target, true);
      }
  }

  /** The worlds of a run, from the start of the move. */
  ghost predicate IsRun(source: Peer, target: nat, start: set<nat>, events: seq<Event>, worlds: seq<World>) {
    && |worlds| == |events| + 1
    && worlds[0] == World(start, [start], Some(NewMove(source, target)), false)
    && forall i | 0 <= i < |events| ::
       Enabled(worlds[i], events[i]) && worlds[i + 1] == Next(worlds[i], source, target, events[i])
  }

  lemma {:induction false} RunKeepsInv(source: Peer, target: nat, start: set<nat>, events: seq<Event>,
      worlds: seq<World>)
    requires IsRun(source, target, start, events, worlds) && source.store in start && target !in start
    ensures Inv(worlds[|events|], start, source, target)
  {
    if events != [] {
      var n := |events| - 1;
      RunKeepsInv(source, target, start, events[..n], worlds[..n + 1]);
      EventKeepsInv(worlds[n], start, source, target, events[n]);
    }
  }

  /** However late commands take effect and however stale heartbeats are, a move never leaves the region with fewer
      peers than it had. */
  lemma PeerCountNeverDrops(source: Peer, target: nat, start: set<nat>, events: seq<Event>, worlds: seq<World>)
    requires IsRun(source, target, start, events, worlds) && source.store in start && target !in start
    ensures |worlds[|events|].members| >= |start|
  {
    RunKeepsInv(source, target, start, events, worlds);
    var w := worlds[|events|];
    if source.store in w.members {
      forall x | x in start ensures x in w.members {
        assert x == source.store || x in start - {source.store};
      }
      SubsetCount(start, w.members);
    } else {
      var swapped := start - {source.store} + {target};
      assert swapped <= w.members;
      SubsetCount(swapped, w.members);
      assert |start - {source.store}| == |start| - 1;
    }
  }

  // ----- The tracker -----

  class Tracker {
    var moves: map<nat, PendingMove>
    var cooldowns: map<nat, nat>      // the heartbeat count at which the cooldown ends
    var heartbeatCount: nat

    constructor ()
      ensures Valid() && moves == map[] && cooldowns == map[] && heartbeatCount == 0
    {
      moves, cooldowns, heartbeatCount := map[], map[], 0;
    }

    ghost function Cooling(): set<nat>
      reads this
    {
      set r | r in cooldowns && heartbeatCount < cooldowns[r]
    }

    /** Moves in progress and regions cooling down. */
    ghost function Active(): nat
      reads this
    {
      |moves| + |Cooling()|
    }

    /** A region that is being moved is not cooling down. */
    ghost predicate Valid()
      reads this
    {
      moves.Keys !! Cooling()
    }

    /** HasPendingMove; an expired cooldown is dropped on the way. */
    method HasPendingMove(region: nat) returns (pending: bool)
      modifies this`cooldowns
      ensures pending <==> region in moves || region in old(Cooling())
      ensures Cooling() == old(Cooling()) && cooldowns.Keys <= old(cooldowns).Keys
      ensures !pending ==> region !in cooldowns
    {
      if region in moves {
        return true;
      }
      if region in cooldowns {
        if heartbeatCount < cooldowns[region] {
          return true;
        }
        cooldowns := cooldowns - {region};
      }
      return false;
    }

    /** ActiveMoveCount. */
    method ActiveMoveCount() returns (count: nat)
      ensures count == Active()
    {
      count := |moves|;
      var left := cooldowns.Keys;
      ghost var live: set<nat> := {};
      while left != {}
        invariant left <= cooldowns.Keys && live !! left && count == |moves| + |live|
        invariant forall r :: r in live <==> r in Cooling() && r !in left
        decreases |left|
      {
        var r :| r in left;
        left := left - {r};
        if heartbeatCount < cooldowns[r] {
          count, live := count + 1, live + {r};
        }
      }
      assert live == Cooling();
    }

    /** The balance scheduler's guard and StartMove: nothing starts at the rate limit or for a pending region. */
    method TryStartMove(region: nat, source: Peer, target: nat, now: int, limit: nat) returns (started: bool)
      requires Valid()
      modifies this`moves, this`cooldowns
      ensures Valid()
      ensures started <==> old(Active()) < limit && region !in old(moves) && region !in old(Cooling())
      ensures started ==> moves == old(moves)[region := NewMove(source, target, now)] && Active() == old(Active()) + 1
      ensures !started ==> moves == old(moves) && Active() == old(Active())
      ensures Active() <= limit || Active() == old(Active())
    {
      var active := ActiveMoveCount();
      if active >= limit {
        return false;
      }
      var pending := HasPendingMove(region);
      if pending {
        return false;
      }
      moves := moves[region := NewMove(source, target, now)];
      return true;
    }

    /** Advance: every heartbeat counts; the region's move, if any, takes its step and a finished one starts its
        cooldown. */
    method Advance(region: nat, hb: Option<Heartbeat>) returns (command: Option<Command>)
      requires Valid()
      modifies this
      ensures Valid() && Active() <= old(Active())
      ensures heartbeatCount == old(heartbeatCount) + (if hb.Some? then 1 else 0)
      ensures hb.None? || region !in old(moves) ==>
          command == None && moves == old(moves) && cooldowns == old(cooldowns)
      ensures hb.Some? && region in old(moves) ==>
                var r := Step(old(moves)[region], hb.value);
                && command == r.command
                && (r.move.Some? ==> moves == old(moves)[region := r.move.value] && cooldowns == old(cooldowns))
                && (r.move.None? ==>
                    moves == old(moves) - {region}
                    && cooldowns == old(cooldowns)[region := heartbeatCount + COOLDOWN_HEARTBEATS])
    {
      if hb.None? {
        return None;
      }
      Tick();
      if region !in moves {
        return None;
      }
      var next;
      next, command := AdvanceMove(moves[region], hb.value);
      if next.Some? {
        Update(region, next.value);
      } else {
        Complete(region);
      }
    }

    method Tick()
      requires Valid()
      modifies this`heartbeatCount
      ensures Valid() && Active() <= old(Active()) && heartbeatCount == old(heartbeatCount) + 1
    {
      heartbeatCount := heartbeatCount + 1;
      assert Cooling() <= old(Cooling());
      SubsetCount(Cooling(), old(Cooling()));
    }

    method Update(region: nat, move: PendingMove)
      requires Valid() && region in moves
      modifies this`moves
      ensures Valid() && Active() == old(Active()) && moves == old(moves)[region := move]
    {
      moves := moves[region := move];
      assert moves.Keys == old(moves).Keys;
      assert |moves| == |moves.Keys| && |old(moves)| == |old(moves).Keys|;
    }

    /** A finished move makes room for its own cooldown. */
    method Complete(region: nat)
      requires Valid() && region in moves
      modifies this`moves, this`cooldowns
      ensures Valid() && Active() == old(Active())
      ensures moves == old(moves) - {region}
          && cooldowns == old(cooldowns)[region := heartbeatCount + COOLDOWN_HEARTBEATS]
    {
      moves := moves - {region};
      cooldowns := cooldowns[region := heartbeatCount + COOLDOWN_HEARTBEATS];
      assert Cooling() == old(Cooling()) + {region};
      assert old(moves).Keys == moves.Keys + {region};
      assert |moves| == |moves.Keys| && |old(moves)| == |old(moves).Keys|;
    }

    /** CleanupStale: removes exactly the moves that started longer than the timeout ago. */
    method CleanupStale(now: int, timeout: int)
      requires Valid()
      modifies this`moves
      ensures Valid() && Active() <= old(Active())
      ensures moves == map r | r in old(moves) && now - old(moves)[r].startedAt <= timeout :: old(moves)[r]
    {
      var left := moves.Keys;
      while left != {}
        invariant left <= moves.Keys <= old(moves).Keys
        invariant forall r | r in moves :: moves[r] == old(moves)[r]
        invariant forall r | r in old(moves) && r !in left :: r in moves <==> now - old(moves)[r].startedAt <= timeout
        decreases |left|
      {
        var r :| r in left;
        left := left - {r};
        if now - moves[r].startedAt > timeout {
          moves := moves - {r};
        }
      }
      SubsetCount(moves.Keys, old(moves).Keys);
      assert |moves| == |moves.Keys| && |old(moves)| == |old(moves).Keys|;
    }
  }

  /** The state machine of Advance, on one move. */
  method AdvanceMove(move: PendingMove, hb: Heartbeat) returns (next: Option<PendingMove>, command: Option<Command>)
    ensures Advanced(next, command) == Step(move, hb)
  {
    match move.state
    case Adding =>
      var p := PickPeer(hb.peers, move.target, true);
      if p.None? {
        return Some(move), None;
      }
      return Some(move.(targetPeer := p.value.id, state := Stabilizing, stabilized := 0)), None;
    case Stabilizing =>
      var m := move.(stabilized := move.stabilized + 1);
      if m.stabilized < STABILIZE_HEARTBEATS {
        return Some(m), None;
      }
      if hb.leader.Some? && hb.leader.value.store == move.source.store {
        var to := PickPeer(hb.peers, move.source.store, false);
        if to.None? {
          return Some(m.(state := Removing)), Some(RemoveNode(move.source));
        }
        return Some(m.(state := Transferring)), Some(TransferLeader(to.value));
      }
      return Some(m.(state := Removing)), Some(RemoveNode(move.source));
    case Transferring =>
      if hb.leader.Some? && hb.leader.value.store != move.source.store {
        return Some(move.(state := Removing)), Some(RemoveNode(move.source));
      }
      var to := PickPeer(hb.peers, move.source.store, false);
      if to.None? {
        return Some(move), None;
      }
      return Some(move), Some(TransferLeader(to.value));
    case Removing =>
      var has := HasPeerOnStore(hb.peers, move.source.store);
      FirstOnExists(hb.peers, move.source.store, true);
      if !has {
        return None, None;
      }
      return Some(move), Some(RemoveNode(move.source));
  }
}
