/** What is proposed to Raft and what of it reaches ApplyFunc (internal/raftstore/peer.go, raftlog_gc.go,
    split_admin.go): a write carries its proposal ID in front of the command, admin commands start with a tag. */
module Proposals {
  import opened Bytes
  import opened ApplyPipeline
  import LogGc

  datatype Proposal =
    | Write(id: uint64, cmd: Bytes)
    | CompactLog(req: LogGc.CompactLogRequest)
    | Split(body: Bytes)                    // what follows the tag of a split command
    | ConfChange(body: Bytes)
    | NoOp                                  // the empty entry of a new leader

  function EntryOf(index: uint64, p: Proposal): Entry {
    match p
    case Write(id, cmd) => Entry(index, true, BE(id, 8) + cmd)
    case CompactLog(req) => Entry(index, true, LogGc.MarshalCompactLog(req))
    case Split(body) => Entry(index, true, [0x02] + body)
    case ConfChange(body) => Entry(index, false, body)
    case NoOp => Entry(index, true, [])
  }

  /** 2^56: from here on a proposal ID shows in the first byte of its entry. */
  const TAGGED_IDS: nat := 0x100_0000_0000_0000

  /** The first byte of the ID is the tag of an admin command. */
  predicate Collides(p: Proposal) {
    p.Write? && TAGGED_IDS <= p.id < 3 * TAGGED_IDS
  }

  /** A write with a command in it. */
  predicate IsWrite(p: Proposal) {
    p.Write? && p.cmd != []
  }

  lemma {:induction false} HeadOfBE(h: nat, l: nat, w: nat)
    requires h < 256 && l < Pow256(w)
    ensures BE(h * Pow256(w) + l, w + 1) == [h] + BE(l, w)
  {
    if w == 0 {
      assert BE(h, 1) == BE(h / 256, 0) + [h % 256];
    } else {
      var p := Pow256(w - 1);
      var n := h * Pow256(w) + l;
      assert n == 256 * (h * p + l / 256) + l % 256;
      assert n / 256 == h * p + l / 256 && n % 256 == l % 256;
      HeadOfBE(h, l / 256, w - 1);
    }
  }

  lemma Pow256Of7()
    ensures Pow256(7) == TAGGED_IDS
  {
    assert Pow256(3) == 0x100_0000;
    assert Pow256(5) == 256 * (256 * Pow256(3));
  }

  lemma FirstByteOfID(id: uint64)
    ensures |BE(id, 8)| == 8 && BE(id, 8)[0] == id / TAGGED_IDS
  {
    Pow256Of7();
    Pow256Of8();
    HeadOfBE(id / TAGGED_IDS, id % TAGGED_IDS, 7);
  }

  /** Exactly the writes with a command are data, unless their ID collides with a tag. */
  lemma DataExactly(index: uint64, p: Proposal)
    ensures IsData(EntryOf(index, p)) <==> IsWrite(p) && !Collides(p)
  {
    if p.Write? {
      FirstByteOfID(p.id);
      var d := BE(p.id, 8) + p.cmd;
      assert d[0] == p.id / TAGGED_IDS && |d| == 8 + |p.cmd|;
    }
  }

  /** A compaction is recognized and read back. */
  lemma CompactionIsRecognized(index: uint64, req: LogGc.CompactLogRequest)
    ensures var d := EntryOf(index, CompactLog(req)).data;
            IsCompactLog(d) && !IsSplitAdmin(d) && LogGc.UnmarshalCompactLog(d) == Some(req)
  {
    LogGc.CompactLogRoundTrip(req, []);
    assert LogGc.MarshalCompactLog(req) + [] == LogGc.MarshalCompactLog(req);
  }

  lemma SplitIsRecognized(index: uint64, body: Bytes)
    ensures var d := EntryOf(index, Split(body)).data; IsSplitAdmin(d) && !IsCompactLog(d)
  {
  }

  // ----- Whole batches -----

  /** The log of a list of proposals that starts behind `base`. */
  function LogOf(base: nat, ps: seq<Proposal>): (es: seq<Entry>)
    requires base + |ps| <= MAX_UINT64
    ensures |es| == |ps|
  {
    if ps == [] then [] else LogOf(base, ps[..|ps| - 1]) + [EntryOf(base + |ps|, ps[|ps| - 1])]
  }

  /** The commands of the writes, in order. */
  function CommandsOf(ps: seq<Proposal>): seq<Bytes> {
    if ps == [] then []
    else
      var p := ps[|ps| - 1];
      CommandsOf(ps[..|ps| - 1]) + if p.Write? && p.cmd != [] then [p.cmd] else []
  }

  /** What ApplyFunc takes out of an entry: the bytes behind the proposal ID. */
  function Payloads(es: seq<Entry>): seq<Bytes> {
    seq(|es|, i requires 0 <= i < |es| => if |es[i].data| < 8 then [] else es[i].data[8..])
  }

  lemma PayloadsConcat(a: seq<Entry>, b: seq<Entry>)
    ensures Payloads(a + b) == Payloads(a) + Payloads(b)
  {
  }

  lemma PayloadOfWrite(index: uint64, id: uint64, cmd: Bytes)
    ensures Payloads([EntryOf(index, Write(id, cmd))]) == [cmd]
  {
    assert (BE(id, 8) + cmd)[8..] == cmd;
  }

  /** The filter makes of one more proposal the command it carries, if it carries one. */
  lemma OneMoreProposal(es: seq<Entry>, index: uint64, p: Proposal)
    requires !Collides(p)
    ensures var cmds := if IsWrite(p) then [p.cmd] else [];
            Payloads(DataOf(es + [EntryOf(index, p)])) == Payloads(DataOf(es)) + cmds
  {
    var e := EntryOf(index, p);
    assert (es + [e])[..|es|] == es;
    DataExactly(index, p);
    if IsWrite(p) {
      PayloadsConcat(DataOf(es), [e]);
      PayloadOfWrite(index, p.id, p.cmd);
    }
  }

  /** The filter hands over exactly the commands that were proposed, in order. */
  lemma {:induction false} FilterGivesCommands(base: nat, ps: seq<Proposal>)
    requires base + |ps| <= MAX_UINT64 && forall i | 0 <= i < |ps| :: !Collides(ps[i])
    ensures Payloads(DataOf(LogOf(base, ps))) == CommandsOf(ps)
  {
    if ps != [] {
      var n := |ps| - 1;
      FilterGivesCommands(base, ps[..n]);
      OneMoreProposal(LogOf(base, ps[..n]), base + |ps|, ps[n]);
    }
  }

  /** Once the pipeline is drained, ApplyFunc has been given exactly the commands proposed, once each and in order. */
  lemma DrainedPipelineAppliesCommands(base: uint64, restored: uint64, steps: seq<Step>, ps: seq<Proposal>)
    requires Run(base, restored, steps).Some? && !Run(base, restored, steps).value.applyInFlight
    requires base + |ps| <= MAX_UINT64 && Run(base, restored, steps).value.committed == LogOf(base, ps)
    requires forall i | 0 <= i < |ps| :: !Collides(ps[i])
    ensures Payloads(Run(base, restored, steps).value.handed) == CommandsOf(ps)
  {
    RunKeepsInv(base, restored, steps);
    DrainedPipelineIsInline(base, restored, steps);
    FilterGivesCommands(base, ps);
  }

  ghost predicate AlwaysData(id: uint64) {
    forall index: uint64, cmd: Bytes | cmd != [] :: IsData(EntryOf(index, Write(id, cmd)))
  }

  /** The writes of a proposal ID always reach ApplyFunc if and only if the first byte of the ID is no admin tag. */
  lemma IDIsSafeExactly(id: uint64)
    ensures AlwaysData(id) <==> !(TAGGED_IDS <= id < 3 * TAGGED_IDS)
  {
    forall index: uint64, cmd: Bytes | cmd != []
      ensures IsData(EntryOf(index, Write(id, cmd))) <==> !Collides(Write(id, cmd))
    {
      DataExactly(index, Write(id, cmd));
    }
    var cmd: Bytes := [0];
    assert cmd != [] && (IsData(EntryOf(0, Write(id, cmd))) <==> !Collides(Write(id, cmd)));
  }

  /** The first colliding ID: the write is taken for a compaction and never handed over. */
  lemma CollidingWriteIsLost(index: uint64, cmd: Bytes)
    ensures var e := EntryOf(index, Write(TAGGED_IDS, cmd)); IsCompactLog(e.data) && DataOf([e]) == []
  {
    FirstByteOfID(TAGGED_IDS);
    DataExactly(index, Write(TAGGED_IDS, cmd));
    DataOfOne(EntryOf(index, Write(TAGGED_IDS, cmd)));
  }
}
