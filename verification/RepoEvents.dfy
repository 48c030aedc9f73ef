/** What a commit event is worth to someone who has only the events: its operations can be
    replayed and undone, its blocks are enough, its revisions ascend. */
module RepoEvents {
  import opened Common
  import opened Order
  import opened Content
  import opened ActorStore
  import opened RepoOps
  import opened RepoInvariant
  import Tid

  // ----- replay and undo -----

  function Replay(m: Entries, op: RepoOp): Entries {
    if op.cid.Some? then m[op.path := op.cid.value] else m - {op.path}
  }

  function Revert(m: Entries, op: RepoOp): Entries {
    if op.prev.Some? then m[op.path := op.prev.value] else m - {op.path}
  }

  /** Every operation applied, first to last. */
  function ReplayAll(m: Entries, ops: seq<RepoOp>): Entries {
    if ops == [] then m else Replay(ReplayAll(m, ops[..|ops| - 1]), ops[|ops| - 1])
  }

  /** Every operation undone, last to first. */
  function RevertAll(m: Entries, ops: seq<RepoOp>): Entries
    decreases |ops|
  {
    if ops == [] then m else RevertAll(Revert(m, ops[|ops| - 1]), ops[..|ops| - 1])
  }

  lemma WriteInverts(lib: Library, op: WriteOp, advance: nat, w: Work)
    requires ApplyOp(lib, op, advance, w).Ok?
    ensures var next := ApplyOp(lib, op, advance, w).value;
      Replay(w.tree, OpOf(next.1)) == next.0.tree && Revert(next.0.tree, OpOf(next.1)) == w.tree
  {
  }

  lemma OneMoreInverts(first: Entries, prior: Entries, next: Entries, ops: seq<RepoOp>, op: RepoOp)
    requires ReplayAll(first, ops) == prior && RevertAll(prior, ops) == first
    requires Replay(prior, op) == next && Revert(next, op) == prior
    ensures ReplayAll(first, ops + [op]) == next && RevertAll(next, ops + [op]) == first
  {
    assert (ops + [op])[..|ops|] == ops;
  }

  lemma {:induction false} WritesInvert(lib: Library, job: Job, n: nat, w: Work)
    requires n <= |job.ops| <= |job.advances|
    requires ApplyOps(lib, job, n, w).Ok?
    ensures var done := ApplyOps(lib, job, n, w).value;
      ReplayAll(w.tree, OpsOf(done.1)) == done.0.tree && RevertAll(done.0.tree, OpsOf(done.1)) == w.tree
  {
    if n > 0 {
      hide ApplyOp, Replay, Revert, ReplayAll, RevertAll;
      WritesInvert(lib, job, n - 1, w);
      var prior := ApplyOps(lib, job, n - 1, w).value;
      WriteInverts(lib, job.ops[n - 1], job.advances[n - 1], prior.0);
      var next := ApplyOp(lib, job.ops[n - 1], job.advances[n - 1], prior.0).value;
      OneMoreInverts(w.tree, prior.0.tree, next.0.tree, OpsOf(prior.1), OpOf(next.1));
      assert OpsOf(prior.1 + [next.1]) == OpsOf(prior.1) + [OpOf(next.1)];
    } else {
      assert OpsOf([]) == [];
    }
  }

  ghost function TreeNamed(data: Option<Cid>): Entries {
    if data.Some? && data.value.content.TreeRoot? then data.value.content.entries else map[]
  }

  /** The operations of any commit event lead from the tree `prevData` names to the tree of the
      commit, and back again. */
  lemma EventInverts(lib: Library, job: Job, t: Tables)
    requires ValidJob(job) && WellKeyed(t.blocks)
    requires ApplyBatch(lib, job, t).Ok?
    ensures var e := EventOf(job.did, ApplyBatch(lib, job, t).value);
      && IsCommit(e.commit)
      && ReplayAll(TreeNamed(e.prevData), e.ops) == TreeOf(e.commit)
      && RevertAll(TreeOf(e.commit), e.ops) == TreeNamed(e.prevData)
  {
    WritesInvert(lib, job, |job.ops|, Start(t, Load(lib, t).value));
  }

  // ----- the blocks of the events -----

  lemma {:induction false} WritesCollect(lib: Library, job: Job, n: nat, w: Work)
    requires n <= |job.ops| <= |job.advances|
    requires ApplyOps(lib, job, n, w).Ok? && w.put == []
    ensures var done := ApplyOps(lib, job, n, w).value.0;
      done.db.blocks == Merged(w.db.blocks, done.put)
  {
    if n == 0 {
      MergedNone(w.db.blocks);
    } else {
      WritesCollect(lib, job, n - 1, w);
      var prior := ApplyOps(lib, job, n - 1, w).value.0;
      WriteCollects(lib, job.ops[n - 1], job.advances[n - 1], prior, w.db);
    }
  }

  lemma WriteCollects(lib: Library, op: WriteOp, advance: nat, w: Work, t: Tables)
    requires ApplyOp(lib, op, advance, w).Ok?
    requires w.db.blocks == Merged(t.blocks, w.put)
    ensures var next := ApplyOp(lib, op, advance, w).value.0;
      next.db.blocks == Merged(t.blocks, next.put)
  {
    if !op.action.Delete? {
      var record := Typed(op.record.value, op.collection);
      var next := ApplyOp(lib, op, advance, w).value;
      MergedOne(t, w.put, RecordBlock(record));
      var db := PutBlock(w.db, RecordBlock(record));
      var row := next.1.row;
      var indexed := ClearBlobRefs(db.(records := db.records[row := CidOf(RecordBlock(record))]), row);
      AddBlobsAll(indexed, record.blobs, row);
    }
  }

  lemma MergedTwice(blocks: map<Cid, Block>, xs: seq<Block>, ys: seq<Block>)
    ensures Merged(Merged(blocks, xs), ys) == Merged(blocks, xs + ys)
  {
    assert CidsOf(xs + ys) == CidsOf(xs) + CidsOf(ys);
  }

  /** The block list of a commit event is what the batch added to the block table, whatever
      tree the batch had loaded. */
  lemma RunAddsItsBlocks(lib: Library, job: Job, from: Loaded, t: Tables)
    requires ValidJob(job) && RunBatch(lib, job, from, t).Ok?
    ensures var o := RunBatch(lib, job, from, t).value;
      o.db.blocks == Merged(t.blocks, o.newBlocks)
  {
    WritesCollect(lib, job, |job.ops|, Start(t, from));
    var w := ApplyOps(lib, job, |job.ops|, Start(t, from)).value.0;
    var o := RunBatch(lib, job, from, t).value;
    var nodes := DiffNodes(lib, from.base, w.tree, job.dirty, |Nodes(lib, w.tree)|);
    FinishBlocks(w.db, nodes, o.commit);
    MergedTwice(t.blocks, w.put, nodes + [CommitBlock(o.commit)]);
    assert o.newBlocks == w.put + (nodes + [CommitBlock(o.commit)]);
  }

  lemma BatchAddsItsBlocks(lib: Library, job: Job, t: Tables)
    requires ValidJob(job) && ApplyBatch(lib, job, t).Ok?
    ensures var o := ApplyBatch(lib, job, t).value;
      o.db.blocks == Merged(t.blocks, o.newBlocks)
  {
    RunAddsItsBlocks(lib, job, Load(lib, t).value, t);
  }

  // ----- the clock -----

  /** The record keys that a batch takes from the clock, in order. */
  function Generated(ops: seq<WriteOp>, results: seq<WriteResult>): seq<string>
    requires |results| <= |ops|
  {
    if results == [] then [] else
      var k := |results| - 1;
      Generated(ops, results[..k]) +
      if ops[k].rkey == "" && !ops[k].action.Delete? then [results[k].row.1] else []
  }

  /** Everything a batch takes from the clock: generated keys, then the commit's revision. */
  function Issued(ops: seq<WriteOp>, o: Outcome): seq<string>
    requires |o.results| <= |ops|
  {
    Generated(ops, o.results) + [o.commit.rev]
  }

  /** Ascending, all after `floor`, and nothing after `top`. */
  ghost predicate Between(floor: string, ss: seq<string>, top: string) {
    && Ascending(ss)
    && forall s :: s in ss ==> Less(floor, s) && (s == top || Less(s, top))
  }

  lemma BetweenExtend(floor: string, ss: seq<string>, top: string, next: string)
    requires Between(floor, ss, top) && Less(top, next) && (top == floor || Less(floor, top))
    ensures Between(floor, ss + [next], next)
  {
    LessTransitiveIf(floor, top, next);
    forall s | s in ss ensures Less(s, next) {
      if s != top { LessTransitive(s, top, next); }
    }
  }

  lemma LessTransitiveIf(a: string, b: string, c: string)
    requires (a == b || Less(a, b)) && Less(b, c)
    ensures Less(a, c)
  {
    if a != b { LessTransitive(a, b, c); }
  }

  lemma {:induction false} WritesIssueAscending(lib: Library, job: Job, n: nat, w: Work)
    requires n <= |job.ops| <= |job.advances|
    requires ApplyOps(lib, job, n, w).Ok? && w.clock.id < 1024
    requires ApplyOps(lib, job, n, w).value.0.clock.last < Tid.TWO_53
    ensures var done := ApplyOps(lib, job, n, w).value;
      && |done.1| == n && done.0.clock.id == w.clock.id && w.clock.last <= done.0.clock.last
      && Between(w.clock.Current(), Generated(job.ops, done.1), done.0.clock.Current())
      && (w.clock.Current() == done.0.clock.Current() || Less(w.clock.Current(), done.0.clock.Current()))
  {
    if n > 0 {
      var done := ApplyOps(lib, job, n, w).value;
      var prior := ApplyOps(lib, job, n - 1, w).value;
      WritesIssueAscending(lib, job, n - 1, w);
      assert done.1[..n - 1] == prior.1;
      if done.0.clock != prior.0.clock {
        Tid.TextOrder(prior.0.clock.last, w.clock.id, done.0.clock.last, w.clock.id);
        BetweenExtend(w.clock.Current(), Generated(job.ops, prior.1), prior.0.clock.Current(), done.0.clock.Current());
        LessTransitiveIf(w.clock.Current(), prior.0.clock.Current(), done.0.clock.Current());
      }
    }
  }

  /** The revision a batch starts after: the current one, or the least TID of clock 0. */
  ghost function LastRev(t: Tables): string {
    if t.root.Some? then t.root.value.rev else Tid.Text(0, 0)
  }

  /** Where a batch leaves its clock. */
  ghost function ClockAfter(lib: Library, job: Job, t: Tables): TidClock
    requires ValidJob(job) && ApplyBatch(lib, job, t).Ok?
  {
    var from := Load(lib, t).value;
    ApplyOps(lib, job, |job.ops|, Start(t, from)).value.0.clock.Next(job.advances[|job.ops|])
  }

  /** While the clock fits its 53 bits, everything a batch takes from it ascends from the
      previous revision up to the new one. */
  lemma BatchIssuesAscending(lib: Library, job: Job, t: Tables)
    requires ValidJob(job) && Grounded(lib, job.did, t) && Tid.Canonical(LastRev(t))
    requires ApplyBatch(lib, job, t).Ok?
    requires ClockAfter(lib, job, t).last < Tid.TWO_53
    ensures var o := ApplyBatch(lib, job, t).value;
      && |o.results| == |job.ops|
      && Between(LastRev(t), Issued(job.ops, o), o.commit.rev)
      && LastRev(o.db) == o.commit.rev && Tid.Canonical(o.commit.rev)
  {
    GroundedLoads(lib, job.did, t);
    var from := Load(lib, t).value;
    LoadedClock(lib, job.did, t);
    var w0 := Start(t, from);
    WritesIssueAscending(lib, job, |job.ops|, w0);
    var done := ApplyOps(lib, job, |job.ops|, w0).value;
    var c, c' := done.0.clock, ClockAfter(lib, job, t);
    Tid.TextOrder(c.last, c.id, c'.last, c'.id);
    Tid.TextRoundTrip(c'.last, c'.id);
    BetweenExtend(LastRev(t), Generated(job.ops, done.1), c.Current(), c'.Current());
  }

  lemma LoadedClock(lib: Library, did: string, t: Tables)
    requires Grounded(lib, did, t) && Tid.Canonical(LastRev(t)) && Load(lib, t).Ok?
    ensures Load(lib, t).value.clock.Current() == LastRev(t) && Load(lib, t).value.clock.id < 1024
  {
    if t.root.Some? {
      Tid.CanonicalIsText(t.root.value.rev);
    }
  }
}
