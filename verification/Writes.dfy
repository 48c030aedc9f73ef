/** What a committed batch comes to, in terms of the writes it was given: which records the tree
    holds, which blobs the event lists, and which batches commit at all. */
module Writes {
  import opened Common
  import opened Content
  import opened ActorStore
  import opened RepoOps
  import opened RepoInvariant

  /** The CID is of the record given, with the collection as its type if it came without one, and
      that record is valid. */
  ghost predicate Records(lib: Library, op: WriteOp, c: Cid) {
    && op.record.Some? && c.content.RecordBlock?
    && var given, r := op.record.value, c.content.record;
    && r.body == given.body && r.blobs == given.blobs
    && r.typ == (if given.typ.Some? then given.typ else Some(op.collection))
    && lib.validRecord(r)
  }

  ghost predicate GivesKey(op: WriteOp) {
    op.rkey != "" || op.action.Delete?
  }

  /** The path is in the write's collection, at its key if it gives one. */
  ghost predicate PathFor(op: WriteOp, p: Path) {
    if GivesKey(op) then p == op.collection + "/" + op.rkey
    else exists key: string :: p == op.collection + "/" + key
  }

  /** One write, seen from the tree. */
  ghost predicate Moves(lib: Library, op: WriteOp, p: Path, before: Entries, after: Entries) {
    && PathFor(op, p) && lib.validKey(p)
    && match op.action
      case Delete => p in before && after == before - {p}
      case Unknown(_) => false
      case _ => p in after && Records(lib, op, after[p]) && after == before[p := after[p]]
  }

  /** The event's operation says what the write did. */
  ghost predicate Tells(op: WriteOp, e: RepoOp, before: Entries, after: Entries) {
    && e.action == op.action
    && e.prev == (if e.path in before then Some(before[e.path]) else None)
    && e.cid == (if e.path in after then Some(after[e.path]) else None)
  }

  /** Trees from one to the next by these writes, as the operations tell. */
  ghost predicate Trail(lib: Library, ops: seq<WriteOp>, told: seq<RepoOp>, trees: seq<Entries>) {
    && |told| == |ops| && |trees| == |ops| + 1
    && forall i :: 0 <= i < |ops| ==>
      Moves(lib, ops[i], told[i].path, trees[i], trees[i + 1]) && Tells(ops[i], told[i], trees[i], trees[i + 1])
  }

  lemma WriteMoves(lib: Library, op: WriteOp, advance: nat, w: Work)
    requires ApplyOp(lib, op, advance, w).Ok?
    ensures var (next, r) := ApplyOp(lib, op, advance, w).value;
      Moves(lib, op, OpOf(r).path, w.tree, next.tree) && Tells(op, OpOf(r), w.tree, next.tree)
  {
    var (next, r) := ApplyOp(lib, op, advance, w).value;
    assert OpOf(r).path == op.collection + "/" + r.row.1;
  }

  lemma OneMoreMove(lib: Library, ops: seq<WriteOp>, told: seq<RepoOp>, trees: seq<Entries>, op: WriteOp, e: RepoOp,
      m: Entries)
    requires Trail(lib, ops, told, trees) && Moves(lib, op, e.path, trees[|ops|], m) && Tells(op, e, trees[|ops|], m)
    ensures Trail(lib, ops + [op], told + [e], trees + [m])
  {
    hide Moves, Tells;
  }

  lemma {:induction false} WritesMove(lib: Library, job: Job, n: nat, w: Work) returns (trees: seq<Entries>)
    requires n <= |job.ops| <= |job.advances|
    requires ApplyOps(lib, job, n, w).Ok?
    ensures var (done, rs) := ApplyOps(lib, job, n, w).value;
      Trail(lib, job.ops[..n], OpsOf(rs), trees) && trees[0] == w.tree && trees[n] == done.tree
  {
    hide ApplyOp, Moves, Tells, OpOf;
    if n == 0 {
      trees := [w.tree];
    } else {
      var before := WritesMove(lib, job, n - 1, w);
      var (prior, rs) := ApplyOps(lib, job, n - 1, w).value;
      WriteMoves(lib, job.ops[n - 1], job.advances[n - 1], prior);
      var (next, r) := ApplyOp(lib, job.ops[n - 1], job.advances[n - 1], prior).value;
      OneMoreMove(lib, job.ops[..n - 1], OpsOf(rs), before, job.ops[n - 1], OpOf(r), next.tree);
      assert job.ops[..n] == job.ops[..n - 1] + [job.ops[n - 1]];
      assert OpsOf(rs + [r]) == OpsOf(rs) + [OpOf(r)];
      trees := before + [next.tree];
    }
  }

  /** A committed batch made its writes one by one, from the tree before to the tree of the new
      commit, and its event tells each of them. */
  lemma BatchMakesWrites(lib: Library, job: Job, t: Tables) returns (trees: seq<Entries>)
    requires ValidJob(job) && Grounded(lib, job.did, t) && ApplyBatch(lib, job, t).Ok?
    ensures var o := ApplyBatch(lib, job, t).value;
      && Trail(lib, job.ops, EventOf(job.did, o).ops, trees)
      && trees[0] == CurrentTree(t) && trees[|job.ops|] == CurrentTree(o.db)
  {
    BatchGrounded(lib, job, t);
    trees := WritesMove(lib, job, |job.ops|, Start(t, Load(lib, t).value));
    assert job.ops[..|job.ops|] == job.ops;
  }

  // ----- what the tree then holds -----

  /** Nothing after the i-th write touches its path. */
  ghost predicate LastAt(told: seq<RepoOp>, i: nat) {
    i < |told| && forall j :: i < j < |told| ==> told[j].path != told[i].path
  }

  lemma {:induction false} PathStays(lib: Library, ops: seq<WriteOp>, told: seq<RepoOp>, trees: seq<Entries>, i: nat,
      n: nat, p: Path)
    requires Trail(lib, ops, told, trees) && i <= n <= |ops|
    requires forall j :: i <= j < n ==> told[j].path != p
    ensures p in trees[n] <==> p in trees[i]
    ensures p in trees[n] ==> trees[n][p] == trees[i][p]
  {
    if i < n {
      PathStays(lib, ops, told, trees, i, n - 1, p);
      assert Moves(lib, ops[n - 1], told[n - 1].path, trees[n - 1], trees[n]);
    }
  }

  /** After a committed batch the path of a write that nothing later in the batch touches has the
      record given to that write, or nothing if it was a delete; a path that no write touches has
      what it had. */
  lemma BatchLeavesRecords(lib: Library, job: Job, t: Tables)
    requires ValidJob(job) && Grounded(lib, job.did, t) && ApplyBatch(lib, job, t).Ok?
    ensures var o := ApplyBatch(lib, job, t).value;
      var told, m := EventOf(job.did, o).ops, CurrentTree(o.db);
      && |told| == |job.ops|
      && (forall i :: 0 <= i < |told| && LastAt(told, i) ==>
        if job.ops[i].action.Delete? then told[i].path !in m
        else told[i].path in m && Records(lib, job.ops[i], m[told[i].path]))
    ensures var o := ApplyBatch(lib, job, t).value;
      forall p {:trigger p in CurrentTree(o.db)} ::
        (forall i :: 0 <= i < |job.ops| ==> EventOf(job.did, o).ops[i].path != p) ==>
        (if p in CurrentTree(t) then p in CurrentTree(o.db) && CurrentTree(o.db)[p] == CurrentTree(t)[p]
         else p !in CurrentTree(o.db))
  {
    var o := ApplyBatch(lib, job, t).value;
    var trees := BatchMakesWrites(lib, job, t);
    var told, n := EventOf(job.did, o).ops, |job.ops|;
    hide ApplyBatch, EventOf, Grounded, CurrentTree, Records;
    forall i | 0 <= i < |told| && LastAt(told, i)
      ensures if job.ops[i].action.Delete? then told[i].path !in trees[n]
        else told[i].path in trees[n] && Records(lib, job.ops[i], trees[n][told[i].path])
    {
      assert Moves(lib, job.ops[i], told[i].path, trees[i], trees[i + 1]);
      PathStays(lib, job.ops, told, trees, i + 1, n, told[i].path);
    }
    forall p | forall i :: 0 <= i < n ==> told[i].path != p
      ensures if p in trees[0] then p in trees[n] && trees[n][p] == trees[0][p] else p !in trees[n]
    {
      PathStays(lib, job.ops, told, trees, 0, n, p);
    }
  }

  // ----- which batches commit -----

  lemma MoveApplies(lib: Library, op: WriteOp, advance: nat, w: Work, p: Path, m: Entries)
    requires Moves(lib, op, p, w.tree, m) && GivesKey(op)
    ensures ApplyOp(lib, op, advance, w).Ok? && ApplyOp(lib, op, advance, w).value.0.tree == m
  {
    assert p == Join((op.collection, op.rkey));
    if !op.action.Delete? {
      RecordIsTyped(lib, op, m[p]);
    }
  }

  lemma RecordIsTyped(lib: Library, op: WriteOp, c: Cid)
    requires Records(lib, op, c)
    ensures c == CidOf(RecordBlock(Typed(op.record.value, op.collection)))
  {
  }

  lemma {:induction false} TrailApplies(lib: Library, job: Job, told: seq<RepoOp>, trees: seq<Entries>, n: nat, w: Work)
    requires n <= |job.ops| <= |job.advances| && forall i :: 0 <= i < |job.ops| ==> GivesKey(job.ops[i])
    requires Trail(lib, job.ops, told, trees) && trees[0] == w.tree
    ensures ApplyOps(lib, job, n, w).Ok? && ApplyOps(lib, job, n, w).value.0.tree == trees[n]
  {
    hide ApplyOp, Moves, GivesKey;
    if n > 0 {
      TrailApplies(lib, job, told, trees, n - 1, w);
      MoveApplies(lib, job.ops[n - 1], job.advances[n - 1], ApplyOps(lib, job, n - 1, w).value.0, told[n - 1].path,
        trees[n]);
    }
  }

  /** A batch that gives its keys commits if and only if each write can be made in turn: a delete
      of a path that is there, a create or update with a record that is valid, under a valid path. */
  lemma BatchCommitsIff(lib: Library, job: Job, t: Tables)
    requires ValidJob(job) && Grounded(lib, job.did, t) && forall i :: 0 <= i < |job.ops| ==> GivesKey(job.ops[i])
    ensures ApplyBatch(lib, job, t).Ok? <==>
      exists told, trees :: Trail(lib, job.ops, told, trees) && trees[0] == CurrentTree(t)
  {
    GroundedLoads(lib, job.did, t);
    if ApplyBatch(lib, job, t).Ok? {
      var trees := BatchMakesWrites(lib, job, t);
    }
    if told, trees :| Trail(lib, job.ops, told, trees) && trees[0] == CurrentTree(t) {
      TrailApplies(lib, job, told, trees, |job.ops|, Start(t, Load(lib, t).value));
    }
  }

  /** This write cannot be made at this path. */
  ghost predicate Stuck(lib: Library, op: WriteOp, p: Path, m: Entries) {
    PathFor(op, p) && forall m' :: !Moves(lib, op, p, m, m')
  }

  lemma FailedWriteIsStuck(lib: Library, op: WriteOp, advance: nat, w: Work) returns (p: Path)
    requires ApplyOp(lib, op, advance, w).Err?
    ensures Stuck(lib, op, p, w.tree)
  {
    var key := if GivesKey(op) then op.rkey else w.clock.Next(advance).Current();
    p := op.collection + "/" + key;
    assert p == Join((op.collection, key));
    forall m': Entries ensures !Moves(lib, op, p, w.tree, m') {
      if Moves(lib, op, p, w.tree, m') && !op.action.Delete? {
        RecordIsTyped(lib, op, m'[p]);
        assert false;
      }
    }
  }

  lemma {:induction false} FailedWritesStop(lib: Library, job: Job, n: nat, w: Work)
      returns (k: nat, told: seq<RepoOp>, trees: seq<Entries>, p: Path)
    requires n <= |job.ops| <= |job.advances|
    requires ApplyOps(lib, job, n, w).Err?
    ensures k < n && Trail(lib, job.ops[..k], told, trees) && trees[0] == w.tree && Stuck(lib, job.ops[k], p, trees[k])
  {
    hide ApplyOp, Stuck, Trail;
    if ApplyOps(lib, job, n - 1, w).Err? {
      k, told, trees, p := FailedWritesStop(lib, job, n - 1, w);
    } else {
      var prior := ApplyOps(lib, job, n - 1, w).value;
      k, told := n - 1, OpsOf(prior.1);
      trees := WritesMove(lib, job, k, w);
      p := FailedWriteIsStuck(lib, job.ops[k], job.advances[k], prior.0);
    }
  }

  /** A batch that fails, whether it gives its keys or not, fails at a write that cannot be made
      after those before it have been. */
  lemma FailedBatchStops(lib: Library, job: Job, t: Tables)
      returns (k: nat, told: seq<RepoOp>, trees: seq<Entries>, p: Path)
    requires ValidJob(job) && Grounded(lib, job.did, t) && ApplyBatch(lib, job, t).Err?
    ensures k < |job.ops| && Trail(lib, job.ops[..k], told, trees) && trees[0] == CurrentTree(t)
    ensures Stuck(lib, job.ops[k], p, trees[k])
  {
    GroundedLoads(lib, job.did, t);
    k, told, trees, p := FailedWritesStop(lib, job, |job.ops|, Start(t, Load(lib, t).value));
  }

  // ----- blobs -----

  /** The blobs of the records given, in order. */
  function BlobsGiven(ops: seq<WriteOp>): seq<BlobRef> {
    if ops == [] then [] else
      var op := ops[|ops| - 1];
      BlobsGiven(ops[..|ops| - 1]) + if op.action.Delete? || op.record.None? then [] else op.record.value.blobs
  }

  function CidsIn(blobs: seq<BlobRef>): seq<Cid> {
    seq(|blobs|, i requires 0 <= i < |blobs| => blobs[i].cid)
  }

  lemma WriteTellsBlobs(lib: Library, op: WriteOp, advance: nat, w: Work, c: Cid)
    requires ApplyOp(lib, op, advance, w).Ok?
    ensures CidsIn(BlobsGiven([op])) == ApplyOp(lib, op, advance, w).value.1.blobs
    ensures MetaOf(ApplyOp(lib, op, advance, w).value.0.db.blobs, c) == MetaAfter(w.db.blobs, BlobsGiven([op]), c)
  {
    assert [op][..0] == [] && BlobsGiven([]) == [];
    if !op.action.Delete? {
      assert BlobsGiven([op]) == op.record.value.blobs;
      var row := ApplyOp(lib, op, advance, w).value.1.row;
      var db := PutBlock(w.db, RecordBlock(Typed(op.record.value, op.collection)));
      var block := CidOf(RecordBlock(Typed(op.record.value, op.collection)));
      AddBlobsDescribes(ClearBlobRefs(db.(records := db.records[row := block]), row), op.record.value.blobs, row, c);
    }
  }

  lemma NoBlobs()
    ensures BlobsGiven([]) == [] && BlobLinks([]) == [] && CidsIn([]) == []
  {
  }

  lemma BlobsSnoc(ops: seq<WriteOp>, op: WriteOp, rs: seq<WriteResult>, r: WriteResult)
    requires BlobLinks(rs) == CidsIn(BlobsGiven(ops)) && r.blobs == CidsIn(BlobsGiven([op]))
    ensures BlobsGiven(ops + [op]) == BlobsGiven(ops) + BlobsGiven([op])
    ensures BlobLinks(rs + [r]) == CidsIn(BlobsGiven(ops + [op]))
  {
    assert (ops + [op])[..|ops|] == ops && (rs + [r])[..|rs|] == rs;
    assert [op][..0] == [] && BlobsGiven([]) == [];
  }

  lemma {:induction false} WritesTellBlobs(lib: Library, job: Job, n: nat, w: Work, c: Cid)
    requires n <= |job.ops| <= |job.advances|
    requires ApplyOps(lib, job, n, w).Ok?
    ensures var (done, rs) := ApplyOps(lib, job, n, w).value;
      && BlobLinks(rs) == CidsIn(BlobsGiven(job.ops[..n]))
      && MetaOf(done.db.blobs, c) == MetaAfter(w.db.blobs, BlobsGiven(job.ops[..n]), c)
  {
    hide ApplyOp, BlobsGiven, BlobLinks, CidsIn, FirstMeta;
    NoBlobs();
    if n == 0 {
      NoMeta(c);
    } else {
      WritesTellBlobs(lib, job, n - 1, w, c);
      var (prior, rs) := ApplyOps(lib, job, n - 1, w).value;
      WriteTellsBlobs(lib, job.ops[n - 1], job.advances[n - 1], prior, c);
      var r := ApplyOp(lib, job.ops[n - 1], job.advances[n - 1], prior).value.1;
      BlobsSnoc(job.ops[..n - 1], job.ops[n - 1], rs, r);
      FirstMetaConcat(BlobsGiven(job.ops[..n - 1]), BlobsGiven([job.ops[n - 1]]), c);
      assert job.ops[..n] == job.ops[..n - 1] + [job.ops[n - 1]];
    }
  }

  lemma NoMeta(c: Cid)
    ensures FirstMeta([], c) == None
  {
  }

  /** A committed batch lists the blobs of the records it was given, in order; each that had no
      row gets one with the type and size of its first mention, and no row changes or goes. */
  lemma BatchTellsBlobs(lib: Library, job: Job, t: Tables)
    requires ValidJob(job) && Grounded(lib, job.did, t) && ApplyBatch(lib, job, t).Ok?
    ensures var o := ApplyBatch(lib, job, t).value;
      && EventOf(job.did, o).blobs == CidsIn(BlobsGiven(job.ops))
      && forall c :: MetaOf(o.db.blobs, c) == MetaAfter(t.blobs, BlobsGiven(job.ops), c)
  {
    var o := ApplyBatch(lib, job, t).value;
    assert job.ops[..|job.ops|] == job.ops;
    var w := ApplyOps(lib, job, |job.ops|, Start(t, Load(lib, t).value)).value.0;
    PutBlocksAll(w.db, DiffNodes(lib, Load(lib, t).value.base, w.tree, job.dirty, |Nodes(lib, w.tree)|));
    assert o.db.blobs == w.db.blobs;
    forall c ensures MetaOf(o.db.blobs, c) == MetaAfter(t.blobs, BlobsGiven(job.ops), c) {
      WritesTellBlobs(lib, job, |job.ops|, Start(t, Load(lib, t).value), c);
    }
    WritesTellBlobs(lib, job, |job.ops|, Start(t, Load(lib, t).value), CidOf(RawBlock("")));
  }

  // ----- which blocks the event brings -----

  /** The record blocks of these operations. */
  ghost predicate Written(told: seq<RepoOp>, b: Block) {
    exists i :: 0 <= i < |told| && told[i].cid == Some(CidOf(b))
  }

  lemma WrittenSnoc(told: seq<RepoOp>, e: RepoOp, b: Block)
    ensures Written(told + [e], b) <==> Written(told, b) || e.cid == Some(CidOf(b))
  {
    var all := told + [e];
    if Written(told, b) {
      var i :| 0 <= i < |told| && told[i].cid == Some(CidOf(b));
      assert all[i].cid == Some(CidOf(b));
    }
    assert all[|told|] == e;
  }

  lemma WritePuts(lib: Library, op: WriteOp, advance: nat, w: Work, b: Block)
    requires ApplyOp(lib, op, advance, w).Ok?
    ensures var (next, r) := ApplyOp(lib, op, advance, w).value;
      b in next.put <==> b in w.put || OpOf(r).cid == Some(CidOf(b))
  {
  }

  lemma {:induction false} WritesPut(lib: Library, job: Job, n: nat, w: Work, b: Block)
    requires n <= |job.ops| <= |job.advances|
    requires ApplyOps(lib, job, n, w).Ok?
    ensures var (done, rs) := ApplyOps(lib, job, n, w).value;
      b in done.put <==> b in w.put || Written(OpsOf(rs), b)
  {
    hide ApplyOp, Written, OpOf;
    if n == 0 {
      NoneWritten(b);
    } else {
      WritesPut(lib, job, n - 1, w, b);
      var (prior, rs) := ApplyOps(lib, job, n - 1, w).value;
      WritePuts(lib, job.ops[n - 1], job.advances[n - 1], prior, b);
      var r := ApplyOp(lib, job.ops[n - 1], job.advances[n - 1], prior).value.1;
      WrittenSnoc(OpsOf(rs), OpOf(r), b);
      assert OpsOf(rs + [r]) == OpsOf(rs) + [OpOf(r)];
    }
  }

  lemma NoneWritten(b: Block)
    ensures !Written(OpsOf([]), b)
  {
  }

  /** The event of a committed batch brings the commit, the records it tells of, and those nodes of
      the new tree that the old one lacks or that are dirty, and no other block. */
  lemma EventBlocksIff(lib: Library, job: Job, t: Tables, b: Block)
    requires ValidJob(job) && Grounded(lib, job.did, t) && ApplyBatch(lib, job, t).Ok?
    ensures var o := ApplyBatch(lib, job, t).value;
      var e := EventOf(job.did, o);
      b in e.blocks <==>
        || CidOf(b) == e.commit
        || Written(e.ops, b)
        || (b in Nodes(lib, CurrentTree(o.db)) && (t.root.Some? && b in Nodes(lib, CurrentTree(t)) ==> b in job.dirty))
  {
    BatchGrounded(lib, job, t);
    GroundedLoads(lib, job.did, t);
    var from := Load(lib, t).value;
    WritesPut(lib, job, |job.ops|, Start(t, from), b);
    var w := ApplyOps(lib, job, |job.ops|, Start(t, from)).value.0;
    DiffNodesIff(lib, from.base, w.tree, job.dirty, |Nodes(lib, w.tree)|);
    assert Nodes(lib, w.tree)[..|Nodes(lib, w.tree)|] == Nodes(lib, w.tree);
  }

  /** The rest of the event: whose it is, and the commit it brings. */
  lemma EventNames(lib: Library, job: Job, t: Tables)
    requires ValidJob(job) && Grounded(lib, job.did, t) && ApplyBatch(lib, job, t).Ok?
    ensures var o := ApplyBatch(lib, job, t).value;
      var e := EventOf(job.did, o);
      && e.repo == job.did && o.db.root == Some(RepoRoot(e.commit, e.rev)) && e.commit.content.CommitBlock?
      && var c := e.commit.content.commit;
        c.did == job.did && c.sig == job.sig && c.rev == e.rev && c.data == CidOf(TreeRoot(CurrentTree(o.db)))
  {
    BatchGrounded(lib, job, t);
  }
}
