/** What every state of an actor database keeps: the index, the blob references and the
    block store agree with the tree under the current commit. */
module RepoInvariant {
  import opened Common
  import opened Content
  import opened ActorStore
  import opened RepoOps

  ghost predicate PathsIndexed(records: map<Row, Cid>, m: Entries) {
    forall p {:trigger Cut(p)} :: p in m ==> Cut(p).Some? && Cut(p).value in records && records[Cut(p).value] == m[p]
  }

  ghost predicate RowsInTree(records: map<Row, Cid>, m: Entries) {
    forall row {:trigger Join(row)} :: row in records ==> '/' !in row.0 && Join(row) in m
  }

  /** The record index is the tree's path-to-CID map, with each path cut at its first slash. */
  ghost predicate IndexAgrees(records: map<Row, Cid>, m: Entries) {
    PathsIndexed(records, m) && RowsInTree(records, m)
  }

  /** The references are exactly the (blob, row) pairs that occur in indexed records. */
  ghost predicate RefsAgree(refs: set<(Cid, Row)>, records: map<Row, Cid>) {
    forall b, row :: (b, row) in refs <==> row in records && b in BlobsOf(records[row])
  }

  ghost predicate BlobsKnown(refs: set<(Cid, Row)>, blobs: map<Cid, BlobMeta>) {
    forall x :: x in refs ==> x.0 in blobs
  }

  /** Every record the tree names is stored, and is a record. */
  ghost predicate RecordsStored(blocks: map<Cid, Block>, m: Entries) {
    forall p :: p in m ==> m[p] in blocks && m[p].content.RecordBlock?
  }

  /** Every block is stored under its own CID. */
  ghost predicate WellKeyed(blocks: map<Cid, Block>) {
    forall c :: c in blocks ==> blocks[c] == c.content
  }

  ghost predicate NodesStored(lib: Library, blocks: map<Cid, Block>, m: Entries) {
    forall b :: b in Nodes(lib, m) ==> CidOf(b) in blocks
  }

  /** Everything about the tables that does not depend on how paths are cut. */
  ghost predicate Sound(t: Tables, m: Entries) {
    && WellKeyed(t.blocks)
    && RefsAgree(t.refs, t.records)
    && BlobsKnown(t.refs, t.blobs)
    && RecordsStored(t.blocks, m)
  }

  ghost predicate Mirrors(t: Tables, m: Entries) {
    Sound(t, m) && IndexAgrees(t.records, m)
  }

  /** The commit that c names: its content, its tree. */
  ghost predicate IsCommit(c: Cid) {
    c.content.CommitBlock? && c.content.commit.data.content.TreeRoot?
  }

  ghost function TreeOf(c: Cid): Entries
    requires IsCommit(c)
  {
    c.content.commit.data.content.entries
  }

  /** The tree under the current commit; empty before the first. */
  ghost function CurrentTree(t: Tables): Entries {
    if t.root.Some? && IsCommit(t.root.value.commit) then TreeOf(t.root.value.commit) else map[]
  }

  ghost predicate RootStored(lib: Library, did: string, t: Tables) {
    t.root.Some? ==>
      var c := t.root.value.commit;
      && IsCommit(c) && c in t.blocks
      && c.content.commit.did == did && c.content.commit.rev == t.root.value.rev
      && NodesStored(lib, t.blocks, TreeOf(c))
  }

  /** Everything but the index: what holds whatever the collections are called. */
  ghost predicate Grounded(lib: Library, did: string, t: Tables) {
    RootStored(lib, did, t) && Sound(t, CurrentTree(t))
  }

  ghost predicate Consistent(lib: Library, did: string, t: Tables) {
    RootStored(lib, did, t) && Mirrors(t, CurrentTree(t))
  }

  /** The blocks a reader reaches from commit c. */
  ghost function Reachable(lib: Library, c: Cid): set<Cid>
    requires IsCommit(c)
  {
    var m := TreeOf(c);
    {c} + CidsOf(Nodes(lib, m)) + (set p | p in m :: m[p])
  }

  lemma GroundedStoresReachable(lib: Library, did: string, t: Tables)
    requires Grounded(lib, did, t) && t.root.Some?
    ensures Reachable(lib, t.root.value.commit) <= t.blocks.Keys
  {
  }

  // ----- one write -----

  ghost predicate SlashFree(op: WriteOp) {
    '/' !in op.collection
  }

  lemma IndexPut(records: map<Row, Cid>, m: Entries, row: Row, c: Cid)
    requires IndexAgrees(records, m) && '/' !in row.0
    ensures IndexAgrees(records[row := c], m[Join(row) := c])
  {
    CutJoin(row);
    forall p | p in m[Join(row) := c]
      ensures Cut(p).Some? && Cut(p).value in records[row := c] &&
              records[row := c][Cut(p).value] == m[Join(row) := c][p]
    {
      if p != Join(row) { JoinCut(p); }
    }
  }

  lemma IndexDelete(records: map<Row, Cid>, m: Entries, row: Row)
    requires IndexAgrees(records, m) && '/' !in row.0
    ensures IndexAgrees(records - {row}, m - {Join(row)})
  {
    CutJoin(row);
    var records', m' := records - {row}, m - {Join(row)};
    forall p | p in m'
      ensures Cut(p).Some? && Cut(p).value in records' && records'[Cut(p).value] == m'[p]
    {
      assert p in m;
      JoinCut(p);
    }
    forall r | r in records'
      ensures '/' !in r.0 && Join(r) in m'
    {
      assert r in records && Join(r) in m;
      CutJoin(r);
    }
  }

  lemma RefsPut(t: Tables, row: Row, c: Cid, blobs: seq<BlobRef>)
    requires RefsAgree(t.refs, t.records) && BlobsKnown(t.refs, t.blobs)
    requires c.content.RecordBlock? && c.content.record.blobs == blobs
    ensures var u := AddBlobs(ClearBlobRefs(t.(records := t.records[row := c]), row), blobs, row);
      RefsAgree(u.refs, u.records) && BlobsKnown(u.refs, u.blobs) &&
      u.records == t.records[row := c] && u.blocks == t.blocks && u.root == t.root
  {
    var s := ClearBlobRefs(t.(records := t.records[row := c]), row);
    var u := AddBlobs(s, blobs, row);
    AddBlobsAll(s, blobs, row);
    var added := RefsFrom(blobs, row);
    assert u.refs == s.refs + added;
    forall b, r ensures (b, r) in u.refs <==> r in u.records && b in BlobsOf(u.records[r]) {
      assert (b, r) in added <==> r == row && b in BlobsOf(c);
      assert (b, r) in s.refs <==> (b, r) in t.refs && r != row;
    }
  }

  /** One successful write, whatever its collection: the tables stay sound. */
  lemma WriteKeepsSound(lib: Library, op: WriteOp, advance: nat, w: Work)
    requires Sound(w.db, w.tree)
    requires ApplyOp(lib, op, advance, w).Ok?
    ensures var next := ApplyOp(lib, op, advance, w).value;
      Sound(next.0.db, next.0.tree) && next.0.db.root == w.db.root && w.db.blocks.Keys <= next.0.db.blocks.Keys
  {
    var next := ApplyOp(lib, op, advance, w).value;
    if !op.action.Delete? {
      var block := RecordBlock(Typed(op.record.value, op.collection));
      RefsPut(PutBlock(w.db, block), next.1.row, CidOf(block), block.record.blobs);
    }
  }

  /** One successful write keeps index and tree in step exactly when its collection has no
      slash: otherwise the index row is not the path cut at its first slash. */
  lemma WriteKeepsMirrorIff(lib: Library, op: WriteOp, advance: nat, w: Work)
    requires Mirrors(w.db, w.tree)
    requires ApplyOp(lib, op, advance, w).Ok?
    ensures var next := ApplyOp(lib, op, advance, w).value;
      Mirrors(next.0.db, next.0.tree) <==> SlashFree(op)
  {
    var next := ApplyOp(lib, op, advance, w).value;
    WriteKeepsSound(lib, op, advance, w);
    var row := next.1.row;
    if op.action.Delete? {
      if SlashFree(op) {
        IndexDelete(w.db.records, w.tree, row);
      } else {
        var p := Join(row);
        JoinCut(p);
        assert Cut(p).value in next.0.db.records && Join(Cut(p).value) !in next.0.tree;
      }
    } else {
      var block := RecordBlock(Typed(op.record.value, op.collection));
      RefsPut(PutBlock(w.db, block), row, CidOf(block), block.record.blobs);
      if SlashFree(op) {
        IndexPut(w.db.records, w.tree, row, CidOf(block));
      } else {
        assert row in next.0.db.records;
      }
    }
  }

  // ----- a whole batch -----

  /** Any batch of writes, whatever the collections. */
  lemma {:induction false} WritesKeepSound(lib: Library, job: Job, n: nat, w: Work)
    requires n <= |job.ops| <= |job.advances|
    requires Sound(w.db, w.tree)
    requires ApplyOps(lib, job, n, w).Ok?
    ensures var done := ApplyOps(lib, job, n, w).value.0;
      Sound(done.db, done.tree) && done.db.root == w.db.root && w.db.blocks.Keys <= done.db.blocks.Keys
  {
    if n > 0 {
      WritesKeepSound(lib, job, n - 1, w);
      WriteKeepsSound(lib, job.ops[n - 1], job.advances[n - 1], ApplyOps(lib, job, n - 1, w).value.0);
    }
  }

  lemma {:induction false} WritesKeepMirror(lib: Library, job: Job, n: nat, w: Work)
    requires n <= |job.ops| <= |job.advances|
    requires forall i :: 0 <= i < n ==> SlashFree(job.ops[i])
    requires Mirrors(w.db, w.tree)
    requires ApplyOps(lib, job, n, w).Ok?
    ensures var done := ApplyOps(lib, job, n, w).value.0;
      Mirrors(done.db, done.tree) && done.db.root == w.db.root && w.db.blocks.Keys <= done.db.blocks.Keys
  {
    if n > 0 {
      WritesKeepMirror(lib, job, n - 1, w);
      var prior := ApplyOps(lib, job, n - 1, w).value.0;
      WriteKeepsMirrorIff(lib, job.ops[n - 1], job.advances[n - 1], prior);
      WriteKeepsSound(lib, job.ops[n - 1], job.advances[n - 1], prior);
    }
  }

  /** The written nodes and the nodes of the stored tree together are the new tree. */
  lemma {:induction false} DiffNodesSuffice(lib: Library, base: Option<Entries>, m: Entries, dirty: set<Block>, n: nat)
    requires n <= |Nodes(lib, m)|
    ensures forall i :: 0 <= i < n ==>
      Nodes(lib, m)[i] in DiffNodes(lib, base, m, dirty, n)
          || (base.Some? && Nodes(lib, m)[i] in Nodes(lib, base.value))
  {
    if n > 0 {
      DiffNodesSuffice(lib, base, m, dirty, n - 1);
    }
  }

  /** Exactly the nodes of the new tree that the stored one lacks, or that are dirty, are written. */
  lemma {:induction false} DiffNodesIff(lib: Library, base: Option<Entries>, m: Entries, dirty: set<Block>, n: nat)
    requires n <= |Nodes(lib, m)|
    ensures forall b :: b in DiffNodes(lib, base, m, dirty, n) <==>
      b in Nodes(lib, m)[..n] && (base.Some? && b in Nodes(lib, base.value) ==> b in dirty)
  {
    if n > 0 {
      DiffNodesIff(lib, base, m, dirty, n - 1);
      assert Nodes(lib, m)[..n] == Nodes(lib, m)[..n - 1] + [Nodes(lib, m)[n - 1]];
    }
  }

  /** A grounded database can always be loaded, and loads its current tree. */
  lemma GroundedLoads(lib: Library, did: string, t: Tables)
    requires Grounded(lib, did, t)
    ensures Load(lib, t).Ok?
    ensures var from := Load(lib, t).value;
      && from.Entries() == CurrentTree(t)
      && (from.base.Some? <==> t.root.Some?)
      && (t.root.Some? ==>
            from.since == Some(t.root.value.rev) && from.prevData == Some(t.root.value.commit.content.commit.data))
      && (t.root.None? ==> from.since == None && from.prevData == None)
  {
    if t.root.Some? {
      var m := CurrentTree(t);
      assert TreeRoot(m) in Nodes(lib, m);
      assert t.root.value.commit.content.commit.data == CidOf(TreeRoot(m));
      forall b | b in lib.inner(m) ensures CidOf(b) in t.blocks {
        assert b in Nodes(lib, m);
      }
    }
  }

  lemma FinishBlocks(db: Tables, nodes: seq<Block>, commit: Commit)
    ensures Finish(db, nodes, commit) ==
            db.(blocks := Merged(db.blocks, nodes + [CommitBlock(commit)]),
                root := Some(RepoRoot(CidOf(CommitBlock(commit)), commit.rev)))
  {
    PutBlocksAll(db, nodes);
    MergedOne(db, nodes, CommitBlock(commit));
  }

  /** The end of a batch: a new root over the tree as written, and the index as it was. */
  lemma FinishGrounded(lib: Library, w: Work, base: Option<Entries>, dirty: set<Block>, commit: Commit)
    requires Sound(w.db, w.tree)
    requires base.Some? ==> NodesStored(lib, w.db.blocks, base.value)
    requires commit.data == CidOf(TreeRoot(w.tree))
    ensures var out := Finish(w.db, DiffNodes(lib, base, w.tree, dirty, |Nodes(lib, w.tree)|), commit);
      && Grounded(lib, commit.did, out) && out.root.Some?
      && CurrentTree(out) == w.tree && out.records == w.db.records
  {
    var nodes := DiffNodes(lib, base, w.tree, dirty, |Nodes(lib, w.tree)|);
    DiffNodesSuffice(lib, base, w.tree, dirty, |Nodes(lib, w.tree)|);
    FinishBlocks(w.db, nodes, commit);
    var out := Finish(w.db, nodes, commit);
    assert CurrentTree(out) == w.tree;
    forall b | b in Nodes(lib, w.tree) ensures CidOf(b) in out.blocks {
      assert b in nodes || CidOf(b) in w.db.blocks;
    }
  }

  /** What a committed batch leaves, whatever its collections: a grounded database whose tree and
      index are those of the writes. */
  lemma BatchGrounded(lib: Library, job: Job, t: Tables)
    requires ValidJob(job) && Grounded(lib, job.did, t)
    requires ApplyBatch(lib, job, t).Ok?
    ensures var o := ApplyBatch(lib, job, t).value;
      var from := Load(lib, t).value;
      var w := ApplyOps(lib, job, |job.ops|, Start(t, from)).value.0;
      && from.Entries() == CurrentTree(t)
      && Grounded(lib, job.did, o.db) && o.db.root.Some?
      && CurrentTree(o.db) == w.tree && o.db.records == w.db.records
  {
    GroundedLoads(lib, job.did, t);
    var from := Load(lib, t).value;
    WritesKeepSound(lib, job, |job.ops|, Start(t, from));
    var w := ApplyOps(lib, job, |job.ops|, Start(t, from)).value.0;
    FinishGrounded(lib, w, from.base, job.dirty, ApplyBatch(lib, job, t).value.commit);
  }

  /** A slash-free batch leaves the database in good order. */
  lemma BatchKeepsConsistent(lib: Library, job: Job, t: Tables)
    requires ValidJob(job) && Consistent(lib, job.did, t)
    requires forall i :: 0 <= i < |job.ops| ==> SlashFree(job.ops[i])
    requires ApplyBatch(lib, job, t).Ok?
    ensures Consistent(lib, job.did, ApplyBatch(lib, job, t).value.db)
  {
    BatchGrounded(lib, job, t);
    WritesKeepMirror(lib, job, |job.ops|, Start(t, Load(lib, t).value));
  }

  lemma SlashedWriteBreaks(lib: Library, job: Job, t: Tables)
    requires ValidJob(job) && |job.ops| == 1 && Consistent(lib, job.did, t)
    requires ApplyBatch(lib, job, t).Ok? && !SlashFree(job.ops[0])
    ensures !Consistent(lib, job.did, ApplyBatch(lib, job, t).value.db)
  {
    BatchGrounded(lib, job, t);
    var w0 := Start(t, Load(lib, t).value);
    WritesStep(lib, job, 0, w0, w0, []);
    WriteKeepsSound(lib, job.ops[0], job.advances[0], w0);
    WriteKeepsMirrorIff(lib, job.ops[0], job.advances[0], w0);
  }

  /** For the one-write batches of the create, put and delete handlers the condition is exact:
      the database stays in good order if and only if the collection has no slash. */
  lemma SingleWriteIff(lib: Library, job: Job, t: Tables)
    requires ValidJob(job) && |job.ops| == 1 && Consistent(lib, job.did, t)
    requires ApplyBatch(lib, job, t).Ok?
    ensures Consistent(lib, job.did, ApplyBatch(lib, job, t).value.db) <==> SlashFree(job.ops[0])
  {
    if SlashFree(job.ops[0]) {
      BatchKeepsConsistent(lib, job, t);
    } else {
      SlashedWriteBreaks(lib, job, t);
    }
  }

  /** A concrete input: record "c" created in collection "a/b" of an empty repo is in the tree
      at "a/b/c", where an import would index it as record "b/c" of collection "a". */
  lemma SlashedCollectionExample(lib: Library, advance: nat)
    requires lib.validKey("a/b/c") && lib.validRecord(Record(Some("t"), "", []))
    ensures var op := WriteOp(Create, "a/b", "c", Some(Record(Some("t"), "", [])));
      var r := ApplyOp(lib, op, advance, Work(EMPTY, map[], TidClock(0, 0), []));
      && r.Ok? && r.value.0.tree.Keys == {"a/b/c"} && r.value.0.db.records.Keys == {("a/b", "c")}
      && Cut("a/b/c") == Some(("a", "b/c")) && !Mirrors(r.value.0.db, r.value.0.tree)
  {
    var op := WriteOp(Create, "a/b", "c", Some(Record(Some("t"), "", [])));
    var w := Work(EMPTY, map[], TidClock(0, 0), []);
    assert Join(("a/b", "c")) == "a/b/c" == Join(("a", "b/c"));
    CutJoin(("a", "b/c"));
    WriteKeepsMirrorIff(lib, op, advance, w);
    assert op.collection[1] == '/';
  }
}
