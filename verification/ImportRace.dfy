/** What happens when an import meets a batch of its actor half way. */
module ImportRace {
  import opened Common
  import opened Content
  import opened ActorStore
  import opened Order
  import opened RepoOps
  import opened RepoInvariant
  import opened RepoEvents
  import opened Migration
  import opened Manager
  import opened Traces

  lemma LoadsIff(lib: Library, t: Tables, commit: Commit)
    requires t.root.Some? && t.root.value.commit == CidOf(CommitBlock(commit)) && commit.data.content.TreeRoot?
    requires WellKeyed(t.blocks) && CidOf(CommitBlock(commit)) in t.blocks
    ensures Load(lib, t).Ok? <==> forall b :: b in Nodes(lib, commit.data.content.entries) ==> CidOf(b) in t.blocks
  {
    var m := commit.data.content.entries;
    assert TreeRoot(m) in Nodes(lib, m) && commit.data == CidOf(TreeRoot(m));
    assert forall b :: b in Nodes(lib, m) <==> b in lib.inner(m) || b == TreeRoot(m);
  }

  /** A batch that commits over tables it did not load from leaves a database that can be loaded
      if and only if every node of its new tree was there or was written by it: it does not write
      the nodes of the tree it loaded. */
  lemma StaleCommitLoadsIff(lib: Library, job: Job, from: Loaded, t: Tables)
    requires ValidJob(job) && RunBatch(lib, job, from, t).Ok? && WellKeyed(t.blocks)
    ensures var o := RunBatch(lib, job, from, t).value;
      && o.db.root == Some(RepoRoot(CidOf(CommitBlock(o.commit)), o.commit.rev)) && o.commit.data.content.TreeRoot?
      && (Load(lib, o.db).Ok? <==>
        forall b :: b in Nodes(lib, o.commit.data.content.entries) ==> CidOf(b) in t.blocks || b in o.newBlocks)
  {
    hide Load;
    RunAddsItsBlocks(lib, job, from, t);
    var o := RunBatch(lib, job, from, t).value;
    assert CommitBlock(o.commit) in o.newBlocks;
    LoadsIff(lib, o.db, o.commit);
    MergedHas(t.blocks, o.newBlocks);
  }

  lemma MergedHas(blocks: map<Cid, Block>, bs: seq<Block>)
    ensures forall b :: CidOf(b) in Merged(blocks, bs) <==> CidOf(b) in blocks || b in bs
  {
  }

  /** An empty batch over the empty tree it loaded writes its commit and nothing else. */
  lemma EmptyOverEmpty(lib: Library, job: Job, from: Loaded, t: Tables)
    requires ValidJob(job) && job.ops == [] && job.dirty == {} && from.base == Some(map[])
    ensures RunBatch(lib, job, from, t).Ok?
    ensures var o := RunBatch(lib, job, from, t).value;
      o.commit.data == CidOf(TreeRoot(map[])) && o.newBlocks == [CommitBlock(o.commit)]
  {
    NothingNew(lib, map[], |Nodes(lib, map[])|);
  }

  lemma {:induction false} NothingNew(lib: Library, m: Entries, n: nat)
    requires n <= |Nodes(lib, m)|
    ensures DiffNodes(lib, Some(m), m, {}, n) == []
  {
    if n > 0 {
      NothingNew(lib, m, n - 1);
    }
  }

  /** An actor with an empty first commit, and a second empty call that has loaded it. */
  lemma LoadedEmpty(lib: Library, job: Job) returns (r: Trace, l: Lock, from: Loaded)
    requires ValidJob(job) && job.ops == [] && job.dirty == {}
    ensures r.Valid(lib) && r.End().Pc(1) == Ready(job, l, from) && from.base == Some(map[])
  {
    GroundedLoads(lib, job.did, EMPTY);
    var o := ApplyBatch(lib, job, EMPTY).value;
    BatchGrounded(lib, job, EMPTY);
    GroundedLoads(lib, job.did, o.db);
    l, from := 0, Load(lib, o.db).value;
    r := Trace([INITIAL], []);
    r := Take(lib, r, 0, Start(job), System(map[job.did := 0], 1, map[], map[], map[0 := Waiting(job, 0)], map[], []));
    r := SoloCommit(lib, r, 0, job, 0, Load(lib, EMPTY).value, o);
    r := Take(lib, r, 1, Start(job), r.End().Move(1, Waiting(job, 0)));
    r := SoloLoad(lib, r, 1, job, 0, from);
  }

  /** The import is lost and the repo with it: an archive without the empty tree, imported
      between a batch's read of the empty repo and its commit, leaves a root whose tree is not
      stored, and no later batch of the actor can even load it. */
  lemma ImportMidBatchLosesRepo(lib: Library, did: string, sig: string, verified: Commit -> bool, car: Car)
    returns (r: Trace)
    requires Import(lib, did, verified, car).Ok?
    requires CidOf(TreeRoot(map[])) !in Import(lib, did, verified, car).value.blocks
    ensures r.Valid(lib) && r.End().Db(did).root.Some?
    ensures r.End().Db(did).root != Import(lib, did, verified, car).value.root
    ensures Load(lib, r.End().Db(did)).Err?
    ensures forall later: Job :: ValidJob(later) ==> ApplyBatch(lib, later, r.End().Db(did)).Err?
  {
    var job, imported := Job(did, sig, [], [0], {}), Import(lib, did, verified, car).value;
    var l, from;
    r, l, from := LoadedEmpty(lib, job);
    ImportConsistent(lib, did, verified, car);
    EmptyOverEmpty(lib, job, from, imported);
    StaleCommitLoadsIff(lib, job, from, imported);
    var o := RunBatch(lib, job, from, imported).value;
    assert TreeRoot(map[]) in Nodes(lib, map[]);
    assert imported.root.value.commit.content.commit.data != o.commit.data;
    r := Take(lib, r, 1, ImportInto(did, imported), r.End().Changed(did, Replaced(r.End().Db(did), imported)));
    r := SoloFinish(lib, r, 1, job, l, from, o);
  }

  // ----- an archive that does it -----

  const NOTE := RecordBlock(Record(Some("app.note"), "", []))

  const NOTE_ROW: Row := ("app.note", "a")

  /** A tree with one record. */
  const ONE_RECORD: Entries := map[Join(NOTE_ROW) := CidOf(NOTE)]

  function OneRecordCommit(did: string, rev: string, sig: string): Commit {
    Commit(did, CidOf(TreeRoot(ONE_RECORD)), rev, sig)
  }

  function OneRecordCar(lib: Library, commit: Commit): Car {
    Car([CidOf(CommitBlock(commit))], [CommitBlock(commit)] + Nodes(lib, ONE_RECORD) + [NOTE])
  }

  /** It imports, and does not bring the empty tree unless the library makes that a node of it. */
  lemma OneRecordImports(lib: Library, did: string, rev: string, sig: string, verified: Commit -> bool)
    requires lib.validCommit(OneRecordCommit(did, rev, sig)) && verified(OneRecordCommit(did, rev, sig))
    requires TreeRoot(map[]) !in lib.inner(ONE_RECORD)
    ensures var r := Import(lib, did, verified, OneRecordCar(lib, OneRecordCommit(did, rev, sig)));
      r.Ok? && CidOf(TreeRoot(map[])) !in r.value.blocks
  {
    var commit := OneRecordCommit(did, rev, sig);
    var car := OneRecordCar(lib, commit);
    var t := PutBlocks(EMPTY, car.blocks);
    BlocksOf(car.blocks);
    assert TreeRoot(ONE_RECORD) in Nodes(lib, ONE_RECORD);
    assert TreeRoot(ONE_RECORD) in car.blocks && NOTE in car.blocks && CommitBlock(commit) in car.blocks;
    assert forall b :: b in lib.inner(ONE_RECORD) ==> b in Nodes(lib, ONE_RECORD) && b in car.blocks;
    assert Join(NOTE_ROW) in ONE_RECORD;
    assert TreeRoot(map[]) !in car.blocks;
    OneRecordWalks(t);
  }

  lemma BlocksOf(bs: seq<Block>)
    ensures forall b :: CidOf(b) in PutBlocks(EMPTY, bs).blocks <==> b in bs
    ensures WellKeyed(PutBlocks(EMPTY, bs).blocks)
  {
  }

  lemma OneRecordWalks(t: Tables)
    requires CidOf(NOTE) in t.blocks && WellKeyed(t.blocks)
    ensures forall k :: k in Sort(ONE_RECORD.Keys) ==> k in ONE_RECORD
    ensures ImportWalk(t, ONE_RECORD, Sort(ONE_RECORD.Keys)).Ok?
    ensures ImportWalk(t, ONE_RECORD, Sort(ONE_RECORD.Keys)).value.blocks == t.blocks
  {
    SortSorts(ONE_RECORD.Keys);
    CutJoin(NOTE_ROW);
    hide Cut, Join, Sort, Min;
    assert forall p :: p in ONE_RECORD ==> p == Join(NOTE_ROW);
    WalkSucceeds(t, ONE_RECORD, Sort(ONE_RECORD.Keys));
  }

  /** With this archive nothing is left to assume: any actor can lose a repo so. */
  lemma ImportLosesRepo(lib: Library, did: string, rev: string, sig: string, verified: Commit -> bool)
    returns (r: Trace)
    requires lib.validCommit(OneRecordCommit(did, rev, sig)) && verified(OneRecordCommit(did, rev, sig))
    requires TreeRoot(map[]) !in lib.inner(ONE_RECORD)
    ensures r.Valid(lib) && r.End().Db(did).root.Some?
    ensures forall later: Job :: ValidJob(later) ==> ApplyBatch(lib, later, r.End().Db(did)).Err?
  {
    OneRecordImports(lib, did, rev, sig, verified);
    r := ImportMidBatchLosesRepo(lib, did, sig, verified, OneRecordCar(lib, OneRecordCommit(did, rev, sig)));
  }
}
