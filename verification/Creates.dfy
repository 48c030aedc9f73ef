/** The previous CID that an event gives for each operation, and exactly when no create has one. */
module Creates {
  import opened Common
  import opened Content
  import opened ActorStore
  import opened RepoOps
  import opened RepoInvariant
  import opened RepoIndex

  /** Each result is about its own write, and its previous CID is what the tree had at the path
      before that write. */
  ghost predicate Previous(ops: seq<WriteOp>, m: Entries, rs: seq<WriteResult>) {
    && |rs| <= |ops|
    && forall i :: 0 <= i < |rs| ==>
      && rs[i].action == ops[i].action && rs[i].row.0 == ops[i].collection
      && (ops[i].rkey != "" ==> rs[i].row.1 == ops[i].rkey)
      && rs[i].prev == PathAfter(m, rs[..i], Join(rs[i].row))
  }

  lemma WriteLooksUp(lib: Library, op: WriteOp, advance: nat, w: Work)
    requires ApplyOp(lib, op, advance, w).Ok?
    ensures var r := ApplyOp(lib, op, advance, w).value.1;
      && r.action == op.action && r.row.0 == op.collection && (op.rkey != "" ==> r.row.1 == op.rkey)
      && r.prev == Lookup(w.tree, Join(r.row))
  {
  }

  lemma {:induction false} WritesLookUp(lib: Library, job: Job, n: nat, w: Work)
    requires n <= |job.ops| <= |job.advances|
    requires ApplyOps(lib, job, n, w).Ok?
    ensures Previous(job.ops, w.tree, ApplyOps(lib, job, n, w).value.1)
  {
    hide ApplyOp, PathAfter, RowAfter, Previous;
    if n > 0 {
      WritesLookUp(lib, job, n - 1, w);
      WritesFollowResults(lib, job, n - 1, w);
      var (prior, rs) := ApplyOps(lib, job, n - 1, w).value;
      WriteLooksUp(lib, job.ops[n - 1], job.advances[n - 1], prior);
      var r := ApplyOp(lib, job.ops[n - 1], job.advances[n - 1], prior).value.1;
      OneMorePrevious(job.ops, w.tree, rs, r);
    } else {
      NonePrevious(job.ops, w.tree);
    }
  }

  lemma NonePrevious(ops: seq<WriteOp>, m: Entries)
    ensures Previous(ops, m, [])
  {
  }

  lemma OneMorePrevious(ops: seq<WriteOp>, m: Entries, rs: seq<WriteResult>, r: WriteResult)
    requires Previous(ops, m, rs) && |rs| < |ops|
    requires var op := ops[|rs|];
      && r.action == op.action && r.row.0 == op.collection && (op.rkey != "" ==> r.row.1 == op.rkey)
      && r.prev == PathAfter(m, rs, Join(r.row))
    ensures Previous(ops, m, rs + [r])
  {
    hide PathAfter;
    var all := rs + [r];
    assert all[..|rs|] == rs;
    assert forall i :: 0 <= i < |rs| ==> all[..i] == rs[..i] && all[i] == rs[i];
  }

  /** No create of the event carries a previous CID. */
  ghost predicate CreatesWithoutPrev(e: CommitEvent) {
    forall i :: 0 <= i < |e.ops| && e.ops[i].action.Create? ==> e.ops[i].prev.None?
  }

  /** Every create is of a path where the tree, as the writes before it leave it, has nothing. */
  ghost predicate CreatesAreNew(m: Entries, rs: seq<WriteResult>) {
    forall i :: 0 <= i < |rs| && rs[i].action.Create? ==> PathAfter(m, rs[..i], Join(rs[i].row)).None?
  }

  /** The creates of an event carry no previous CID if and only if each was of a new path. */
  lemma CreatesWithoutPrevIff(lib: Library, job: Job, t: Tables)
    requires ValidJob(job) && ApplyBatch(lib, job, t).Ok?
    ensures var o := ApplyBatch(lib, job, t).value;
      && Previous(job.ops, Load(lib, t).value.Entries(), o.results)
      && (CreatesWithoutPrev(EventOf(job.did, o)) <==> CreatesAreNew(Load(lib, t).value.Entries(), o.results))
  {
    var m, o := Load(lib, t).value.Entries(), ApplyBatch(lib, job, t).value;
    WritesLookUp(lib, job, |job.ops|, Start(t, Load(lib, t).value));
    hide Load, ApplyBatch, PathAfter;
    var e := EventOf(job.did, o);
    assert forall i :: 0 <= i < |o.results| ==> e.ops[i] == OpOf(o.results[i]);
  }

  function CreateOf(did: string, sig: string, collection: string, rkey: string, record: Record): Job {
    Job(did, sig, [WriteOp(Create, collection, rkey, Some(record))], [0, 0], {})
  }

  /** For one create at a key of the caller's: the event carries what the tree had there. */
  lemma CreateCarriesStored(lib: Library, t: Tables, did: string, sig: string, collection: string, rkey: string,
      record: Record)
    requires rkey != "" && ApplyBatch(lib, CreateOf(did, sig, collection, rkey, record), t).Ok?
    ensures var path := Join((collection, rkey));
      EventOf(did, ApplyBatch(lib, CreateOf(did, sig, collection, rkey, record), t).value).ops ==
        [RepoOp(Create, path, Some(CidOf(RecordBlock(Typed(record, collection)))),
                Lookup(Load(lib, t).value.Entries(), path))]
  {
    var job := CreateOf(did, sig, collection, rkey, record);
    var w := Start(t, Load(lib, t).value);
    assert ApplyOps(lib, job, 0, w) == Ok((w, []));
    assert ApplyOps(lib, job, 1, w).Ok?;
  }

  /** It happens: two creates at one key, one call after the other. The second is announced as a
      create with the first's CID as the previous one. */
  lemma CreateOverRecord(lib: Library, did: string, sig: string, collection: string, rkey: string, first: Record,
      second: Record) returns (o: Outcome, p: Outcome)
    requires rkey != "" && lib.validKey(Join((collection, rkey)))
    requires lib.validRecord(Typed(first, collection)) && lib.validRecord(Typed(second, collection))
    ensures ApplyBatch(lib, CreateOf(did, sig, collection, rkey, first), EMPTY) == Ok(o)
    ensures ApplyBatch(lib, CreateOf(did, sig, collection, rkey, second), o.db) == Ok(p)
    ensures EventOf(did, p).ops ==
      [RepoOp(Create, Join((collection, rkey)), Some(CidOf(RecordBlock(Typed(second, collection)))),
              Some(CidOf(RecordBlock(Typed(first, collection)))))]
    ensures !CreatesWithoutPrev(EventOf(did, p))
  {
    var path := Join((collection, rkey));
    CreateSucceeds(lib, EMPTY, did, sig, collection, rkey, first);
    var job := CreateOf(did, sig, collection, rkey, first);
    o := ApplyBatch(lib, job, EMPTY).value;
    BatchGrounded(lib, job, EMPTY);
    GroundedLoads(lib, did, o.db);
    CreateLeaves(lib, did, sig, collection, rkey, first);
    CreateSucceeds(lib, o.db, did, sig, collection, rkey, second);
    p := ApplyBatch(lib, CreateOf(did, sig, collection, rkey, second), o.db).value;
    CreateCarriesStored(lib, o.db, did, sig, collection, rkey, second);
    hide ApplyBatch, EventOf, Load, Grounded;
    assert EventOf(did, p).ops[0].prev.Some?;
  }

  lemma CreateSucceeds(lib: Library, t: Tables, did: string, sig: string, collection: string, rkey: string,
      record: Record)
    requires rkey != "" && lib.validKey(Join((collection, rkey))) && lib.validRecord(Typed(record, collection))
    requires Grounded(lib, did, t)
    ensures ApplyBatch(lib, CreateOf(did, sig, collection, rkey, record), t).Ok?
  {
    GroundedLoads(lib, did, t);
    var job := CreateOf(did, sig, collection, rkey, record);
    var w := Start(t, Load(lib, t).value);
    assert ApplyOps(lib, job, 0, w) == Ok((w, []));
    assert ApplyOp(lib, job.ops[0], 0, w).Ok?;
    assert ApplyOps(lib, job, 1, w).Ok?;
  }

  lemma CreateLeaves(lib: Library, did: string, sig: string, collection: string, rkey: string, record: Record)
    requires rkey != "" && ApplyBatch(lib, CreateOf(did, sig, collection, rkey, record), EMPTY).Ok?
    ensures var o := ApplyBatch(lib, CreateOf(did, sig, collection, rkey, record), EMPTY).value;
      CurrentTree(o.db) == map[Join((collection, rkey)) := CidOf(RecordBlock(Typed(record, collection)))]
  {
    var job := CreateOf(did, sig, collection, rkey, record);
    var w := Start(EMPTY, Load(lib, EMPTY).value);
    assert ApplyOps(lib, job, 0, w) == Ok((w, []));
    assert ApplyOps(lib, job, 1, w).Ok?;
  }
}
