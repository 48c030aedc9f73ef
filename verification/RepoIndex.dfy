/** Exactly which batches keep the record index in step with the tree. A collection with a slash
    gives two rows one path; only the last write to each row and to each path matters. */
module RepoIndex {
  import opened Common
  import opened Content
  import opened ActorStore
  import opened RepoOps
  import opened RepoInvariant

  function Indexed(records: map<Row, Cid>, row: Row): Option<Cid> {
    if row in records then Some(records[row]) else None
  }

  /** What the index has for a row after these writes: the last one's record, none after a delete. */
  function RowAfter(records: map<Row, Cid>, rs: seq<WriteResult>, row: Row): Option<Cid> {
    if rs == [] then Indexed(records, row)
    else if rs[|rs| - 1].row == row then rs[|rs| - 1].cid
    else RowAfter(records, rs[..|rs| - 1], row)
  }

  /** What the tree has at a path after these writes. */
  function PathAfter(m: Entries, rs: seq<WriteResult>, p: Path): Option<Cid> {
    if rs == [] then Lookup(m, p)
    else if Join(rs[|rs| - 1].row) == p then rs[|rs| - 1].cid
    else PathAfter(m, rs[..|rs| - 1], p)
  }

  /** The row of the last write to a path. */
  function PathWriter(rs: seq<WriteResult>, p: Path): Option<Row> {
    if rs == [] then None
    else if Join(rs[|rs| - 1].row) == p then Some(rs[|rs| - 1].row)
    else PathWriter(rs[..|rs| - 1], p)
  }

  predicate Slashed(row: Row) {
    '/' in row.0
  }

  /** The last write to a path is by a slash-free row, or leaves the row that the path is cut
      into absent. */
  predicate PathSettled(records: map<Row, Cid>, rs: seq<WriteResult>, p: Path) {
    (PathWriter(rs, p).Some? && !Slashed(PathWriter(rs, p).value)) ||
    (Cut(p).Some? && RowAfter(records, rs, Cut(p).value).None?)
  }

  /** Every slashed row written is deleted in the end, and its path is settled. */
  ghost predicate Settled(records: map<Row, Cid>, rs: seq<WriteResult>) {
    forall i :: 0 <= i < |rs| && Slashed(rs[i].row) ==>
      RowAfter(records, rs, rs[i].row).None? && PathSettled(records, rs, Join(rs[i].row))
  }

  lemma WriteFollowsResult(lib: Library, op: WriteOp, advance: nat, w: Work)
    requires ApplyOp(lib, op, advance, w).Ok?
    ensures var (next, r) := ApplyOp(lib, op, advance, w).value;
      && (forall row :: Indexed(next.db.records, row) == if row == r.row then r.cid else Indexed(w.db.records, row))
      && (forall p :: Lookup(next.tree, p) == if p == Join(r.row) then r.cid else Lookup(w.tree, p))
      && r.row.0 == op.collection
  {
    var (next, r) := ApplyOp(lib, op, advance, w).value;
    if !op.action.Delete? {
      var record := Typed(op.record.value, op.collection);
      var db := PutBlock(w.db, RecordBlock(record));
      AddBlobsAll(ClearBlobRefs(db.(records := db.records[r.row := CidOf(RecordBlock(record))]), r.row),
          record.blobs, r.row);
      assert next.db.records == w.db.records[r.row := r.cid.value];
    }
  }

  /** The results say what the writes did to index and tree. */
  lemma {:induction false} WritesFollowResults(lib: Library, job: Job, n: nat, w: Work)
    requires n <= |job.ops| <= |job.advances|
    requires ApplyOps(lib, job, n, w).Ok?
    ensures var (done, rs) := ApplyOps(lib, job, n, w).value;
      && (forall row :: Indexed(done.db.records, row) == RowAfter(w.db.records, rs, row))
      && (forall p :: Lookup(done.tree, p) == PathAfter(w.tree, rs, p))
      && forall i :: 0 <= i < n ==> rs[i].row.0 == job.ops[i].collection
  {
    if n > 0 {
      WritesFollowResults(lib, job, n - 1, w);
      var (prior, rs) := ApplyOps(lib, job, n - 1, w).value;
      WriteFollowsResult(lib, job.ops[n - 1], job.advances[n - 1], prior);
      var r := ApplyOp(lib, job.ops[n - 1], job.advances[n - 1], prior).value.1;
      hide ApplyOp;
      assert (rs + [r])[..|rs|] == rs;
    }
  }

  lemma {:induction false} JoinCuts(row: Row)
    ensures Cut(Join(row)).Some?
    decreases |row.0|
  {
    if row.0 != [] && row.0[0] != '/' {
      assert Join(row)[1..] == Join((row.0[1..], row.1));
      JoinCuts((row.0[1..], row.1));
    }
  }

  /** The last writer of a path wrote it, and what it left is what the path has. */
  lemma {:induction false} WriterDecides(records: map<Row, Cid>, m: Entries, rs: seq<WriteResult>, p: Path)
    ensures match PathWriter(rs, p)
      case None =>
        PathAfter(m, rs, p) == Lookup(m, p)
        && forall row :: Join(row) == p ==> RowAfter(records, rs, row) == Indexed(records, row)
      case Some(row) =>
        Join(row) == p && PathAfter(m, rs, p) == RowAfter(records, rs, row)
        && exists i :: 0 <= i < |rs| && rs[i].row == row
  {
    if rs != [] {
      var prior := rs[..|rs| - 1];
      WriterDecides(records, m, prior, p);
      if Join(rs[|rs| - 1].row) == p {
        assert rs[|rs| - 1].row == PathWriter(rs, p).value;
      } else if PathWriter(prior, p).Some? {
        var i :| 0 <= i < |prior| && prior[i].row == PathWriter(prior, p).value;
        assert rs[i].row == PathWriter(rs, p).value;
      }
    }
  }

  lemma {:induction false} WrittenPath(rs: seq<WriteResult>, i: nat)
    requires i < |rs|
    ensures PathWriter(rs, Join(rs[i].row)).Some?
  {
    if i < |rs| - 1 {
      WrittenPath(rs[..|rs| - 1], i);
    }
  }

  lemma {:induction false} UnwrittenRow(records: map<Row, Cid>, rs: seq<WriteResult>, row: Row)
    requires forall i :: 0 <= i < |rs| ==> rs[i].row != row
    ensures RowAfter(records, rs, row) == Indexed(records, row)
  {
    if rs != [] {
      UnwrittenRow(records, rs[..|rs| - 1], row);
    }
  }

  /** Index and tree as these writes leave them. */
  ghost predicate Follow(records: map<Row, Cid>, m: Entries, rs: seq<WriteResult>, records': map<Row, Cid>,
      m': Entries) {
    && (forall row :: Indexed(records', row) == RowAfter(records, rs, row))
    && (forall p :: Lookup(m', p) == PathAfter(m, rs, p))
  }

  /** A slashed row that is written is deleted in the end, and none was there before. */
  lemma SettledRowSlashFree(records: map<Row, Cid>, m: Entries, rs: seq<WriteResult>, row: Row)
    requires RowsInTree(records, m) && Settled(records, rs) && RowAfter(records, rs, row).Some?
    ensures !Slashed(row)
  {
    if forall i :: 0 <= i < |rs| ==> rs[i].row != row {
      UnwrittenRow(records, rs, row);
      assert Join(row) in m;
    } else {
      var i :| 0 <= i < |rs| && rs[i].row == row;
    }
  }

  lemma SettledRowAgrees(records: map<Row, Cid>, m: Entries, rs: seq<WriteResult>, records': map<Row, Cid>,
      m': Entries, row: Row)
    requires IndexAgrees(records, m) && Settled(records, rs) && Follow(records, m, rs, records', m')
    requires row in records'
    ensures !Slashed(row) && Join(row) in m' && m'[Join(row)] == records'[row]
  {
    assert Indexed(records', row) == RowAfter(records, rs, row);
    SettledRowSlashFree(records, m, rs, row);
    var p := Join(row);
    CutJoin(row);
    WriterDecides(records, m, rs, p);
    assert Lookup(m', p) == PathAfter(m, rs, p);
    if PathWriter(rs, p).Some? {
      var writer := PathWriter(rs, p).value;
      if Slashed(writer) {
        assert false;
      }
      CutJoin(writer);
    } else {
      assert Indexed(records, row).Some? && Join(row) in m;
      assert Cut(p).value == row;
    }
  }

  lemma SettledPathAgrees(records: map<Row, Cid>, m: Entries, rs: seq<WriteResult>, records': map<Row, Cid>,
      m': Entries, p: Path)
    requires IndexAgrees(records, m) && Settled(records, rs) && Follow(records, m, rs, records', m')
    requires p in m'
    ensures Cut(p).Some? && Cut(p).value in records' && records'[Cut(p).value] == m'[p]
  {
    assert Lookup(m', p) == PathAfter(m, rs, p);
    WriterDecides(records, m, rs, p);
    if PathWriter(rs, p).Some? {
      var writer := PathWriter(rs, p).value;
      assert Indexed(records', writer) == RowAfter(records, rs, writer);
      assert !Slashed(writer);
      CutJoin(writer);
    } else {
      assert p in m && Cut(p).Some?;
      var row := Cut(p).value;
      JoinCut(p);
      assert Indexed(records', row) == RowAfter(records, rs, row);
    }
  }

  /** A write that is not settled leaves index and tree out of step. */
  lemma UnsettledBreaks(records: map<Row, Cid>, m: Entries, rs: seq<WriteResult>, records': map<Row, Cid>,
      m': Entries, i: nat)
    requires IndexAgrees(records', m') && Follow(records, m, rs, records', m')
    requires i < |rs| && Slashed(rs[i].row)
    ensures RowAfter(records, rs, rs[i].row).None? && PathSettled(records, rs, Join(rs[i].row))
  {
    var row, p := rs[i].row, Join(rs[i].row);
    assert Indexed(records', row) == RowAfter(records, rs, row);
    WrittenPath(rs, i);
    WriterDecides(records, m, rs, p);
    JoinCuts(row);
    var writer := PathWriter(rs, p).value;
    if Slashed(writer) {
      assert Indexed(records', writer) == RowAfter(records, rs, writer);
      assert Lookup(m', p) == PathAfter(m, rs, p) == None;
      var cut := Cut(p).value;
      JoinCut(p);
      assert Indexed(records', cut) == RowAfter(records, rs, cut);
      assert cut in records' ==> Join(cut) in m';
    }
  }

  lemma SettledPathsIndexed(records: map<Row, Cid>, m: Entries, rs: seq<WriteResult>, records': map<Row, Cid>,
      m': Entries)
    requires IndexAgrees(records, m) && Settled(records, rs) && Follow(records, m, rs, records', m')
    ensures PathsIndexed(records', m')
  {
    hide IndexAgrees, Settled, Follow;
    forall p | p in m' ensures Cut(p).Some? && Cut(p).value in records' && records'[Cut(p).value] == m'[p] {
      SettledPathAgrees(records, m, rs, records', m', p);
    }
  }

  lemma SettledRowsInTree(records: map<Row, Cid>, m: Entries, rs: seq<WriteResult>, records': map<Row, Cid>,
      m': Entries)
    requires IndexAgrees(records, m) && Settled(records, rs) && Follow(records, m, rs, records', m')
    ensures RowsInTree(records', m')
  {
    hide IndexAgrees, Settled, Follow;
    forall row | row in records' ensures '/' !in row.0 && Join(row) in m' {
      SettledRowAgrees(records, m, rs, records', m', row);
    }
  }

  lemma AgreementSettles(records: map<Row, Cid>, m: Entries, rs: seq<WriteResult>, records': map<Row, Cid>, m': Entries)
    requires IndexAgrees(records', m') && Follow(records, m, rs, records', m')
    ensures Settled(records, rs)
  {
    hide IndexAgrees, Follow;
    forall i | 0 <= i < |rs| && Slashed(rs[i].row)
      ensures RowAfter(records, rs, rs[i].row).None? && PathSettled(records, rs, Join(rs[i].row))
    {
      UnsettledBreaks(records, m, rs, records', m', i);
    }
  }

  lemma IndexAgreesIff(records: map<Row, Cid>, m: Entries, rs: seq<WriteResult>, records': map<Row, Cid>, m': Entries)
    requires IndexAgrees(records, m) && Follow(records, m, rs, records', m')
    ensures IndexAgrees(records', m') <==> Settled(records, rs)
  {
    hide PathsIndexed, RowsInTree, Settled, Follow;
    if Settled(records, rs) {
      SettledPathsIndexed(records, m, rs, records', m');
      SettledRowsInTree(records, m, rs, records', m');
    }
    if IndexAgrees(records', m') {
      AgreementSettles(records, m, rs, records', m');
    }
  }

  /** A committed batch keeps a database in good order if and only if its writes are settled:
      every slashed row it writes ends deleted, and the path of such a row is last written by a
      slash-free row or is cut into a row that ends absent. */
  lemma BatchConsistentIff(lib: Library, job: Job, t: Tables)
    requires ValidJob(job) && Consistent(lib, job.did, t)
    requires ApplyBatch(lib, job, t).Ok?
    ensures var o := ApplyBatch(lib, job, t).value;
      Consistent(lib, job.did, o.db) <==> Settled(t.records, o.results)
  {
    BatchGrounded(lib, job, t);
    var w0 := Start(t, Load(lib, t).value);
    WritesFollowResults(lib, job, |job.ops|, w0);
    var (w, rs) := ApplyOps(lib, job, |job.ops|, w0).value;
    IndexAgreesIff(t.records, CurrentTree(t), rs, w.db.records, w.tree);
  }

  /** A batch without slashes is settled. */
  lemma SlashFreeSettles(lib: Library, job: Job, t: Tables)
    requires ValidJob(job) && ApplyBatch(lib, job, t).Ok?
    requires forall i :: 0 <= i < |job.ops| ==> SlashFree(job.ops[i])
    ensures Settled(t.records, ApplyBatch(lib, job, t).value.results)
  {
    WritesFollowResults(lib, job, |job.ops|, Start(t, Load(lib, t).value));
  }
}
