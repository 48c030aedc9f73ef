/** Importing a repo from a CAR archive, exporting one, and uploading a blob. */
module Migration {
  import opened Common
  import opened Order
  import opened Content
  import opened ActorStore
  import opened RepoOps
  import opened RepoInvariant

  datatype Car = Car(roots: seq<Cid>, blocks: seq<Block>)

  // ----- import, on values -----

  /** Index the record at path p, whose block the archive must have brought. */
  function ImportEntry(t: Tables, p: Path, c: Cid): Result<Tables, Error> {
    match Cut(p)
    case None => Err(MalformedPath)
    case Some(row) =>
      var indexed := t.(records := t.records[row := c]);
      if c !in t.blocks then Err(MissingBlock)
      else if !t.blocks[c].RecordBlock? then Err(MalformedBlock)
      else
        var blobs := t.blocks[c].record.blobs;
        Ok(AddBlobs(indexed, blobs, row))
  }

  /** Index the tree's entries at the given keys, in order. */
  function ImportWalk(t: Tables, m: Entries, keys: seq<Path>): Result<Tables, Error>
    requires forall k :: k in keys ==> k in m
  {
    if keys == [] then Ok(t) else
      var k := keys[|keys| - 1];
      match ImportWalk(t, m, keys[..|keys| - 1])
      case Err(e) => Err(e)
      case Ok(s) => ImportEntry(s, k, m[k])
  }

  /** `verified` is the signature check against the key the identity currently publishes. */
  function CheckCommit(lib: Library, did: string, verified: Commit -> bool, blocks: map<Cid, Block>, c: Cid)
      : Result<Commit, Error> {
    match ReadCommit(blocks, c)
    case Err(e) => Err(e)
    case Ok(commit) =>
      if !lib.validCommit(commit) then Err(InvalidCommit)
      else if commit.did != did then Err(WrongDid)
      else if !verified(commit) then Err(InvalidCommit)
      else Ok(commit)
  }

  /** An import clears every table first, so its result depends on the archive alone. */
  ghost function Import(lib: Library, did: string, verified: Commit -> bool, car: Car): Result<Tables, Error> {
    if car.roots == [] then Err(MissingBlock) else
      var t := PutBlocks(EMPTY, car.blocks);
      match CheckCommit(lib, did, verified, t.blocks, car.roots[0])
      case Err(e) => Err(e)
      case Ok(commit) =>
        match LoadMst(lib, t.blocks, commit.data)
        case Err(e) => Err(e)
        case Ok(m) =>
          SortSorts(m.Keys);
          match ImportWalk(t, m, Sort(m.Keys))
          case Err(e) => Err(e)
          case Ok(s) => Ok(s.(root := Some(RepoRoot(car.roots[0], commit.rev))))
  }

  // ----- import, as it runs -----

  /** The tree's keys in the order a walk visits them. */
  method WalkOrder(m: Entries) returns (keys: seq<Path>)
    ensures keys == Sort(m.Keys)
  {
    keys := [];
    var left := m.Keys;
    while left != {}
      invariant keys + Sort(left) == Sort(m.Keys)
      decreases left
    {
      MinExists(left);
      ghost var least :| IsMin(least, left);
      var k :| k in left && forall x :: x in left ==> x == k || Less(k, x);
      MinUnique(left, k, Min(left));
      keys := keys + [k];
      left := left - {k};
    }
  }

  method IndexEntries(tx: Database, m: Entries, keys: seq<Path>) returns (res: Result<(), Error>)
    requires forall k :: k in keys ==> k in m
    modifies tx
    ensures match ImportWalk(old(tx.View()), m, keys)
      case Err(e) => res == Err(e)
      case Ok(t) => res == Ok(()) && tx.View() == t
  {
    ghost var t0 := tx.View();
    for i := 0 to |keys|
      invariant ImportWalk(t0, m, keys[..i]) == Ok(tx.View())
    {
      var p := keys[i];
      WalkStep(t0, m, keys, i);
      match Cut(p) {
        case None => return Err(MalformedPath);
        case Some(row) =>
          var c := m[p];
          if c !in tx.blocks {
            return Err(MissingBlock);
          }
          if !tx.blocks[c].RecordBlock? {
            return Err(MalformedBlock);
          }
          var blobs := tx.blocks[c].record.blobs;
          tx.PutRecordIndex(row, c);
          ghost var indexed := tx.View();
          for j := 0 to |blobs|
            invariant tx.View() == AddBlobs(indexed, blobs[..j], row)
          {
            tx.InsertBlobMeta(blobs[j].cid, blobs[j].mime, blobs[j].size);
            tx.AddBlobRef(blobs[j].cid, row);
            assert blobs[..j + 1][..j] == blobs[..j];
          }
          assert blobs[..|blobs|] == blobs;
      }
    }
    assert keys[..|keys|] == keys;
    return Ok(());
  }

  /** The walk after i + 1 keys, and a failure at key i as the failure of the whole. */
  lemma WalkStep(t: Tables, m: Entries, keys: seq<Path>, i: nat)
    requires i < |keys| && forall k :: k in keys ==> k in m
    requires ImportWalk(t, m, keys[..i]).Ok?
    ensures var one := ImportEntry(ImportWalk(t, m, keys[..i]).value, keys[i], m[keys[i]]);
      ImportWalk(t, m, keys[..i + 1]) == one && (one.Err? ==> ImportWalk(t, m, keys) == one)
  {
    assert keys[..i + 1][..i] == keys[..i];
    if ImportWalk(t, m, keys[..i + 1]).Err? {
      WalkFailureStays(t, m, keys, i + 1);
    }
  }

  lemma {:induction false} WalkFailureStays(t: Tables, m: Entries, keys: seq<Path>, i: nat)
    requires i <= |keys| && forall k :: k in keys ==> k in m
    requires ImportWalk(t, m, keys[..i]).Err?
    ensures ImportWalk(t, m, keys) == ImportWalk(t, m, keys[..i])
    decreases |keys| - i
  {
    if i == |keys| {
      assert keys[..i] == keys;
    } else {
      assert keys[..i + 1][..i] == keys[..i];
      WalkFailureStays(t, m, keys, i + 1);
    }
  }

  /** Replace the actor's repo by the archive's, or leave it as it was. */
  method ImportRepo(lib: Library, db: Database, did: string, verified: Commit -> bool, car: Car)
    returns (res: Result<(), Error>)
    modifies db
    ensures match Import(lib, did, verified, car)
      case Err(e) => res == Err(e) && db.View() == old(db.View())
      case Ok(t) => res == Ok(()) && db.View() == t
  {
    if car.roots == [] {
      return Err(MissingBlock);
    }
    var tx := db.Begin();
    tx.ClearRepo();
    for i := 0 to |car.blocks|
      invariant fresh(tx) && db.View() == old(db.View())
      invariant tx.View() == PutBlocks(EMPTY, car.blocks[..i])
    {
      tx.Put(car.blocks[i]);
      assert car.blocks[..i + 1][..i] == car.blocks[..i];
    }
    assert car.blocks[..|car.blocks|] == car.blocks;
    var checked := CheckCommit(lib, did, verified, tx.blocks, car.roots[0]);
    if checked.Err? {
      return Err(checked.error);
    }
    var tree := LoadMst(lib, tx.blocks, checked.value.data);
    if tree.Err? {
      return Err(tree.error);
    }
    SortSorts(tree.value.Keys);
    var keys := WalkOrder(tree.value);
    var walked := IndexEntries(tx, tree.value, keys);
    if walked.Err? {
      return Err(walked.error);
    }
    tx.SetRepoRoot(car.roots[0], checked.value.rev);
    db.Commit(tx);
    return Ok(());
  }

  /** The archive of a repo: its commit and every stored block, in any order. */
  method GetRepo(db: Database) returns (res: Result<Car, Error>)
    ensures db.root.None? ==> res == Err(NotFound)
    ensures db.root.Some? ==> res.Ok? && IsExport(db.View(), res.value)
  {
    if db.root.None? {
      return Err(NotFound);
    }
    var blocks := db.AllBlocks();
    return Ok(Car([db.root.value.commit], blocks));
  }

  ghost predicate IsExport(t: Tables, car: Car) {
    && t.root.Some? && car.roots == [t.root.value.commit]
    && forall b :: b in car.blocks <==> b in t.blocks.Values
  }

  // ----- proofs -----

  /** The part of m at the given keys. */
  ghost function Part(m: Entries, keys: seq<Path>): Entries {
    map k | k in keys && k in m :: m[k]
  }

  lemma EntryKeepsMirror(t: Tables, part: Entries, p: Path, c: Cid)
    requires Mirrors(t, part) && p !in part
    requires ImportEntry(t, p, c).Ok?
    ensures var s := ImportEntry(t, p, c).value;
      Mirrors(s, part[p := c]) && s.blocks == t.blocks && s.root == t.root
  {
    var row := Cut(p).value;
    JoinCut(p);
    IndexPut(t.records, part, row, c);
    assert row !in t.records;
    assert ClearBlobRefs(t.(records := t.records[row := c]), row) == t.(records := t.records[row := c]);
    RefsPut(t, row, c, c.content.record.blobs);
  }

  lemma PartSnoc(m: Entries, keys: seq<Path>, k: Path)
    requires k in m && k !in keys
    ensures k !in Part(m, keys) && Part(m, keys + [k]) == Part(m, keys)[k := m[k]]
  {
  }

  lemma LastIsNew(keys: seq<Path>)
    requires Ascending(keys) && keys != []
    ensures keys[|keys| - 1] !in keys[..|keys| - 1] && Ascending(keys[..|keys| - 1])
  {
    LessTotal(keys[|keys| - 1], keys[|keys| - 1]);
  }

  lemma {:induction false} WalkMirrors(t: Tables, m: Entries, keys: seq<Path>)
    requires forall k :: k in keys ==> k in m
    requires Ascending(keys)
    requires Mirrors(t, map[])
    requires ImportWalk(t, m, keys).Ok?
    ensures var s := ImportWalk(t, m, keys).value;
      Mirrors(s, Part(m, keys)) && s.blocks == t.blocks && s.root == t.root
  {
    if keys == [] {
      assert Part(m, keys) == map[];
    } else {
      var prior, k := keys[..|keys| - 1], keys[|keys| - 1];
      WalkMirrors(t, m, prior);
      LastIsNew(keys);
      PartSnoc(m, prior, k);
      assert keys == prior + [k];
      EntryKeepsMirror(ImportWalk(t, m, prior).value, Part(m, prior), k, m[k]);
    }
  }

  /** Whatever the archive held, an import that succeeds leaves the database in good order. */
  lemma ImportConsistent(lib: Library, did: string, verified: Commit -> bool, car: Car)
    requires Import(lib, did, verified, car).Ok?
    ensures Consistent(lib, did, Import(lib, did, verified, car).value)
  {
    var t := PutBlocks(EMPTY, car.blocks);
    PutBlocksAll(EMPTY, car.blocks);
    assert WellKeyed(t.blocks);
    var commit := CheckCommit(lib, did, verified, t.blocks, car.roots[0]).value;
    var m := LoadMst(lib, t.blocks, commit.data).value;
    SortSorts(m.Keys);
    WalkMirrors(t, m, Sort(m.Keys));
    assert Part(m, Sort(m.Keys)) == m;
    var s := ImportWalk(t, m, Sort(m.Keys)).value;
    LoadedRootStored(lib, did, verified, s, car.roots[0]);
  }

  lemma LoadedRootStored(lib: Library, did: string, verified: Commit -> bool, t: Tables, c: Cid)
    requires WellKeyed(t.blocks)
    requires CheckCommit(lib, did, verified, t.blocks, c).Ok?
    requires LoadMst(lib, t.blocks, CheckCommit(lib, did, verified, t.blocks, c).value.data).Ok?
    ensures var commit := CheckCommit(lib, did, verified, t.blocks, c).value;
      var u := t.(root := Some(RepoRoot(c, commit.rev)));
      RootStored(lib, did, u) && CurrentTree(u) == LoadMst(lib, t.blocks, commit.data).value
  {
    var commit := CheckCommit(lib, did, verified, t.blocks, c).value;
    var m := LoadMst(lib, t.blocks, commit.data).value;
    forall b | b in Nodes(lib, m) ensures CidOf(b) in t.blocks {
      assert b in lib.inner(m) || b == TreeRoot(m);
    }
  }

  /** The tree determines the index, and the index the references. */
  lemma MirrorsUnique(t: Tables, u: Tables, m: Entries)
    requires Mirrors(t, m) && Mirrors(u, m)
    ensures t.records == u.records && t.refs == u.refs
  {
    forall row | row in t.records ensures row in u.records && u.records[row] == t.records[row] {
      assert Join(row) in m;
      CutJoin(row);
    }
    forall row | row in u.records ensures row in t.records {
      assert Join(row) in m;
      CutJoin(row);
    }
    forall x ensures x in t.refs <==> x in u.refs {
      var (b, row) := x;
      assert x == (b, row);
    }
  }

  lemma {:induction false} WalkSucceeds(t: Tables, m: Entries, keys: seq<Path>)
    requires forall k :: k in keys ==> k in m
    requires WellKeyed(t.blocks) && RecordsStored(t.blocks, m)
    requires forall p :: p in m ==> Cut(p).Some?
    ensures ImportWalk(t, m, keys).Ok? && ImportWalk(t, m, keys).value.blocks == t.blocks
  {
    if keys != [] {
      WalkSucceeds(t, m, keys[..|keys| - 1]);
      var s, k := ImportWalk(t, m, keys[..|keys| - 1]).value, keys[|keys| - 1];
      var row, blobs := Cut(k).value, m[k].content.record.blobs;
      AddBlobsAll(s.(records := s.records[row := m[k]]), blobs, row);
    }
  }

  ghost function BlobsIn(refs: set<(Cid, Row)>): set<Cid> {
    set x | x in refs :: x.0
  }

  lemma {:induction false} WalkBlobs(t: Tables, m: Entries, keys: seq<Path>)
    requires forall k :: k in keys ==> k in m
    requires ImportWalk(t, m, keys).Ok?
    requires t.blobs.Keys == BlobsIn(t.refs)
    ensures var s := ImportWalk(t, m, keys).value;
      s.blobs.Keys == BlobsIn(s.refs)
  {
    if keys != [] {
      WalkBlobs(t, m, keys[..|keys| - 1]);
      var s, k := ImportWalk(t, m, keys[..|keys| - 1]).value, keys[|keys| - 1];
      var row, blobs := Cut(k).value, s.blocks[m[k]].record.blobs;
      var indexed := s.(records := s.records[row := m[k]]);
      AddBlobsAll(indexed, blobs, row);
      var added := RefsFrom(blobs, row);
      assert BlobsIn(s.refs + added) == BlobsIn(s.refs) + CidSet(blobs) by {
        forall c | c in CidSet(blobs) ensures c in BlobsIn(added) {
          assert (c, row) in added;
        }
      }
    }
  }

  lemma ExportBringsBlocks(t: Tables, car: Car)
    requires WellKeyed(t.blocks) && IsExport(t, car)
    ensures PutBlocks(EMPTY, car.blocks) == EMPTY.(blocks := t.blocks)
  {
    PutBlocksAll(EMPTY, car.blocks);
    var merged := Merged(map[], car.blocks);
    forall c ensures c in merged <==> c in t.blocks {
      if c in merged {
        assert c.content in car.blocks;
        assert c.content in t.blocks.Values;
      }
      if c in t.blocks {
        assert t.blocks[c] in car.blocks;
      }
    }
    assert merged == t.blocks;
  }

  lemma ExportRoot(lib: Library, did: string, verified: Commit -> bool, t: Tables, car: Car)
    requires Grounded(lib, did, t) && IsExport(t, car)
    requires lib.validCommit(car.roots[0].content.commit) && verified(car.roots[0].content.commit)
    ensures var s := PutBlocks(EMPTY, car.blocks);
      && s == EMPTY.(blocks := t.blocks)
      && CheckCommit(lib, did, verified, s.blocks, car.roots[0]) == Ok(car.roots[0].content.commit)
      && LoadMst(lib, s.blocks, car.roots[0].content.commit.data) == Ok(CurrentTree(t))
  {
    ExportBringsBlocks(t, car);
    var m := CurrentTree(t);
    forall b | b in lib.inner(m) ensures CidOf(b) in t.blocks {
      assert b in Nodes(lib, m);
    }
    assert TreeRoot(m) in Nodes(lib, m);
  }

  /** Export then import is the identity: same root commit and revision, same blocks, same
      index, same references; the blob rows are those of the referenced blobs. */
  lemma ExportImport(lib: Library, did: string, verified: Commit -> bool, t: Tables, car: Car)
    requires Consistent(lib, did, t) && IsExport(t, car)
    requires lib.validCommit(car.roots[0].content.commit) && verified(car.roots[0].content.commit)
    ensures var r := Import(lib, did, verified, car);
      r.Ok? && r.value.(blobs := map[]) == t.(blobs := map[]) && r.value.blobs.Keys == BlobsIn(t.refs)
  {
    ExportRoot(lib, did, verified, t, car);
    var s, m := EMPTY.(blocks := t.blocks), CurrentTree(t);
    SortSorts(m.Keys);
    WalkSucceeds(s, m, Sort(m.Keys));
    ImportConsistent(lib, did, verified, car);
    MirrorsUnique(t, Import(lib, did, verified, car).value, m);
    WalkBlobs(s, m, Sort(m.Keys));
  }

  /** Of a database that is only grounded, the archive still brings root and blocks back, and the
      index exactly when index and tree were in step. */
  lemma ExportImportIff(lib: Library, did: string, verified: Commit -> bool, t: Tables, car: Car)
    requires Grounded(lib, did, t) && IsExport(t, car)
    requires lib.validCommit(car.roots[0].content.commit) && verified(car.roots[0].content.commit)
    ensures var r := Import(lib, did, verified, car);
      && (r.Ok? <==> forall p :: p in CurrentTree(t) ==> Cut(p).Some?)
      && (r.Ok? ==> r.value.root == t.root && r.value.blocks == t.blocks)
      && (r.Ok? && r.value.records == t.records <==> Consistent(lib, did, t))
  {
    ExportRoot(lib, did, verified, t, car);
    var s, m := EMPTY.(blocks := t.blocks), CurrentTree(t);
    SortSorts(m.Keys);
    if forall p :: p in m ==> Cut(p).Some? {
      WalkSucceeds(s, m, Sort(m.Keys));
    }
    var r := Import(lib, did, verified, car);
    if r.Ok? {
      ImportConsistent(lib, did, verified, car);
      WalkMirrors(s, m, Sort(m.Keys));
    }
    if Consistent(lib, did, t) {
      ExportImport(lib, did, verified, t, car);
    }
  }

  // ----- which archives are accepted -----

  /** The archive's first root names a valid, verified commit of this identity that it brings. */
  ghost predicate Attested(lib: Library, did: string, verified: Commit -> bool, car: Car) {
    && car.roots != [] && car.roots[0].content.CommitBlock? && car.roots[0].content in car.blocks
    && var commit := car.roots[0].content.commit;
    lib.validCommit(commit) && commit.did == did && verified(commit)
  }

  /** It brings every node of that commit's tree, and every record; every path has a slash. */
  ghost predicate Complete(lib: Library, car: Car)
    requires car.roots != [] && car.roots[0].content.CommitBlock?
  {
    var data := car.roots[0].content.commit.data;
    && data.content.TreeRoot? && data.content in car.blocks
    && var m := data.content.entries;
    && (forall b :: b in lib.inner(m) ==> b in car.blocks)
    && forall p :: p in m ==> '/' in p && m[p].content.RecordBlock? && m[p].content in car.blocks
  }

  lemma {:induction false} CutIff(p: Path)
    ensures Cut(p).Some? <==> '/' in p
  {
    if p != [] && p[0] != '/' {
      CutIff(p[1..]);
    }
  }

  lemma ArchiveBlocks(car: Car)
    ensures var t := PutBlocks(EMPTY, car.blocks);
      && t == EMPTY.(blocks := t.blocks) && WellKeyed(t.blocks)
      && forall c {:trigger c in t.blocks} {:trigger c.content in car.blocks} ::
        c in t.blocks <==> c.content in car.blocks
  {
    PutBlocksAll(EMPTY, car.blocks);
    var t := PutBlocks(EMPTY, car.blocks);
    forall c {:trigger c in t.blocks} {:trigger c.content in car.blocks}
      ensures c in t.blocks <==> c.content in car.blocks
    {
      assert c == CidOf(c.content);
    }
  }

  lemma {:induction false} WalkNeeds(t: Tables, m: Entries, keys: seq<Path>)
    requires forall k :: k in keys ==> k in m
    requires WellKeyed(t.blocks) && ImportWalk(t, m, keys).Ok?
    ensures ImportWalk(t, m, keys).value.blocks == t.blocks
    ensures forall k :: k in keys ==> Cut(k).Some? && m[k] in t.blocks && m[k].content.RecordBlock?
  {
    if keys != [] {
      var prior, k := keys[..|keys| - 1], keys[|keys| - 1];
      WalkNeeds(t, m, prior);
      assert keys == prior + [k];
      var s := ImportWalk(t, m, prior).value;
      AddBlobsAll(s.(records := s.records[Cut(k).value := m[k]]), s.blocks[m[k]].record.blobs, Cut(k).value);
    }
  }

  /** The checks before the walk, of an archive's own blocks. */
  lemma ChecksIff(lib: Library, did: string, verified: Commit -> bool, car: Car)
    requires car.roots != []
    ensures var blocks, c := PutBlocks(EMPTY, car.blocks).blocks, car.roots[0];
      && (CheckCommit(lib, did, verified, blocks, c).Ok? <==> Attested(lib, did, verified, car))
      && (Attested(lib, did, verified, car) ==>
        && CheckCommit(lib, did, verified, blocks, c) == Ok(c.content.commit)
        && var data := c.content.commit.data;
        && (LoadMst(lib, blocks, data).Ok? <==>
            data.content.TreeRoot? && data.content in car.blocks &&
            forall b :: b in lib.inner(data.content.entries) ==> b in car.blocks)
        && (LoadMst(lib, blocks, data).Ok? ==> LoadMst(lib, blocks, data) == Ok(data.content.entries)))
  {
    ArchiveBlocks(car);
    var blocks := PutBlocks(EMPTY, car.blocks).blocks;
    assert forall b :: CidOf(b) in blocks <==> b in car.blocks by {
      forall b ensures CidOf(b) in blocks <==> b in car.blocks {
        assert CidOf(b).content == b;
      }
    }
  }

  lemma WalkIff(lib: Library, car: Car)
    requires car.roots != [] && car.roots[0].content.CommitBlock?
    requires car.roots[0].content.commit.data.content.TreeRoot?
    ensures var t, m := PutBlocks(EMPTY, car.blocks), car.roots[0].content.commit.data.content.entries;
      && (forall k :: k in Sort(m.Keys) ==> k in m)
      && (ImportWalk(t, m, Sort(m.Keys)).Ok? <==>
        forall p :: p in m ==> '/' in p && m[p].content.RecordBlock? && m[p].content in car.blocks)
      && (ImportWalk(t, m, Sort(m.Keys)).Ok? ==> ImportWalk(t, m, Sort(m.Keys)).value.blocks == t.blocks)
  {
    ArchiveBlocks(car);
    var t, m := PutBlocks(EMPTY, car.blocks), car.roots[0].content.commit.data.content.entries;
    SortSorts(m.Keys);
    hide Sort, PutBlocks, Cut;
    if ImportWalk(t, m, Sort(m.Keys)).Ok? {
      WalkNeeds(t, m, Sort(m.Keys));
      forall p | p in m ensures '/' in p && m[p].content.RecordBlock? && m[p].content in car.blocks {
        CutIff(p);
        assert p in Sort(m.Keys);
      }
    }
    if forall p :: p in m ==> '/' in p && m[p].content.RecordBlock? && m[p].content in car.blocks {
      forall p | p in m ensures Cut(p).Some? {
        CutIff(p);
      }
      WalkSucceeds(t, m, Sort(m.Keys));
    }
  }

  /** An import succeeds if and only if the archive is attested and complete, and then leaves its
      commit as root, over its tree. */
  lemma ImportAcceptsIff(lib: Library, did: string, verified: Commit -> bool, car: Car)
    ensures var r := Import(lib, did, verified, car);
      && (r.Ok? <==> Attested(lib, did, verified, car) && Complete(lib, car))
      && (r.Ok? ==>
        && r.value.root == Some(RepoRoot(car.roots[0], car.roots[0].content.commit.rev))
        && CurrentTree(r.value) == car.roots[0].content.commit.data.content.entries
        && forall b :: CidOf(b) in r.value.blocks <==> b in car.blocks)
  {
    if car.roots != [] {
      ArchiveBlocks(car);
      ChecksIff(lib, did, verified, car);
      hide CheckCommit, LoadMst, ImportWalk, PutBlocks, Sort;
      if Attested(lib, did, verified, car) && car.roots[0].content.commit.data.content.TreeRoot? {
        WalkIff(lib, car);
      }
    }
  }

  /** The blobs of the records at these keys, in order. */
  ghost function BlobsAlong(m: Entries, keys: seq<Path>): seq<BlobRef> {
    if keys == [] then [] else
      var k := keys[|keys| - 1];
      BlobsAlong(m, keys[..|keys| - 1]) +
      if k in m && m[k].content.RecordBlock? then m[k].content.record.blobs else []
  }

  lemma {:induction false} WalkDescribesBlobs(t: Tables, m: Entries, keys: seq<Path>, c: Cid)
    requires forall k :: k in keys ==> k in m
    requires WellKeyed(t.blocks) && ImportWalk(t, m, keys).Ok?
    ensures MetaOf(ImportWalk(t, m, keys).value.blobs, c) == MetaAfter(t.blobs, BlobsAlong(m, keys), c)
  {
    if keys != [] {
      var prior, k := keys[..|keys| - 1], keys[|keys| - 1];
      WalkDescribesBlobs(t, m, prior, c);
      WalkNeeds(t, m, prior);
      var s, row := ImportWalk(t, m, prior).value, Cut(k).value;
      AddBlobsDescribes(s.(records := s.records[row := m[k]]), m[k].content.record.blobs, row, c);
      FirstMetaConcat(BlobsAlong(m, prior), m[k].content.record.blobs, c);
    }
  }

  /** After an import a blob's row has the type and size of its first mention in key order. */
  lemma ImportDescribesBlobs(lib: Library, did: string, verified: Commit -> bool, car: Car, c: Cid)
    requires Import(lib, did, verified, car).Ok?
    ensures var r := Import(lib, did, verified, car).value;
      MetaOf(r.blobs, c) == FirstMeta(BlobsAlong(CurrentTree(r), Sort(CurrentTree(r).Keys)), c)
  {
    ImportAcceptsIff(lib, did, verified, car);
    ArchiveBlocks(car);
    var t := PutBlocks(EMPTY, car.blocks);
    var m := car.roots[0].content.commit.data.content.entries;
    ChecksIff(lib, did, verified, car);
    SortSorts(m.Keys);
    WalkDescribesBlobs(t, m, Sort(m.Keys), c);
  }

  // ----- blob upload -----

  function Upload(t: Tables, data: string, mime: string): Tables {
    PutBlobMeta(t, BlobCid(data), BlobMeta(mime, |data|))
  }

  /** An upload is described by its type and length, unless its blob already has a row; nothing
      else changes. */
  lemma UploadDescribes(t: Tables, data: string, mime: string)
    ensures var u := Upload(t, data, mime);
      && u == t.(blobs := u.blobs)
      && forall c :: MetaOf(u.blobs, c) == MetaAfter(t.blobs, [BlobRef(CidOf(RawBlock(data)), mime, |data|)], c)
  {
    var blob := BlobRef(CidOf(RawBlock(data)), mime, |data|);
    forall c ensures FirstMeta([blob], c) == if blob.cid == c then Some(BlobMeta(mime, |data|)) else None {
      assert [blob][1..] == [];
    }
  }

  lemma UploadKeepsGrounded(lib: Library, did: string, t: Tables, data: string, mime: string)
    requires Grounded(lib, did, t)
    ensures Grounded(lib, did, Upload(t, data, mime))
  {
  }

  lemma UploadKeepsConsistent(lib: Library, did: string, t: Tables, data: string, mime: string)
    requires Consistent(lib, did, t)
    ensures Consistent(lib, did, Upload(t, data, mime))
  {
  }
}
