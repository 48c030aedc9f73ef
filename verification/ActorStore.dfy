/** One actor's tables and the statements that change them. */
module ActorStore {
  import opened Common
  import opened Content

  datatype RepoRoot = RepoRoot(commit: Cid, rev: string)

  datatype BlobMeta = BlobMeta(mime: string, size: int)

  /** What the tables of one actor database hold. */
  datatype Tables = Tables(
    blocks: map<Cid, Block>,
    root: Option<RepoRoot>,
    records: map<Row, Cid>,
    blobs: map<Cid, BlobMeta>,
    refs: set<(Cid, Row)>)

  const EMPTY: Tables := Tables(map[], None, map[], map[], {})

  // ----- the statements, on values -----

  /** First write wins. */
  function PutBlock(t: Tables, b: Block): Tables {
    if CidOf(b) in t.blocks then t else t.(blocks := t.blocks[CidOf(b) := b])
  }

  /** Put the blocks of bs one after another. */
  function PutBlocks(t: Tables, bs: seq<Block>): Tables {
    if bs == [] then t else PutBlock(PutBlocks(t, bs[..|bs| - 1]), bs[|bs| - 1])
  }

  function PutBlobMeta(t: Tables, c: Cid, meta: BlobMeta): Tables {
    if c in t.blobs then t else t.(blobs := t.blobs[c := meta])
  }

  function ClearBlobRefs(t: Tables, row: Row): Tables {
    t.(refs := set x | x in t.refs && x.1 != row)
  }

  /** A blob's metadata and its reference from a row. */
  function AddBlob(t: Tables, b: BlobRef, row: Row): Tables {
    var s := PutBlobMeta(t, b.cid, BlobMeta(b.mime, b.size));
    s.(refs := s.refs + {(b.cid, row)})
  }

  function AddBlobs(t: Tables, blobs: seq<BlobRef>, row: Row): Tables {
    if blobs == [] then t else AddBlob(AddBlobs(t, blobs[..|blobs| - 1], row), blobs[|blobs| - 1], row)
  }

  /** The actor database, or a transaction open on it: both run the same statements. */
  class Database {
    var blocks: map<Cid, Block>
    var root: Option<RepoRoot>
    var records: map<Row, Cid>
    var blobs: map<Cid, BlobMeta>
    var refs: set<(Cid, Row)>

    function View(): Tables
      reads this
    {
      Tables(blocks, root, records, blobs, refs)
    }

    constructor ()
      ensures View() == EMPTY
    {
      blocks, root, records, blobs, refs := map[], None, map[], map[], {};
    }

    /** A scratch copy that Commit keeps; dropping it is the rollback. */
    method Begin() returns (tx: Database)
      ensures fresh(tx) && tx.View() == View()
    {
      tx := new Database();
      tx.blocks, tx.root, tx.records, tx.blobs, tx.refs := blocks, root, records, blobs, refs;
    }

    method Commit(tx: Database)
      modifies this
      ensures View() == old(tx.View())
    {
      blocks, root, records, blobs, refs := tx.blocks, tx.root, tx.records, tx.blobs, tx.refs;
    }

    method Put(b: Block)
      modifies this`blocks
      ensures View() == PutBlock(old(View()), b)
    {
      if CidOf(b) !in blocks {
        blocks := blocks[CidOf(b) := b];
      }
    }

    method SetRepoRoot(commit: Cid, rev: string)
      modifies this`root
      ensures View() == old(View()).(root := Some(RepoRoot(commit, rev)))
    {
      root := Some(RepoRoot(commit, rev));
    }

    method PutRecordIndex(row: Row, c: Cid)
      modifies this`records
      ensures View() == old(View()).(records := old(records)[row := c])
    {
      records := records[row := c];
    }

    method DeleteRecordIndex(row: Row)
      modifies this`records
      ensures View() == old(View()).(records := old(records) - {row})
    {
      records := records - {row};
    }

    method InsertBlobMeta(c: Cid, mime: string, size: int)
      modifies this`blobs
      ensures View() == PutBlobMeta(old(View()), c, BlobMeta(mime, size))
    {
      if c !in blobs {
        blobs := blobs[c := BlobMeta(mime, size)];
      }
    }

    method AddBlobRef(c: Cid, row: Row)
      modifies this`refs
      ensures View() == old(View()).(refs := old(refs) + {(c, row)})
    {
      refs := refs + {(c, row)};
    }

    method ClearBlobRefsForRecord(row: Row)
      modifies this`refs
      ensures View() == ClearBlobRefs(old(View()), row)
    {
      refs := set x | x in refs && x.1 != row;
    }

    /** Every table of the repo; the blob files on disk are not part of it. */
    method ClearRepo()
      modifies this
      ensures View() == EMPTY
    {
      blocks, root, records, blobs, refs := map[], None, map[], map[], {};
    }

    /** Every stored block, in whatever order the query yields them. */
    method AllBlocks() returns (out: seq<Block>)
      ensures forall b :: b in out <==> b in blocks.Values
      ensures |out| == |blocks|
    {
      out := [];
      var left := blocks.Keys;
      while left != {}
        invariant left <= blocks.Keys
        invariant forall b :: b in out <==> exists c :: c in blocks && c !in left && blocks[c] == b
        invariant |out| + |left| == |blocks|
        decreases left
      {
        var c :| c in left;
        out := out + [blocks[c]];
        left := left - {c};
      }
    }
  }

  // ----- proofs about the statements -----

  ghost function CidsOf(bs: seq<Block>): set<Cid> {
    set b | b in bs :: CidOf(b)
  }

  /** The block table with the blocks of bs added under their own CIDs. */
  ghost function Merged(blocks: map<Cid, Block>, bs: seq<Block>): map<Cid, Block> {
    map c | c in blocks.Keys + CidsOf(bs) :: if c in blocks then blocks[c] else c.content
  }

  lemma MergedNone(blocks: map<Cid, Block>)
    ensures Merged(blocks, []) == blocks
  {
    assert CidsOf([]) == {};
  }

  lemma MergedOne(t: Tables, bs: seq<Block>, b: Block)
    ensures PutBlock(t.(blocks := Merged(t.blocks, bs)), b) == t.(blocks := Merged(t.blocks, bs + [b]))
  {
    assert CidsOf(bs + [b]) == CidsOf(bs) + {CidOf(b)};
    var m := Merged(t.blocks, bs);
    assert Merged(t.blocks, bs + [b]) == if CidOf(b) in m then m else m[CidOf(b) := b];
  }

  /** What a run of puts leaves: the blocks added, nothing else touched. */
  lemma {:induction false} PutBlocksAll(t: Tables, bs: seq<Block>)
    ensures PutBlocks(t, bs) == t.(blocks := Merged(t.blocks, bs))
  {
    if bs == [] {
      MergedNone(t.blocks);
    } else {
      var prior, b := bs[..|bs| - 1], bs[|bs| - 1];
      PutBlocksAll(t, prior);
      MergedOne(t, prior, b);
      assert bs == prior + [b];
    }
  }

  /** The references of a row to the given blobs. */
  ghost function RefsFrom(blobs: seq<BlobRef>, row: Row): set<(Cid, Row)> {
    set c | c in CidSet(blobs) :: (c, row)
  }

  /** What a run of blob additions leaves: exactly the new references and blob rows. */
  lemma {:induction false} AddBlobsAll(t: Tables, blobs: seq<BlobRef>, row: Row)
    ensures var u := AddBlobs(t, blobs, row);
      && u == t.(blobs := u.blobs, refs := t.refs + RefsFrom(blobs, row))
      && u.blobs.Keys == t.blobs.Keys + CidSet(blobs)
  {
    if blobs == [] {
      assert CidSet(blobs) == {} && RefsFrom(blobs, row) == {};
    } else {
      var prior, b := blobs[..|blobs| - 1], blobs[|blobs| - 1];
      AddBlobsAll(t, prior, row);
      AddBlobShape(AddBlobs(t, prior, row), b, row);
      CidSetSnoc(prior, b, row);
      assert blobs == prior + [b];
    }
  }

  lemma AddBlobShape(t: Tables, b: BlobRef, row: Row)
    ensures var u := AddBlob(t, b, row);
      u == t.(blobs := u.blobs, refs := t.refs + {(b.cid, row)}) && u.blobs.Keys == t.blobs.Keys + {b.cid}
  {
  }

  lemma CidSetSnoc(blobs: seq<BlobRef>, b: BlobRef, row: Row)
    ensures CidSet(blobs + [b]) == CidSet(blobs) + {b.cid}
    ensures RefsFrom(blobs + [b], row) == RefsFrom(blobs, row) + {(b.cid, row)}
  {
    assert forall x :: x in blobs + [b] <==> x in blobs || x == b;
  }

  /** Blob metadata, once stored, is never overwritten. */
  lemma {:induction false} BlobMetaStays(t: Tables, blobs: seq<BlobRef>, row: Row, c: Cid)
    requires c in t.blobs
    ensures c in AddBlobs(t, blobs, row).blobs && AddBlobs(t, blobs, row).blobs[c] == t.blobs[c]
  {
    if blobs != [] {
      BlobMetaStays(t, blobs[..|blobs| - 1], row, c);
    }
  }

  /** Type and size of a blob as the first to mention it has them. */
  function FirstMeta(blobs: seq<BlobRef>, c: Cid): Option<BlobMeta> {
    if blobs == [] then None
    else if blobs[0].cid == c then Some(BlobMeta(blobs[0].mime, blobs[0].size))
    else FirstMeta(blobs[1..], c)
  }

  function MetaOf(blobs: map<Cid, BlobMeta>, c: Cid): Option<BlobMeta> {
    if c in blobs then Some(blobs[c]) else None
  }

  function MetaAfter(blobs: map<Cid, BlobMeta>, given: seq<BlobRef>, c: Cid): Option<BlobMeta> {
    if c in blobs then Some(blobs[c]) else FirstMeta(given, c)
  }

  lemma {:induction false} FirstMetaConcat(xs: seq<BlobRef>, ys: seq<BlobRef>, c: Cid)
    ensures FirstMeta(xs + ys, c) == if FirstMeta(xs, c).Some? then FirstMeta(xs, c) else FirstMeta(ys, c)
  {
    if xs == [] {
      assert xs + ys == ys;
    } else {
      FirstMetaConcat(xs[1..], ys, c);
      assert (xs + ys)[1..] == xs[1..] + ys;
    }
  }

  lemma {:induction false} AddBlobsDescribes(t: Tables, blobs: seq<BlobRef>, row: Row, c: Cid)
    ensures MetaOf(AddBlobs(t, blobs, row).blobs, c) == MetaAfter(t.blobs, blobs, c)
  {
    if blobs != [] {
      var prior, last := blobs[..|blobs| - 1], blobs[|blobs| - 1];
      AddBlobsDescribes(t, prior, row, c);
      FirstMetaConcat(prior, [last], c);
      assert blobs == prior + [last];
    }
  }
}
