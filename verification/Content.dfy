/** Content-addressed blocks, the commit and tree they form, and record paths.

    A CID is the constructor `CidOf` over the block it names, so equal CIDs mean equal
    contents. The layout of a Merkle search tree belongs to a library: its root node
    stands for the whole path-to-CID map and `Library.inner` names its other nodes. */
module Content {
  import opened Common

  type Path = string

  /** A row of the record index: collection and record key. */
  type Row = (string, string)

  type Entries = map<Path, Cid>

  datatype BlobRef = BlobRef(cid: Cid, mime: string, size: int)

  datatype Record = Record(typ: Option<string>, body: string, blobs: seq<BlobRef>)

  datatype Commit = Commit(did: string, data: Cid, rev: string, sig: string)

  datatype Block =
    | RecordBlock(record: Record)
    | TreeRoot(entries: map<Path, Cid>)
    | TreeNode(bytes: string)
    | CommitBlock(commit: Commit)
    | RawBlock(data: string)

  datatype Cid = CidOf(content: Block)

  /** What the write path asks of foreign code, as functions of their arguments. */
  datatype Library = Library(
    validRecord: Record -> bool,
    validKey: Path -> bool,
    inner: Entries -> seq<Block>,
    validCommit: Commit -> bool)

  /** Every node of the tree over m, children before the root. */
  function Nodes(lib: Library, m: Entries): seq<Block> {
    lib.inner(m) + [TreeRoot(m)]
  }

  function BlobCid(data: string): Cid {
    CidOf(RawBlock(data))
  }

  function CidSet(blobs: seq<BlobRef>): set<Cid> {
    set b | b in blobs :: b.cid
  }

  /** The blobs that the record named by c refers to. */
  function BlobsOf(c: Cid): set<Cid> {
    if c.content.RecordBlock? then CidSet(c.content.record.blobs) else {}
  }

  // ----- record paths -----

  function Join(row: Row): Path {
    row.0 + "/" + row.1
  }

  /** The two sides of the first slash. */
  function Cut(p: Path): Option<Row> {
    if p == [] then None
    else if p[0] == '/' then Some(([], p[1..]))
    else match Cut(p[1..])
      case None => None
      case Some(row) => Some(([p[0]] + row.0, row.1))
  }

  lemma {:induction false} CutJoin(row: Row)
    requires '/' !in row.0
    ensures Cut(Join(row)) == Some(row)
    decreases |row.0|
  {
    var p := Join(row);
    if row.0 == [] {
      assert p[1..] == row.1;
    } else {
      assert p[1..] == Join((row.0[1..], row.1));
      CutJoin((row.0[1..], row.1));
      assert [p[0]] + row.0[1..] == row.0;
    }
  }

  lemma {:induction false} JoinCut(p: Path)
    requires Cut(p).Some?
    ensures '/' !in Cut(p).value.0 && Join(Cut(p).value) == p
  {
    if p[0] == '/' {
      assert Join(([], p[1..])) == p;
    } else {
      JoinCut(p[1..]);
      var row := Cut(p[1..]).value;
      assert Join(([p[0]] + row.0, row.1)) == [p[0]] + Join(row);
    }
  }
}
