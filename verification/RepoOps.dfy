/** The repo write path: a batch of record writes turned into tree, blocks, index,
    blob references, a signed commit and a commit event. */
module RepoOps {
  import opened Common
  import opened Content
  import opened ActorStore
  import Tid

  datatype Action = Create | Update | Delete | Unknown(name: string)

  datatype WriteOp = WriteOp(action: Action, collection: string, rkey: string, record: Option<Record>)

  datatype WriteResult = WriteResult(
    action: Action, row: Row, cid: Option<Cid>, prev: Option<Cid>, blobs: seq<Cid>)

  datatype Error =
    | NotFound
    | MissingBlock
    | MalformedBlock
    | InvalidKey
    | RecordRequired
    | InvalidRecord
    | UnknownAction
    | InvalidCommit
    | WrongDid
    | MalformedPath

  /** The library's TID clock. All the write path relies on is that each value exceeds
      the last; by how much is the wall clock's business. */
  datatype TidClock = TidClock(last: nat, id: nat) {
    function Next(advance: nat): TidClock {
      this.(last := last + 1 + advance)
    }

    function Current(): string {
      Tid.Text(last, id)
    }
  }

  function ClockFromTid(rev: string): TidClock {
    var m, c := Tid.Micros(rev), Tid.ClockId(rev);
    TidClock(if m < 0 then 0 else m, if c < 0 then 0 else c)
  }

  /** What a batch starts from: the tree stored under the current commit, if there is one. */
  datatype Loaded = Loaded(base: Option<Entries>, clock: TidClock, since: Option<string>, prevData: Option<Cid>) {
    function Entries(): Content.Entries {
      if base.Some? then base.value else map[]
    }
  }

  /** What a batch changes as it goes. */
  datatype Work = Work(db: Tables, tree: Entries, clock: TidClock, put: seq<Block>)

  datatype Outcome = Outcome(
    db: Tables, commit: Commit, results: seq<WriteResult>,
    since: Option<string>, prevData: Option<Cid>, newBlocks: seq<Block>)

  /** One call's inputs besides the database: `advances` feeds the clock, once per write and
      once for the commit; `dirty` is which nodes the tree library chooses to write again. */
  datatype Job = Job(did: string, sig: string, ops: seq<WriteOp>, advances: seq<nat>, dirty: set<Block>)

  ghost predicate ValidJob(job: Job) {
    |job.advances| == |job.ops| + 1
  }

  // ----- the write path, on values -----

  function LoadMst(lib: Library, blocks: map<Cid, Block>, data: Cid): Result<Entries, Error> {
    if data !in blocks then Err(MissingBlock)
    else if !blocks[data].TreeRoot? then Err(MalformedBlock)
    else if exists b :: b in lib.inner(blocks[data].entries) && CidOf(b) !in blocks then Err(MissingBlock)
    else Ok(blocks[data].entries)
  }

  function ReadCommit(blocks: map<Cid, Block>, c: Cid): Result<Commit, Error> {
    if c !in blocks then Err(MissingBlock)
    else if !blocks[c].CommitBlock? then Err(MalformedBlock)
    else Ok(blocks[c].commit)
  }

  function Load(lib: Library, t: Tables): Result<Loaded, Error> {
    match t.root
    case None => Ok(Loaded(None, TidClock(0, 0), None, None))
    case Some(root) =>
      match ReadCommit(t.blocks, root.commit)
      case Err(e) => Err(e)
      case Ok(commit) =>
        match LoadMst(lib, t.blocks, commit.data)
        case Err(e) => Err(e)
        case Ok(m) => Ok(Loaded(Some(m), ClockFromTid(commit.rev), Some(commit.rev), Some(commit.data)))
  }

  /** A record without a type gets its collection's. */
  function Typed(record: Record, collection: string): Record {
    if record.typ.None? then record.(typ := Some(collection)) else record
  }

  function Lookup(m: Entries, p: Path): Option<Cid> {
    if p in m then Some(m[p]) else None
  }

  function ApplyDelete(lib: Library, op: WriteOp, w: Work): Result<(Work, WriteResult), Error> {
    var row := (op.collection, op.rkey);
    var path := Join(row);
    if !lib.validKey(path) then Err(InvalidKey)
    else if path !in w.tree then Err(NotFound)
    else
      var db := ClearBlobRefs(w.db.(records := w.db.records - {row}), row);
      Ok((w.(db := db, tree := w.tree - {path}), WriteResult(op.action, row, None, Some(w.tree[path]), [])))
  }

  function ApplyPut(lib: Library, op: WriteOp, advance: nat, w: Work): Result<(Work, WriteResult), Error> {
    if op.record.None? then Err(RecordRequired)
    else
      var record := Typed(op.record.value, op.collection);
      if !lib.validRecord(record) then Err(InvalidRecord)
      else
        var clock := if op.rkey == "" then w.clock.Next(advance) else w.clock;
        var row := (op.collection, if op.rkey == "" then clock.Current() else op.rkey);
        var path, block := Join(row), RecordBlock(record);
        if !lib.validKey(path) then Err(InvalidKey)
        else
          var db := PutBlock(w.db, block);
          var indexed := ClearBlobRefs(db.(records := db.records[row := CidOf(block)]), row);
          Ok((Work(AddBlobs(indexed, record.blobs, row), w.tree[path := CidOf(block)], clock, w.put + [block]),
              WriteResult(op.action, row, Some(CidOf(block)), Lookup(w.tree, path), Cids(record.blobs))))
  }

  function ApplyOp(lib: Library, op: WriteOp, advance: nat, w: Work): Result<(Work, WriteResult), Error> {
    match op.action
    case Delete => ApplyDelete(lib, op, w)
    case Create => ApplyPut(lib, op, advance, w)
    case Update => ApplyPut(lib, op, advance, w)
    case Unknown(_) => Err(UnknownAction)
  }

  function Cids(blobs: seq<BlobRef>): seq<Cid> {
    seq(|blobs|, i requires 0 <= i < |blobs| => blobs[i].cid)
  }

  /** The first n writes, in order, up to the first that fails. */
  function ApplyOps(lib: Library, job: Job, n: nat, w: Work): (r: Result<(Work, seq<WriteResult>), Error>)
    requires n <= |job.ops| <= |job.advances|
    ensures r.Ok? ==> |r.value.1| == n
  {
    if n == 0 then Ok((w, []))
    else match ApplyOps(lib, job, n - 1, w)
      case Err(e) => Err(e)
      case Ok(prior) =>
        match ApplyOp(lib, job.ops[n - 1], job.advances[n - 1], prior.0)
        case Err(e) => Err(e)
        case Ok(next) => Ok((next.0, prior.1 + [next.1]))
  }

  /** The nodes of m that have to be written over a stored tree: those it does not have,
      and whichever others are dirty. */
  function DiffNodes(lib: Library, base: Option<Entries>, m: Entries, dirty: set<Block>, n: nat): seq<Block>
    requires n <= |Nodes(lib, m)|
  {
    if n == 0 then [] else
      var b := Nodes(lib, m)[n - 1];
      DiffNodes(lib, base, m, dirty, n - 1) +
      if base.None? || b !in Nodes(lib, base.value) || b in dirty then [b] else []
  }

  function Start(t: Tables, from: Loaded): Work {
    Work(t, from.Entries(), from.clock, [])
  }

  /** What the end of a batch writes: tree nodes, then the commit and the repo root naming it. */
  function Finish(db: Tables, nodes: seq<Block>, commit: Commit): Tables {
    var c := CidOf(CommitBlock(commit));
    PutBlock(PutBlocks(db, nodes), CommitBlock(commit)).(root := Some(RepoRoot(c, commit.rev)))
  }

  /** The transaction: writes, tree nodes, commit block, repo root. */
  function RunBatch(lib: Library, job: Job, from: Loaded, t: Tables): Result<Outcome, Error>
    requires ValidJob(job)
  {
    match ApplyOps(lib, job, |job.ops|, Start(t, from))
    case Err(e) => Err(e)
    case Ok(done) =>
      var w := done.0;
      var nodes := DiffNodes(lib, from.base, w.tree, job.dirty, |Nodes(lib, w.tree)|);
      var commit := Commit(job.did, CidOf(TreeRoot(w.tree)), w.clock.Next(job.advances[|job.ops|]).Current(), job.sig);
      Ok(Outcome(Finish(w.db, nodes, commit), commit, done.1,
                 from.since, from.prevData, w.put + nodes + [CommitBlock(commit)]))
  }

  function ApplyBatch(lib: Library, job: Job, t: Tables): Result<Outcome, Error>
    requires ValidJob(job)
  {
    match Load(lib, t)
    case Err(e) => Err(e)
    case Ok(from) => RunBatch(lib, job, from, t)
  }

  // ----- the commit event -----

  datatype RepoOp = RepoOp(action: Action, path: Path, cid: Option<Cid>, prev: Option<Cid>)

  datatype CommitEvent = CommitEvent(
    repo: string, rev: string, since: Option<string>, commit: Cid, prevData: Option<Cid>,
    blocks: seq<Block>, ops: seq<RepoOp>, blobs: seq<Cid>)

  function OpOf(r: WriteResult): RepoOp {
    RepoOp(r.action, Join(r.row), r.cid, r.prev)
  }

  function OpsOf(results: seq<WriteResult>): seq<RepoOp> {
    seq(|results|, i requires 0 <= i < |results| => OpOf(results[i]))
  }

  function BlobLinks(results: seq<WriteResult>): seq<Cid> {
    if results == [] then [] else BlobLinks(results[..|results| - 1]) + results[|results| - 1].blobs
  }

  function EventOf(did: string, o: Outcome): CommitEvent {
    CommitEvent(did, o.commit.rev, o.since, CidOf(CommitBlock(o.commit)), o.prevData,
                o.newBlocks, OpsOf(o.results), BlobLinks(o.results))
  }

  // ----- the write path, as it runs -----

  /** A block store that also records every block written through it. */
  class Collector {
    const inner: Database
    var blocks: seq<Block>

    constructor (inner: Database)
      ensures this.inner == inner && blocks == []
    {
      this.inner := inner;
      blocks := [];
    }

    method Put(b: Block)
      modifies this, inner`blocks
      ensures inner.View() == PutBlock(old(inner.View()), b)
      ensures blocks == old(blocks) + [b]
    {
      inner.Put(b);
      blocks := blocks + [b];
    }
  }

  class Writer {
    const lib: Library

    constructor (lib: Library)
      ensures this.lib == lib
    {
      this.lib := lib;
    }

    method ApplyOne(tx: Database, bs: Collector, tree: Entries, clock: TidClock, op: WriteOp, advance: nat)
      returns (res: Result<(Entries, TidClock, WriteResult), Error>)
      requires bs.inner == tx
      modifies tx, bs
      ensures match ApplyOp(lib, op, advance, Work(old(tx.View()), tree, clock, old(bs.blocks)))
        case Err(e) => res == Err(e)
        case Ok(next) => res == Ok((next.0.tree, next.0.clock, next.1)) &&
                         tx.View() == next.0.db && bs.blocks == next.0.put
    {
      match op.action {
        case Delete =>
          var row := (op.collection, op.rkey);
          var path := Join(row);
          if !lib.validKey(path) {
            return Err(InvalidKey);
          }
          if path !in tree {
            return Err(NotFound);
          }
          tx.DeleteRecordIndex(row);
          tx.ClearBlobRefsForRecord(row);
          return Ok((tree - {path}, clock, WriteResult(op.action, row, None, Some(tree[path]), [])));
        case Unknown(_) =>
          return Err(UnknownAction);
        case _ =>
          if op.record.None? {
            return Err(RecordRequired);
          }
          var record := Typed(op.record.value, op.collection);
          if !lib.validRecord(record) {
            return Err(InvalidRecord);
          }
          var clk, rkey := clock, op.rkey;
          if rkey == "" {
            clk := clk.Next(advance);
            rkey := clk.Current();
          }
          var row := (op.collection, rkey);
          var path, block := Join(row), RecordBlock(record);
          bs.Put(block);
          if !lib.validKey(path) {
            return Err(InvalidKey);
          }
          var prev := Lookup(tree, path);
          tx.PutRecordIndex(row, CidOf(block));
          tx.ClearBlobRefsForRecord(row);
          var cids := AddRecordBlobs(tx, row, record.blobs);
          return Ok((tree[path := CidOf(block)], clk, WriteResult(op.action, row, Some(CidOf(block)), prev, cids)));
      }
    }

    method AddRecordBlobs(tx: Database, row: Row, blobs: seq<BlobRef>) returns (cids: seq<Cid>)
      modifies tx
      ensures tx.View() == AddBlobs(old(tx.View()), blobs, row)
      ensures cids == Cids(blobs)
    {
      cids := [];
      for i := 0 to |blobs|
        invariant tx.View() == AddBlobs(old(tx.View()), blobs[..i], row)
        invariant cids == Cids(blobs)[..i]
      {
        tx.InsertBlobMeta(blobs[i].cid, blobs[i].mime, blobs[i].size);
        tx.AddBlobRef(blobs[i].cid, row);
        cids := cids + [blobs[i].cid];
        assert blobs[..i + 1][..i] == blobs[..i];
      }
      assert blobs[..|blobs|] == blobs;
    }

    /** Write the nodes of the tree that its stored form lacks. */
    method WriteDiffBlocks(bs: Collector, base: Option<Entries>, tree: Entries, dirty: set<Block>)
      modifies bs, bs.inner`blocks
      ensures var nodes := DiffNodes(lib, base, tree, dirty, |Nodes(lib, tree)|);
        bs.blocks == old(bs.blocks) + nodes && bs.inner.View() == PutBlocks(old(bs.inner.View()), nodes)
    {
      var nodes := Nodes(lib, tree);
      ghost var written := [];
      for i := 0 to |nodes|
        invariant written == DiffNodes(lib, base, tree, dirty, i)
        invariant bs.blocks == old(bs.blocks) + written
        invariant bs.inner.View() == PutBlocks(old(bs.inner.View()), written)
      {
        if base.None? || nodes[i] !in Nodes(lib, base.value) || nodes[i] in dirty {
          bs.Put(nodes[i]);
          assert (written + [nodes[i]])[..|written|] == written;
          written := written + [nodes[i]];
        }
      }
    }

    /** The writes of a batch, in order, up to the first that fails. */
    method ApplyAll(tx: Database, bs: Collector, tree0: Entries, clock0: TidClock, job: Job)
      returns (res: Result<(Entries, TidClock, seq<WriteResult>), Error>)
      requires ValidJob(job) && bs.inner == tx
      modifies tx, bs
      ensures match ApplyOps(lib, job, |job.ops|, Work(old(tx.View()), tree0, clock0, old(bs.blocks)))
        case Err(e) => res == Err(e)
        case Ok(done) => res == Ok((done.0.tree, done.0.clock, done.1)) &&
                         tx.View() == done.0.db && bs.blocks == done.0.put
    {
      var tree, clock, results := tree0, clock0, [];
      ghost var w0 := Work(tx.View(), tree, clock, bs.blocks);
      ghost var w := w0;
      for i := 0 to |job.ops|
        invariant w == Work(tx.View(), tree, clock, bs.blocks)
        invariant ApplyOps(lib, job, i, w0) == Ok((w, results))
      {
        WritesStep(lib, job, i, w0, w, results);
        var one := ApplyOne(tx, bs, tree, clock, job.ops[i], job.advances[i]);
        if one.Err? {
          FailureStays(lib, job, i + 1, w0);
          return Err(one.error);
        }
        tree, clock := one.value.0, one.value.1;
        results := results + [one.value.2];
        w := Work(tx.View(), tree, clock, bs.blocks);
      }
      return Ok((tree, clock, results));
    }

    /** Tree nodes, commit block, repo root. */
    method WriteCommit(tx: Database, bs: Collector, base: Option<Entries>, tree: Entries, clock: TidClock, job: Job)
      returns (commit: Commit)
      requires ValidJob(job) && bs.inner == tx
      modifies tx, bs
      ensures commit == Commit(job.did, CidOf(TreeRoot(tree)), clock.Next(job.advances[|job.ops|]).Current(), job.sig)
      ensures var nodes := DiffNodes(lib, base, tree, job.dirty, |Nodes(lib, tree)|);
        && bs.blocks == old(bs.blocks) + nodes + [CommitBlock(commit)]
        && tx.View() == Finish(old(tx.View()), nodes, commit)
    {
      WriteDiffBlocks(bs, base, tree, job.dirty);
      var rev := clock.Next(job.advances[|job.ops|]).Current();
      commit := Commit(job.did, CidOf(TreeRoot(tree)), rev, job.sig);
      bs.Put(CommitBlock(commit));
      tx.SetRepoRoot(CidOf(CommitBlock(commit)), rev);
    }

    /** Apply a batch atomically: on an error the transaction is dropped. */
    method ApplyWrites(db: Database, job: Job) returns (res: Result<Outcome, Error>)
      requires ValidJob(job)
      modifies db
      ensures res == ApplyBatch(lib, job, old(db.View()))
      ensures res.Ok? ==> db.View() == res.value.db
      ensures res.Err? ==> db.View() == old(db.View())
    {
      var loaded := Load(lib, db.View());
      if loaded.Err? {
        return Err(loaded.error);
      }
      var from := loaded.value;
      var tx := db.Begin();
      var bs := new Collector(tx);
      var applied := ApplyAll(tx, bs, from.Entries(), from.clock, job);
      if applied.Err? {
        return Err(applied.error);
      }
      var (tree, clock, results) := applied.value;
      var commit := WriteCommit(tx, bs, from.base, tree, clock, job);
      db.Commit(tx);
      return Ok(Outcome(db.View(), commit, results, from.since, from.prevData, bs.blocks));
    }

    method EmitCommitEvent(did: string, o: Outcome) returns (evt: CommitEvent)
      ensures evt == EventOf(did, o)
    {
      var ops, links := [], [];
      for i := 0 to |o.results|
        invariant ops == OpsOf(o.results)[..i]
        invariant links == BlobLinks(o.results[..i])
      {
        ops := ops + [OpOf(o.results[i])];
        links := links + o.results[i].blobs;
        assert o.results[..i + 1][..i] == o.results[..i];
      }
      assert o.results[..|o.results|] == o.results;
      evt := CommitEvent(did, o.commit.rev, o.since, CidOf(CommitBlock(o.commit)), o.prevData, o.newBlocks, ops, links);
    }
  }

  lemma WritesStep(lib: Library, job: Job, n: nat, w0: Work, w: Work, results: seq<WriteResult>)
    requires n < |job.ops| <= |job.advances|
    requires ApplyOps(lib, job, n, w0) == Ok((w, results))
    ensures ApplyOps(lib, job, n + 1, w0) == match ApplyOp(lib, job.ops[n], job.advances[n], w)
      case Err(e) => Err(e)
      case Ok(next) => Ok((next.0, results + [next.1]))
  {
  }

  /** A batch fails as its first failing write does. */
  lemma {:induction false} FailureStays(lib: Library, job: Job, n: nat, w: Work)
    requires n <= |job.ops| <= |job.advances|
    requires ApplyOps(lib, job, n, w).Err?
    ensures ApplyOps(lib, job, |job.ops|, w) == ApplyOps(lib, job, n, w)
    decreases |job.ops| - n
  {
    if n < |job.ops| {
      FailureStays(lib, job, n + 1, w);
    }
  }
}
