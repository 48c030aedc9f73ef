/** The per-actor stores and locks, and concurrent write batches interleaved around them. */
module Manager {
  import opened Common
  import opened Order
  import opened Content
  import opened ActorStore
  import opened RepoOps
  import opened RepoInvariant
  import opened RepoEvents
  import opened Migration
  import Tid

  class Mutex {
    constructor () {}
  }

  /** Stores and locks are made on first use and never removed. */
  class Manager {
    const validDid: string -> bool
    var stores: map<string, Database>
    var locks: map<string, Mutex>

    /** No two actors share a store or a lock. */
    ghost predicate Valid()
      reads this
    {
      && (forall d, e :: d in stores && e in stores && d != e ==> stores[d] != stores[e])
      && (forall d, e :: d in locks && e in locks && d != e ==> locks[d] != locks[e])
    }

    constructor (validDid: string -> bool)
      ensures Valid() && this.validDid == validDid && stores == map[] && locks == map[]
    {
      this.validDid := validDid;
      stores, locks := map[], map[];
    }

    method Get(did: string) returns (res: Result<Database, Error>)
      requires Valid()
      modifies this`stores
      ensures Valid()
      ensures !validDid(did) ==> res == Err(WrongDid) && stores == old(stores)
      ensures validDid(did) ==> res.Ok? && stores == old(stores)[did := res.value]
      ensures validDid(did) && did in old(stores) ==> res == Ok(old(stores[did]))
      ensures validDid(did) && did !in old(stores) ==> fresh(res.value) && res.value.View() == EMPTY
    {
      if !validDid(did) {
        return Err(WrongDid);
      }
      if did in stores {
        assert stores == stores[did := stores[did]];
        return Ok(stores[did]);
      }
      var s := new Database();
      stores := stores[did := s];
      return Ok(s);
    }

    method DidLock(did: string) returns (l: Mutex)
      requires Valid()
      modifies this`locks
      ensures Valid() && locks == old(locks)[did := l]
      ensures did in old(locks) ==> l == old(locks[did])
      ensures did !in old(locks) ==> fresh(l)
    {
      if did in locks {
        l := locks[did];
        assert locks == locks[did := l];
      } else {
        l := new Mutex();
        locks := locks[did := l];
      }
    }
  }

  // ----- the interleavings -----

  type Thread = nat
  type Lock = nat

  /** Where a call of `ApplyWrites` stands. */
  datatype Pc =
    | Idle
    | Waiting(job: Job, lock: Lock)
    | Entered(job: Job, lock: Lock)
    | RootRead(job: Job, lock: Lock, root: Option<RepoRoot>)
    | Ready(job: Job, lock: Lock, from: Loaded)
    | Committed(job: Job, lock: Lock, event: CommitEvent)
    | Emitting(job: Job, event: CommitEvent)

  /** A change of an actor database: a committed batch, an import, or a blob's metadata. */
  datatype Change =
    | Batch(before: Tables, job: Job, outcome: Outcome)
    | Replaced(before: Tables, imported: Tables)
    | Uploaded(before: Tables, data: string, mime: string)
  {
    function After(): Tables {
      match this
      case Batch(_, _, o) => o.db
      case Replaced(_, imported) => imported
      case Uploaded(t, data, mime) => Upload(t, data, mime)
    }
  }

  datatype System = System(
    locks: map<string, Lock>,
    nextLock: Lock,
    held: map<Lock, Thread>,
    dbs: map<string, Tables>,
    threads: map<Thread, Pc>,
    history: map<string, seq<Change>>,
    log: seq<CommitEvent>)
  {
    function Db(did: string): Tables {
      if did in dbs then dbs[did] else EMPTY
    }

    function Pc(t: Thread): Pc {
      if t in threads then threads[t] else Idle
    }

    function Changes(did: string): seq<Change> {
      if did in history then history[did] else []
    }

    function Move(t: Thread, pc: Pc): System {
      this.(threads := threads[t := pc])
    }

    function Changed(did: string, c: Change): System {
      this.(dbs := dbs[did := c.After()], history := history[did := Changes(did) + [c]])
    }

    function Free(l: Lock): System {
      this.(held := held - {l})
    }
  }

  datatype Act =
    | Start(job: Job)
    | Acquire
    | ReadRoot
    | LoadTree(from: Loaded)
    | CommitTx(outcome: Outcome)
    | Fail
    | Release
    | Append
    | LoseEvent
    | ImportInto(did: string, imported: Tables)
    | UploadBlob(did: string, data: string, mime: string)

  const INITIAL: System := System(map[], 0, map[], map[], map[], map[], [])

  predicate HoldsLock(pc: Pc) {
    pc.Entered? || pc.RootRead? || pc.Ready? || pc.Committed?
  }

  /** Between reading the repo root and committing. */
  predicate Reading(pc: Pc) {
    pc.RootRead? || pc.Ready?
  }

  predicate Mid(pc: Pc, did: string) {
    Reading(pc) && pc.job.did == did
  }

  /** One atomic step of thread t, as far as locks, program points and tables go. The lock
      table is read and filled under the manager's own mutex; a transaction holds the actor's
      only connection, so it is one step. */
  ghost predicate Shape(s: System, t: Thread, a: Act, s': System) {
    var pc := s.Pc(t);
    match a
    case Start(job) =>
      pc.Idle? && ValidJob(job) &&
      (if job.did in s.locks then s' == s.Move(t, Waiting(job, s.locks[job.did]))
       else
         s' == s.(locks := s.locks[job.did := s.nextLock], nextLock := s.nextLock + 1)
           .Move(t, Waiting(job, s.nextLock)))
    case Acquire =>
      pc.Waiting? && pc.lock !in s.held && s' == s.(held := s.held[pc.lock := t]).Move(t, Entered(pc.job, pc.lock))
    case ReadRoot =>
      pc.Entered? && s' == s.Move(t, RootRead(pc.job, pc.lock, s.Db(pc.job.did).root))
    case LoadTree(from) =>
      pc.RootRead? && s' == s.Move(t, Ready(pc.job, pc.lock, from))
    case CommitTx(o) =>
      pc.Ready? &&
      s' == s.Changed(pc.job.did, Batch(s.Db(pc.job.did), pc.job, o))
          .Move(t, Committed(pc.job, pc.lock, EventOf(pc.job.did, o)))
    case Fail =>
      HoldsLock(pc) && !pc.Committed? && s' == s.Free(pc.lock).Move(t, Idle)
    case Release =>
      pc.Committed? && s' == s.Free(pc.lock).Move(t, Emitting(pc.job, pc.event))
    case Append =>
      pc.Emitting? && s' == s.(log := s.log + [pc.event]).Move(t, Idle)
    case LoseEvent =>
      pc.Emitting? && s' == s.Move(t, Idle)
    case ImportInto(did, imported) => s' == s.Changed(did, Replaced(s.Db(did), imported))
    case UploadBlob(did, data, mime) => s' == s.Changed(did, Uploaded(s.Db(did), data, mime))
  }

  /** What the step read, computed or imported is what the code would have. */
  ghost predicate Justified(lib: Library, s: System, t: Thread, a: Act) {
    var pc := s.Pc(t);
    match a
    case LoadTree(from) => pc.RootRead? && Load(lib, s.Db(pc.job.did).(root := pc.root)) == Ok(from)
    case CommitTx(o) => pc.Ready? && ValidJob(pc.job) && RunBatch(lib, pc.job, pc.from, s.Db(pc.job.did)) == Ok(o)
    case ImportInto(did, imported) => exists verified, car :: Import(lib, did, verified, car) == Ok(imported)
    case _ => true
  }

  ghost predicate Step(lib: Library, s: System, t: Thread, a: Act, s': System) {
    Shape(s, t, a, s') && Justified(lib, s, t, a)
  }

  datatype Turn = Turn(thread: Thread, act: Act)

  /** states[0] is initial and each state follows from the one before by one step. */
  ghost predicate IsRun(lib: Library, states: seq<System>, turns: seq<Turn>) {
    && |states| == |turns| + 1 && states[0] == INITIAL
    && forall i :: 0 <= i < |turns| ==> Step(lib, states[i], turns[i].thread, turns[i].act, states[i + 1])
  }

  /** An import takes no lock. Apart, it meets no batch of its actor half way. */
  ghost predicate Apart(s: System, a: Act) {
    a.ImportInto? ==> forall u :: !Mid(s.Pc(u), a.did)
  }

  ghost predicate ImportsApart(states: seq<System>, turns: seq<Turn>, n: nat)
    requires n <= |turns| <= |states|
  {
    forall i :: 0 <= i < n ==> Apart(states[i], turns[i].act)
  }

  // ----- what every interleaving keeps -----

  /** One lock for each actor that has one. */
  ghost predicate LocksOk(s: System) {
    && (forall d :: d in s.locks ==> s.locks[d] < s.nextLock)
    && (forall d, e :: d in s.locks && e in s.locks && s.locks[d] == s.locks[e] ==> d == e)
  }

  /** A call uses its actor's lock, and holds it inside. */
  ghost predicate LockOk(s: System, t: Thread) {
    var pc := s.Pc(t);
    && (pc.Waiting? || HoldsLock(pc) ==> ValidJob(pc.job) && pc.job.did in s.locks && s.locks[pc.job.did] == pc.lock)
    && (HoldsLock(pc) ==> pc.lock in s.held && s.held[pc.lock] == t)
  }

  /** What a call has read of its actor's database is still current. */
  ghost predicate ReadOk(lib: Library, s: System, t: Thread) {
    var pc := s.Pc(t);
    && (pc.RootRead? ==> pc.root == s.Db(pc.job.did).root)
    && (pc.Ready? ==> Load(lib, s.Db(pc.job.did)) == Ok(pc.from))
  }

  /** The step from one state of an actor's database to the next: a batch is one atomic
      `ApplyBatch`, an import leaves a database in good order. */
  ghost predicate ChangeOk(lib: Library, did: string, c: Change) {
    match c
    case Batch(t, job, o) => job.did == did && ValidJob(job) && ApplyBatch(lib, job, t) == Ok(o)
    case Replaced(_, imported) => imported.root.Some? && Consistent(lib, did, imported)
    case Uploaded(_, _, _) => true
  }

  ghost function Legal(lib: Library, did: string): Change -> bool {
    (c: Change) => ChangeOk(lib, did, c)
  }

  /** Each change starts from exactly what the one before left; the database is what the last
      one left. */
  ghost predicate Linear(ok: Change -> bool, cs: seq<Change>, db: Tables) {
    if cs == [] then db == EMPTY else
      var c := cs[|cs| - 1];
      Linear(ok, cs[..|cs| - 1], c.before) && ok(c) && db == c.After()
  }

  ghost predicate HistoryOk(lib: Library, s: System) {
    forall d :: Linear(Legal(lib, d), s.Changes(d), s.Db(d))
  }

  ghost predicate Inv(lib: Library, s: System) {
    LocksOk(s) && HistoryOk(lib, s) && forall t :: LockOk(s, t) && ReadOk(lib, s, t)
  }

  lemma HoldersAgree(s: System, t: Thread, u: Thread)
    requires LockOk(s, t) && LockOk(s, u)
    requires HoldsLock(s.Pc(t)) && HoldsLock(s.Pc(u)) && s.Pc(t).job.did == s.Pc(u).job.did
    ensures t == u
  {
  }

  lemma LinearExtend(ok: Change -> bool, cs: seq<Change>, db: Tables, c: Change)
    requires Linear(ok, cs, db) && c.before == db && ok(c)
    ensures Linear(ok, cs + [c], c.After())
  {
    assert (cs + [c])[..|cs|] == cs;
  }

  /** Change i is legal and starts where change i - 1 ended. */
  lemma {:induction false} LinearAt(ok: Change -> bool, cs: seq<Change>, db: Tables, i: nat)
    requires Linear(ok, cs, db) && i < |cs|
    ensures ok(cs[i]) && Linear(ok, cs[..i], cs[i].before)
    ensures i > 0 ==> cs[i].before == cs[i - 1].After()
  {
    if i == |cs| - 1 {
      if i > 0 { assert cs[..i][i - 1] == cs[i - 1]; }
    } else {
      LinearAt(ok, cs[..|cs| - 1], cs[|cs| - 1].before, i);
      assert cs[..|cs| - 1][..i] == cs[..i];
    }
  }

  lemma StepKeepsLocks(s: System, t: Thread, a: Act, s': System)
    requires LocksOk(s) && Shape(s, t, a, s')
    ensures LocksOk(s')
  {
  }

  lemma StepKeepsMoverLock(s: System, t: Thread, a: Act, s': System)
    requires LockOk(s, t) && Shape(s, t, a, s')
    ensures LockOk(s', t)
  {
  }

  lemma StepKeepsOtherLock(s: System, t: Thread, a: Act, s': System, u: Thread)
    requires LockOk(s, t) && LockOk(s, u) && Shape(s, t, a, s') && u != t
    ensures LockOk(s', u)
  {
    assert s'.Pc(u) == s.Pc(u);
    assert forall d :: d in s.locks ==> d in s'.locks && s'.locks[d] == s.locks[d];
    assert forall l :: l in s.held && s.held[l] != t ==> l in s'.held && s'.held[l] == s.held[l];
  }

  lemma StepKeepsHistory(lib: Library, s: System, t: Thread, a: Act, s': System, d: string)
    requires ReadOk(lib, s, t) && Step(lib, s, t, a, s')
    requires Linear(Legal(lib, d), s.Changes(d), s.Db(d))
    ensures Linear(Legal(lib, d), s'.Changes(d), s'.Db(d))
  {
    hide ReadOk, Justified, ChangeOk, Linear;
    if a.CommitTx? && d == s.Pc(t).job.did {
      BatchIsLegal(lib, s, t, a.outcome);
      LinearExtend(Legal(lib, d), s.Changes(d), s.Db(d), Batch(s.Db(d), s.Pc(t).job, a.outcome));
    } else if a.ImportInto? && d == a.did {
      ImportIsLegal(lib, s, t, a, s.Db(d));
      LinearExtend(Legal(lib, d), s.Changes(d), s.Db(d), Replaced(s.Db(d), a.imported));
    } else if a.UploadBlob? && d == a.did {
      UploadIsLegal(lib, d, s.Db(d), a.data, a.mime);
      LinearExtend(Legal(lib, d), s.Changes(d), s.Db(d), Uploaded(s.Db(d), a.data, a.mime));
    } else {
      assert s'.Changes(d) == s.Changes(d) && s'.Db(d) == s.Db(d);
    }
  }

  lemma BatchIsLegal(lib: Library, s: System, t: Thread, o: Outcome)
    requires ReadOk(lib, s, t) && Justified(lib, s, t, CommitTx(o))
    ensures Legal(lib, s.Pc(t).job.did)(Batch(s.Db(s.Pc(t).job.did), s.Pc(t).job, o))
  {
  }

  lemma ImportIsLegal(lib: Library, s: System, t: Thread, a: Act, before: Tables)
    requires a.ImportInto? && Justified(lib, s, t, a)
    ensures Legal(lib, a.did)(Replaced(before, a.imported))
  {
    var verified, car :| Import(lib, a.did, verified, car) == Ok(a.imported);
    ImportConsistent(lib, a.did, verified, car);
  }

  lemma UploadIsLegal(lib: Library, did: string, before: Tables, data: string, mime: string)
    ensures Legal(lib, did)(Uploaded(before, data, mime))
  {
  }

  /** Imports and uploads move no thread. */
  predicate Moves(a: Act) {
    !a.ImportInto? && !a.UploadBlob?
  }

  lemma StepKeepsMover(lib: Library, s: System, t: Thread, a: Act, s': System)
    requires ReadOk(lib, s, t) && Step(lib, s, t, a, s') && Moves(a)
    ensures ReadOk(lib, s', t)
  {
    if a.LoadTree? {
      var db := s.Db(s.Pc(t).job.did);
      assert db.(root := db.root) == db;
    }
  }

  /** What a batch has read stays current when nothing but its actor's blob rows change. */
  lemma ReadStays(lib: Library, s: System, s': System, u: Thread)
    requires ReadOk(lib, s, u) && s'.Pc(u) == s.Pc(u)
    requires Reading(s.Pc(u)) ==>
      var db, db' := s.Db(s.Pc(u).job.did), s'.Db(s.Pc(u).job.did); db'.root == db.root && db'.blocks == db.blocks
    ensures ReadOk(lib, s', u)
  {
  }

  lemma StepKeepsOther(lib: Library, s: System, t: Thread, a: Act, s': System, u: Thread)
    requires LockOk(s, t) && LockOk(s, u) && ReadOk(lib, s, u) && Shape(s, t, a, s') && Apart(s, a)
    requires u != t || !Moves(a)
    ensures ReadOk(lib, s', u)
  {
    hide ReadOk, LockOk;
    assert s'.Pc(u) == s.Pc(u);
    if Reading(s.Pc(u)) && a.CommitTx? && s.Pc(u).job.did == s.Pc(t).job.did {
      HoldersAgree(s, t, u);
    }
    ReadStays(lib, s, s', u);
  }

  lemma {:induction false} RunKeepsLocks(lib: Library, states: seq<System>, turns: seq<Turn>, n: nat)
    requires IsRun(lib, states, turns) && n < |states|
    ensures LocksOk(states[n]) && forall t :: LockOk(states[n], t)
  {
    if n > 0 {
      RunKeepsLocks(lib, states, turns, n - 1);
      var s, m, s' := states[n - 1], turns[n - 1], states[n];
      StepKeepsLocks(s, m.thread, m.act, s');
      forall u ensures LockOk(s', u) {
        assert LockOk(s, u) && LockOk(s, m.thread);
        if u == m.thread {
          StepKeepsMoverLock(s, u, m.act, s');
        } else {
          StepKeepsOtherLock(s, m.thread, m.act, s', u);
        }
      }
    }
  }

  /** Who holds a lock is inside with it. */
  ghost predicate HeldInside(s: System) {
    forall l :: l in s.held ==> HoldsLock(s.Pc(s.held[l])) && s.Pc(s.held[l]).lock == l
  }

  lemma StepKeepsHeld(s: System, t: Thread, a: Act, s': System)
    requires HeldInside(s) && LockOk(s, t) && Shape(s, t, a, s')
    ensures HeldInside(s')
  {
    forall l | l in s'.held ensures HoldsLock(s'.Pc(s'.held[l])) && s'.Pc(s'.held[l]).lock == l {
      if s'.held[l] != t {
        assert s'.Pc(s'.held[l]) == s.Pc(s'.held[l]);
      }
    }
  }

  /** In every state of every run a lock is held exactly while a call is inside with it: none is
      leaked by a call that fails, and a call waiting for a lock that nobody is inside with can
      enter. */
  lemma {:induction false} LocksNotLeaked(lib: Library, states: seq<System>, turns: seq<Turn>, n: nat)
    requires IsRun(lib, states, turns) && n < |states|
    ensures HeldInside(states[n])
    ensures forall l :: l in states[n].held <==> exists t :: HoldsLock(states[n].Pc(t)) && states[n].Pc(t).lock == l
  {
    RunKeepsLocks(lib, states, turns, n);
    if n > 0 {
      LocksNotLeaked(lib, states, turns, n - 1);
      RunKeepsLocks(lib, states, turns, n - 1);
      StepKeepsHeld(states[n - 1], turns[n - 1].thread, turns[n - 1].act, states[n]);
    }
    forall l ensures l in states[n].held <==> exists t :: HoldsLock(states[n].Pc(t)) && states[n].Pc(t).lock == l {
      if t :| HoldsLock(states[n].Pc(t)) && states[n].Pc(t).lock == l {
        assert LockOk(states[n], t);
      }
    }
  }

  /** In every state of every run two calls inside for one actor are one call. */
  lemma MutualExclusion(lib: Library, states: seq<System>, turns: seq<Turn>, n: nat, t: Thread, u: Thread)
    requires IsRun(lib, states, turns) && n < |states|
    requires HoldsLock(states[n].Pc(t)) && HoldsLock(states[n].Pc(u))
        && states[n].Pc(t).job.did == states[n].Pc(u).job.did
    ensures t == u
  {
    RunKeepsLocks(lib, states, turns, n);
    assert LockOk(states[n], t) && LockOk(states[n], u);
    HoldersAgree(states[n], t, u);
  }

  /** While imports keep apart, what a batch has read is still current when it commits, and the
      changes of each actor form one line. */
  lemma {:induction false} RunKeepsInv(lib: Library, states: seq<System>, turns: seq<Turn>, n: nat)
    requires IsRun(lib, states, turns) && n < |states| && ImportsApart(states, turns, n)
    ensures Inv(lib, states[n])
  {
    RunKeepsLocks(lib, states, turns, n);
    if n > 0 {
      RunKeepsInv(lib, states, turns, n - 1);
      var s, m, s' := states[n - 1], turns[n - 1], states[n];
      assert LockOk(s, m.thread) && ReadOk(lib, s, m.thread);
      forall d ensures Linear(Legal(lib, d), s'.Changes(d), s'.Db(d)) {
        assert Linear(Legal(lib, d), s.Changes(d), s.Db(d));
        StepKeepsHistory(lib, s, m.thread, m.act, s', d);
      }
      forall u ensures ReadOk(lib, s', u) {
        assert LockOk(s, u) && ReadOk(lib, s, u);
        if u == m.thread && Moves(m.act) {
          StepKeepsMover(lib, s, u, m.act, s');
        } else {
          StepKeepsOther(lib, s, m.thread, m.act, s', u);
        }
      }
    }
  }

  // ----- the chain of commits -----

  lemma {:induction false} LinearGrounded(lib: Library, did: string, cs: seq<Change>, db: Tables)
    requires Linear(Legal(lib, did), cs, db)
    ensures Grounded(lib, did, db)
  {
    if cs != [] {
      var c := cs[|cs| - 1];
      assert Legal(lib, did)(c);
      LinearGrounded(lib, did, cs[..|cs| - 1], c.before);
      match c
      case Batch(t, job, o) => BatchGrounded(lib, job, t);
      case Uploaded(t, data, mime) => UploadKeepsGrounded(lib, did, t, data, mime);
      case Replaced(_, _) =>
    }
  }

  /** The event names the state's current commit as the one it comes after. */
  ghost predicate Follows(e: CommitEvent, t: Tables) {
    && t.root.Some? && IsCommit(t.root.value.commit)
    && e.since == Some(t.root.value.commit.content.commit.rev)
    && e.prevData == Some(t.root.value.commit.content.commit.data)
  }

  /** A batch or import leaves its own commit current; an upload leaves the current one. */
  ghost predicate Leaves(c: Change) {
    match c
    case Batch(_, _, o) => c.After().root.Some? && c.After().root.value.commit == CidOf(CommitBlock(o.commit))
    case Replaced(_, _) => c.After().root.Some?
    case Uploaded(t, _, _) => c.After().root == t.root
  }

  lemma ChangeLeavesCommit(lib: Library, did: string, c: Change)
    requires ChangeOk(lib, did, c)
    ensures Leaves(c)
  {
  }

  lemma LinearLeaves(lib: Library, did: string, cs: seq<Change>, db: Tables, i: nat)
    requires Linear(Legal(lib, did), cs, db) && i < |cs|
    ensures Leaves(cs[i])
  {
    LinearAt(Legal(lib, did), cs, db, i);
    assert Legal(lib, did)(cs[i]);
    ChangeLeavesCommit(lib, did, cs[i]);
  }

  lemma LinearFollows(lib: Library, did: string, cs: seq<Change>, db: Tables, i: nat)
    requires Linear(Legal(lib, did), cs, db)
    requires i < |cs| && cs[i].Batch?
    ensures if cs[i].before.root.Some? then Follows(EventOf(did, cs[i].outcome), cs[i].before)
      else EventOf(did, cs[i].outcome).since == None && EventOf(did, cs[i].outcome).prevData == None
  {
    LinearAt(Legal(lib, did), cs, db, i);
    assert Legal(lib, did)(cs[i]);
    LinearGrounded(lib, did, cs[..i], cs[i].before);
    GroundedLoads(lib, did, cs[i].before);
  }

  /** Between two changes that commit there are only uploads. */
  ghost predicate NextCommit(cs: seq<Change>, j: nat, i: nat) {
    j < i < |cs| && !cs[j].Uploaded? && cs[i].Batch? && forall k :: j < k < i ==> cs[k].Uploaded?
  }

  lemma {:induction false} UploadsKeepRoot(lib: Library, did: string, cs: seq<Change>, db: Tables, j: nat, i: nat)
    requires Linear(Legal(lib, did), cs, db) && j < i < |cs|
    requires forall k :: j < k < i ==> cs[k].Uploaded?
    ensures cs[i].before.root == cs[j].After().root
  {
    hide *;
    LinearAt(Legal(lib, did), cs, db, i);
    if j < i - 1 {
      UploadsKeepRoot(lib, did, cs, db, j, i - 1);
      UploadKeepsRoot(cs[i - 1]);
    }
  }

  lemma UploadKeepsRoot(c: Change)
    requires c.Uploaded?
    ensures c.After().root == c.before.root
  {
  }

  /** In every interleaving with imports apart the changes of one actor form one chain: each
      starts from what the one before left and the database is what the last one left, so nothing
      is lost; and every batch names as `since` and `prevData` the commit immediately before it. */
  lemma CommitsFormOneChain(lib: Library, states: seq<System>, turns: seq<Turn>, n: nat, did: string, j: nat, i: nat)
    requires IsRun(lib, states, turns) && n < |states| && ImportsApart(states, turns, n)
    requires NextCommit(states[n].Changes(did), j, i)
    ensures var cs := states[n].Changes(did);
      && states[n].Db(did) == cs[|cs| - 1].After()
      && cs[i].before == cs[i - 1].After() && Leaves(cs[j])
      && Follows(EventOf(did, cs[i].outcome), cs[j].After())
  {
    RunIsLinear(lib, states, turns, n, did);
    var cs, db := states[n].Changes(did), states[n].Db(did);
    LinearAt(Legal(lib, did), cs, db, i);
    LinearLeaves(lib, did, cs, db, j);
    UploadsKeepRoot(lib, did, cs, db, j, i);
    LinearFollows(lib, did, cs, db, i);
  }

  lemma RunIsLinear(lib: Library, states: seq<System>, turns: seq<Turn>, n: nat, did: string)
    requires IsRun(lib, states, turns) && n < |states| && ImportsApart(states, turns, n)
    ensures Linear(Legal(lib, did), states[n].Changes(did), states[n].Db(did))
  {
    RunKeepsInv(lib, states, turns, n);
  }

  /** Imported revisions are TIDs, and no batch pushes the clock past 53 bits. */
  ghost predicate RevsFit(lib: Library, did: string, cs: seq<Change>) {
    forall i :: 0 <= i < |cs| && ChangeOk(lib, did, cs[i]) ==> RevFits(lib, cs[i])
  }

  ghost predicate RevFits(lib: Library, c: Change) {
    match c
    case Batch(t, job, _) => ValidJob(job) && ApplyBatch(lib, job, t).Ok? ==> ClockAfter(lib, job, t).last < Tid.TWO_53
    case Replaced(_, imported) => Tid.Canonical(LastRev(imported))
    case Uploaded(_, _, _) => true
  }

  lemma {:induction false} LinearCanonical(lib: Library, did: string, cs: seq<Change>, db: Tables)
    requires Linear(Legal(lib, did), cs, db) && RevsFit(lib, did, cs)
    ensures Tid.Canonical(LastRev(db))
  {
    if cs == [] {
      Tid.TextRoundTrip(0, 0);
    } else {
      var prior, c := cs[..|cs| - 1], cs[|cs| - 1];
      assert Legal(lib, did)(c) && RevFits(lib, c);
      LinearGrounded(lib, did, prior, c.before);
      LinearCanonical(lib, did, prior, c.before);
      if c.Batch? { BatchIssuesAscending(lib, c.job, c.before); }
    }
  }

  /** In every interleaving each batch's revision is after the revision it follows. */
  lemma RevisionsAscend(lib: Library, states: seq<System>, turns: seq<Turn>, n: nat, did: string, i: nat)
    requires IsRun(lib, states, turns) && n < |states| && ImportsApart(states, turns, n)
    requires RevsFit(lib, did, states[n].Changes(did))
    requires i < |states[n].Changes(did)| && states[n].Changes(did)[i].Batch?
    ensures var c := states[n].Changes(did)[i];
      Less(LastRev(c.before), c.outcome.commit.rev) && LastRev(c.After()) == c.outcome.commit.rev
  {
    RunIsLinear(lib, states, turns, n, did);
    var cs := states[n].Changes(did);
    LinearAt(Legal(lib, did), cs, states[n].Db(did), i);
    assert Legal(lib, did)(cs[i]) && RevFits(lib, cs[i]);
    LinearGrounded(lib, did, cs[..i], cs[i].before);
    LinearCanonical(lib, did, cs[..i], cs[i].before);
    BatchIssuesAscending(lib, cs[i].job, cs[i].before);
    assert cs[i].outcome.commit.rev in Issued(cs[i].job.ops, cs[i].outcome);
  }
}
