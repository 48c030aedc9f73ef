/** Whole histories of one actor database: write batches that commit or roll back, imports
    and blob uploads, one after another. */
module RepoHistory {
  import opened Common
  import opened Order
  import opened Content
  import opened ActorStore
  import opened RepoOps
  import opened RepoInvariant
  import opened RepoIndex
  import opened RepoEvents
  import opened Migration
  import Tid

  datatype Step =
    | Write(job: Job)
    | ImportCar(verified: Commit -> bool, car: Car)
    | UploadBlob(data: string, mime: string)

  /** Jobs are for this actor. */
  ghost predicate ValidStep(did: string, s: Step) {
    s.Write? ==> ValidJob(s.job) && s.job.did == did
  }

  ghost predicate ValidSteps(did: string, steps: seq<Step>) {
    forall i :: 0 <= i < |steps| ==> ValidStep(did, steps[i])
  }

  ghost predicate NoImport(steps: seq<Step>) {
    forall i :: 0 <= i < |steps| ==> !steps[i].ImportCar?
  }

  /** The tables after one step; a step that fails changes nothing. */
  ghost function After(lib: Library, did: string, t: Tables, s: Step): Tables
    requires ValidStep(did, s)
  {
    match s
    case Write(job) => (match ApplyBatch(lib, job, t) case Ok(o) => o.db case Err(_) => t)
    case ImportCar(verified, car) => (match Import(lib, did, verified, car) case Ok(u) => u case Err(_) => t)
    case UploadBlob(data, mime) => Upload(t, data, mime)
  }

  ghost function Run(lib: Library, did: string, t: Tables, steps: seq<Step>): Tables
    requires ValidSteps(did, steps)
  {
    if steps == [] then t else
      After(lib, did, Run(lib, did, t, steps[..|steps| - 1]), steps[|steps| - 1])
  }

  /** In every state that any history reaches, whatever the collections are called, references,
      blob rows, records and tree nodes agree with the index and the tree under the current commit. */
  lemma {:induction false} HistoryGrounded(lib: Library, did: string, steps: seq<Step>)
    requires ValidSteps(did, steps)
    ensures Grounded(lib, did, Run(lib, did, EMPTY, steps))
  {
    RunKeepsGrounded(lib, did, EMPTY, steps);
  }

  lemma {:induction false} RunKeepsGrounded(lib: Library, did: string, t: Tables, steps: seq<Step>)
    requires ValidSteps(did, steps) && Grounded(lib, did, t)
    ensures Grounded(lib, did, Run(lib, did, t, steps))
  {
    if steps != [] {
      var prior, s := steps[..|steps| - 1], steps[|steps| - 1];
      RunKeepsGrounded(lib, did, t, prior);
      var u := Run(lib, did, t, prior);
      match s {
        case Write(job) =>
          if ApplyBatch(lib, job, u).Ok? { BatchGrounded(lib, job, u); }
        case ImportCar(verified, car) =>
          if Import(lib, did, verified, car).Ok? { ImportConsistent(lib, did, verified, car); }
        case UploadBlob(data, mime) =>
          UploadKeepsGrounded(lib, did, u, data, mime);
      }
    }
  }

  /** Each batch that commits is settled: whatever slashed rows it writes, it leaves no trace of
      one. Batches without slashed collections are. */
  ghost predicate AllSettled(lib: Library, did: string, t: Tables, steps: seq<Step>)
    requires ValidSteps(did, steps)
  {
    steps == [] ||
    var prior, s := steps[..|steps| - 1], steps[|steps| - 1];
    var u := Run(lib, did, t, prior);
    && AllSettled(lib, did, t, prior)
    && (s.Write? && ApplyBatch(lib, s.job, u).Ok? ==> Settled(u.records, ApplyBatch(lib, s.job, u).value.results))
  }

  ghost predicate AllSlashFree(steps: seq<Step>) {
    forall i :: 0 <= i < |steps| && steps[i].Write? ==> JobSlashFree(steps[i].job)
  }

  ghost predicate JobSlashFree(job: Job) {
    forall i :: 0 <= i < |job.ops| ==> SlashFree(job.ops[i])
  }

  lemma {:induction false} SlashFreeSettled(lib: Library, did: string, t: Tables, steps: seq<Step>)
    requires ValidSteps(did, steps) && AllSlashFree(steps)
    ensures AllSettled(lib, did, t, steps)
  {
    if steps != [] {
      var prior, s := steps[..|steps| - 1], steps[|steps| - 1];
      SlashFreeSettled(lib, did, t, prior);
      var u := Run(lib, did, t, prior);
      if s.Write? && ApplyBatch(lib, s.job, u).Ok? {
        assert JobSlashFree(steps[|steps| - 1].job);
        SlashFreeSettles(lib, s.job, u);
      }
    }
  }

  lemma {:induction false} RunKeepsConsistent(lib: Library, did: string, t: Tables, steps: seq<Step>)
    requires ValidSteps(did, steps) && Consistent(lib, did, t) && AllSettled(lib, did, t, steps)
    ensures Consistent(lib, did, Run(lib, did, t, steps))
  {
    if steps != [] {
      var prior, s := steps[..|steps| - 1], steps[|steps| - 1];
      RunKeepsConsistent(lib, did, t, prior);
      var u := Run(lib, did, t, prior);
      match s {
        case Write(job) =>
          if ApplyBatch(lib, job, u).Ok? { BatchConsistentIff(lib, job, u); }
        case ImportCar(verified, car) =>
          if Import(lib, did, verified, car).Ok? { ImportConsistent(lib, did, verified, car); }
        case UploadBlob(data, mime) =>
          UploadKeepsConsistent(lib, did, u, data, mime);
      }
    }
  }

  ghost predicate ConsistentThroughout(lib: Library, did: string, t: Tables, steps: seq<Step>)
    requires ValidSteps(did, steps)
  {
    && Consistent(lib, did, Run(lib, did, t, steps))
    && (steps != [] ==> ConsistentThroughout(lib, did, t, steps[..|steps| - 1]))
  }

  /** A history is in good order all the way, index included, if and only if each of its batches
      is settled. */
  lemma {:induction false} HistoryConsistentIff(lib: Library, did: string, steps: seq<Step>)
    requires ValidSteps(did, steps)
    ensures ConsistentThroughout(lib, did, EMPTY, steps) <==> AllSettled(lib, did, EMPTY, steps)
  {
    if steps != [] {
      var prior, s := steps[..|steps| - 1], steps[|steps| - 1];
      HistoryConsistentIff(lib, did, prior);
      var u := Run(lib, did, EMPTY, prior);
      if AllSettled(lib, did, EMPTY, steps) {
        RunKeepsConsistent(lib, did, EMPTY, steps);
      }
      if ConsistentThroughout(lib, did, EMPTY, steps) && s.Write? && ApplyBatch(lib, s.job, u).Ok? {
        BatchConsistentIff(lib, s.job, u);
      }
    }
  }

  /** Without slashed collections every state any history reaches is in good order. */
  lemma HistoryConsistent(lib: Library, did: string, steps: seq<Step>)
    requires ValidSteps(did, steps) && AllSlashFree(steps)
    ensures Consistent(lib, did, Run(lib, did, EMPTY, steps))
  {
    SlashFreeSettled(lib, did, EMPTY, steps);
    RunKeepsConsistent(lib, did, EMPTY, steps);
  }

  // ----- the event stream of a history -----

  ghost function Events(lib: Library, did: string, t: Tables, steps: seq<Step>): seq<CommitEvent>
    requires ValidSteps(did, steps)
  {
    if steps == [] then [] else
      var prior, s := steps[..|steps| - 1], steps[|steps| - 1];
      var u := Run(lib, did, t, prior);
      Events(lib, did, t, prior) +
      if s.Write? && ApplyBatch(lib, s.job, u).Ok? then [EventOf(did, ApplyBatch(lib, s.job, u).value)] else []
  }

  /** A replica that keeps every block of every event. */
  ghost function Replica(events: seq<CommitEvent>): map<Cid, Block> {
    if events == [] then map[] else
      Merged(Replica(events[..|events| - 1]), events[|events| - 1].blocks)
  }

  /** A replica that starts empty holds exactly the server's block table after every event, and
      the last event names the server's commit. */
  lemma {:induction false} ReplicaHoldsBlocks(lib: Library, did: string, steps: seq<Step>)
    requires ValidSteps(did, steps) && NoImport(steps)
    ensures var t, events := Run(lib, did, EMPTY, steps), Events(lib, did, EMPTY, steps);
      && Replica(events) == t.blocks
      && (t.root.Some? <==> events != [])
      && (events != [] ==> t.root.value.commit == events[|events| - 1].commit)
  {
    if steps != [] {
      var prior, s := steps[..|steps| - 1], steps[|steps| - 1];
      ReplicaHoldsBlocks(lib, did, prior);
      var u, before := Run(lib, did, EMPTY, prior), Events(lib, did, EMPTY, prior);
      if s.Write? && ApplyBatch(lib, s.job, u).Ok? {
        BatchAddsItsBlocks(lib, s.job, u);
        var e := EventOf(did, ApplyBatch(lib, s.job, u).value);
        assert (before + [e])[..|before|] == before;
      } else {
        assert before + [] == before;
      }
    }
  }

  /** So after each event the replica can resolve all that the event's commit reaches. */
  lemma ReplicaResolves(lib: Library, did: string, steps: seq<Step>)
    requires ValidSteps(did, steps) && NoImport(steps)
    requires Events(lib, did, EMPTY, steps) != []
    ensures var events := Events(lib, did, EMPTY, steps);
      var c := events[|events| - 1].commit;
      IsCommit(c) && Reachable(lib, c) <= Replica(events).Keys
  {
    ReplicaHoldsBlocks(lib, did, steps);
    HistoryGrounded(lib, did, steps);
    GroundedStoresReachable(lib, did, Run(lib, did, EMPTY, steps));
  }

  // ----- revisions and generated keys -----

  /** No batch pushes the clock past 53 bits. */
  ghost predicate ClockFits(lib: Library, did: string, t: Tables, steps: seq<Step>)
    requires ValidSteps(did, steps)
  {
    steps == [] ||
    var prior, s := steps[..|steps| - 1], steps[|steps| - 1];
    var u := Run(lib, did, t, prior);
    && ClockFits(lib, did, t, prior)
    && (s.Write? && ApplyBatch(lib, s.job, u).Ok? ==> ClockAfter(lib, s.job, u).last < Tid.TWO_53)
  }

  /** Every generated key and every revision of the committed batches, in order. */
  ghost function IssuedBy(lib: Library, did: string, t: Tables, steps: seq<Step>): seq<string>
    requires ValidSteps(did, steps)
  {
    if steps == [] then [] else
      var prior, s := steps[..|steps| - 1], steps[|steps| - 1];
      var u := Run(lib, did, t, prior);
      IssuedBy(lib, did, t, prior) +
      if s.Write? && ApplyBatch(lib, s.job, u).Ok?
      then Issued(s.job.ops, ApplyBatch(lib, s.job, u).value) else []
  }

  lemma BetweenAppend(floor: string, xs: seq<string>, mid: string, ys: seq<string>, top: string)
    requires Between(floor, xs, mid) && Between(mid, ys, top)
    requires mid == floor || Less(floor, mid)
    requires top == mid || Less(mid, top)
    ensures Between(floor, xs + ys, top)
  {
    var zs := xs + ys;
    forall i, j | 0 <= i < j < |zs| ensures Less(zs[i], zs[j]) {
      if i < |xs| <= j {
        assert zs[i] in xs && zs[j] in ys;
        LessTransitiveIf(zs[i], mid, zs[j]);
      }
    }
    forall s | s in zs ensures Less(floor, s) && (s == top || Less(s, top)) {
      if s in ys { LessTransitiveIf(floor, mid, s); }
      if s in xs && top != mid { LessTransitiveIf(s, mid, top); }
    }
  }

  /** Between imports, generated keys and revisions together form one strictly ascending
      sequence over the whole history, however the wall clock moves. */
  lemma {:induction false} IssuedAscends(lib: Library, did: string, t: Tables, steps: seq<Step>)
    requires ValidSteps(did, steps) && NoImport(steps)
    requires Grounded(lib, did, t) && Tid.Canonical(LastRev(t))
    requires ClockFits(lib, did, t, steps)
    ensures var u := Run(lib, did, t, steps);
      && Between(LastRev(t), IssuedBy(lib, did, t, steps), LastRev(u))
      && (LastRev(u) == LastRev(t) || Less(LastRev(t), LastRev(u)))
      && Tid.Canonical(LastRev(u))
  {
    if steps != [] {
      var prior, s := steps[..|steps| - 1], steps[|steps| - 1];
      IssuedAscends(lib, did, t, prior);
      RunKeepsGrounded(lib, did, t, prior);
      var u := Run(lib, did, t, prior);
      var soFar := IssuedBy(lib, did, t, prior);
      if s.Write? && ApplyBatch(lib, s.job, u).Ok? {
        BatchIssuesAscending(lib, s.job, u);
        var o := ApplyBatch(lib, s.job, u).value;
        assert o.commit.rev in Issued(s.job.ops, o);
        BetweenAppend(LastRev(t), soFar, LastRev(u), Issued(s.job.ops, o), o.commit.rev);
        LessTransitiveIf(LastRev(t), LastRev(u), o.commit.rev);
      } else {
        assert soFar + [] == soFar;
      }
    }
  }

  /** From the first commit on, no generated key and no revision ever repeats. */
  lemma KeysNeverRepeat(lib: Library, did: string, steps: seq<Step>)
    requires ValidSteps(did, steps) && NoImport(steps)
    requires ClockFits(lib, did, EMPTY, steps)
    ensures Ascending(IssuedBy(lib, did, EMPTY, steps))
    ensures var issued := IssuedBy(lib, did, EMPTY, steps);
      forall i, j :: 0 <= i < j < |issued| ==> issued[i] != issued[j]
  {
    Tid.TextRoundTrip(0, 0);
    IssuedAscends(lib, did, EMPTY, steps);
    var issued := IssuedBy(lib, did, EMPTY, steps);
    forall i, j | 0 <= i < j < |issued| ensures issued[i] != issued[j] {
      LessTotal(issued[i], issued[j]);
    }
  }

  /** The chain of commits: each batch names the revision and tree of the commit before it. */
  lemma CommitsChain(lib: Library, job: Job, t: Tables)
    requires ValidJob(job) && Grounded(lib, job.did, t) && t.root.Some?
    requires ApplyBatch(lib, job, t).Ok?
    ensures var e := EventOf(job.did, ApplyBatch(lib, job, t).value);
      var before := t.root.value.commit.content.commit;
      e.since == Some(before.rev) && e.prevData == Some(before.data)
  {
    GroundedLoads(lib, job.did, t);
  }
}
