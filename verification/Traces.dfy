/** Runs built step by step. */
module Traces {
  import opened Common
  import opened Content
  import opened RepoOps
  import opened Manager

  /** A run, as far as it has been built. */
  datatype Trace = Trace(states: seq<System>, turns: seq<Turn>) {
    ghost predicate Valid(lib: Library) {
      IsRun(lib, states, turns)
    }

    ghost function End(): System
      requires states != []
    {
      states[|states| - 1]
    }
  }

  lemma Take(lib: Library, r: Trace, t: Thread, a: Act, s: System) returns (r': Trace)
    requires r.Valid(lib) && Step(lib, r.End(), t, a, s)
    ensures r'.Valid(lib) && r'.End() == s && r' == Trace(r.states + [s], r.turns + [Turn(t, a)])
  {
    r' := Trace(r.states + [s], r.turns + [Turn(t, a)]);
    forall i | 0 <= i < |r'.turns|
        ensures Step(lib, r'.states[i], r'.turns[i].thread, r'.turns[i].act, r'.states[i + 1]) {
      if i < |r.turns| {
        assert r'.states[i] == r.states[i] && r'.states[i + 1] == r.states[i + 1] && r'.turns[i] == r.turns[i];
      }
    }
  }

  /** A waiting call, once the lock is free, gets as far as having loaded the tree. */
  lemma SoloLoad(lib: Library, r: Trace, t: Thread, job: Job, l: Lock, from: Loaded) returns (r': Trace)
    requires r.Valid(lib) && r.End().Pc(t) == Waiting(job, l) && l !in r.End().held
    requires Load(lib, r.End().Db(job.did)) == Ok(from)
    ensures r'.Valid(lib) && r'.End() == r.End().(held := r.End().held[l := t]).Move(t, Ready(job, l, from))
  {
    var s := r.End();
    var db := s.Db(job.did);
    assert db.(root := db.root) == db;
    var entered := s.(held := s.held[l := t]).Move(t, Entered(job, l));
    r' := Take(lib, r, t, Acquire, entered);
    var rootRead := entered.Move(t, RootRead(job, l, db.root));
    r' := Take(lib, r', t, ReadRoot, rootRead);
    var ready := rootRead.Move(t, Ready(job, l, from));
    r' := Take(lib, r', t, LoadTree(from), ready);
    assert ready.threads == s.threads[t := Ready(job, l, from)];
  }

  /** A call that has loaded its tree commits and gives the lock back. */
  lemma SoloFinish(lib: Library, r: Trace, t: Thread, job: Job, l: Lock, from: Loaded, o: Outcome) returns (r': Trace)
    requires r.Valid(lib) && r.End().Pc(t) == Ready(job, l, from) && ValidJob(job)
    requires RunBatch(lib, job, from, r.End().Db(job.did)) == Ok(o)
    ensures r'.Valid(lib)
    ensures var s := r.End();
      r'.End() == s.Changed(job.did, Batch(s.Db(job.did), job, o)).Free(l).Move(t, Emitting(job, EventOf(job.did, o)))
  {
    var s := r.End();
    var event := EventOf(job.did, o);
    var committed := s.Changed(job.did, Batch(s.Db(job.did), job, o)).Move(t, Committed(job, l, event));
    r' := Take(lib, r, t, CommitTx(o), committed);
    var released := committed.Free(l).Move(t, Emitting(job, event));
    r' := Take(lib, r', t, Release, released);
    assert released.threads == s.threads[t := Emitting(job, event)];
  }

  /** The state after a waiting call has had the lock to itself and committed. */
  ghost function Solo(s: System, t: Thread, job: Job, o: Outcome): System {
    s.Changed(job.did, Batch(s.Db(job.did), job, o)).Move(t, Emitting(job, EventOf(job.did, o)))
  }

  lemma SoloCommit(lib: Library, r: Trace, t: Thread, job: Job, l: Lock, from: Loaded, o: Outcome) returns (r': Trace)
    requires r.Valid(lib) && r.End().Pc(t) == Waiting(job, l) && l !in r.End().held && ValidJob(job)
    requires Load(lib, r.End().Db(job.did)) == Ok(from) && RunBatch(lib, job, from, r.End().Db(job.did)) == Ok(o)
    ensures r'.Valid(lib) && r'.End() == Solo(r.End(), t, job, o)
  {
    r' := SoloLoad(lib, r, t, job, l, from);
    SoloStates(r.End(), t, job, l, Ready(job, l, from), o);
    r' := SoloFinish(lib, r', t, job, l, from, o);
  }

  lemma SoloStates(s: System, t: Thread, job: Job, l: Lock, pc: Pc, o: Outcome)
    requires l !in s.held
    ensures var u := s.(held := s.held[l := t]).Move(t, pc);
      && u.Db(job.did) == s.Db(job.did)
      && u.Changed(job.did, Batch(u.Db(job.did), job, o)).Free(l).Move(t, Emitting(job, EventOf(job.did, o)))
          == Solo(s, t, job, o)
  {
    assert s.held[l := t] - {l} == s.held;
    var done := Emitting(job, EventOf(job.did, o));
    assert s.threads[t := pc][t := done] == s.threads[t := done];
  }
}
