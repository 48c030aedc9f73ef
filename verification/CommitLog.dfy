/** The commit event is appended after the lock is released: when the log still follows
    commit order, and how it can fail to. */
module CommitLog {
  import opened Content
  import opened ActorStore
  import opened RepoOps
  import opened Manager

  /** The events of one actor's committed batches, in commit order. */
  ghost function EventsOf(did: string, cs: seq<Change>): seq<CommitEvent> {
    if cs == [] then [] else
      var c := cs[|cs| - 1];
      EventsOf(did, cs[..|cs| - 1]) + if c.Batch? then [EventOf(did, c.outcome)] else []
  }

  /** The part of the log that is about one actor. */
  ghost function OfRepo(log: seq<CommitEvent>, did: string): seq<CommitEvent> {
    if log == [] then [] else
      var e := log[|log| - 1];
      OfRepo(log[..|log| - 1], did) + if e.repo == did then [e] else []
  }

  /** A batch of this actor has committed and its event is not in the log yet. */
  ghost predicate Pending(pc: Pc, did: string) {
    (pc.Committed? || pc.Emitting?) && pc.job.did == did
  }

  /** No batch commits while another of the same actor still has its event to append. */
  ghost predicate NoOvertaking(s: System, t: Thread, a: Act) {
    a.CommitTx? && s.Pc(t).Ready? ==> forall u :: !Pending(s.Pc(u), s.Pc(t).job.did)
  }

  /** The log and the one pending event, if there is one, are the committed events in order. */
  ghost predicate LogOk(s: System, did: string) {
    var logged, committed := OfRepo(s.log, did), EventsOf(did, s.Changes(did));
    && (forall t, u :: Pending(s.Pc(t), did) && Pending(s.Pc(u), did) ==> t == u)
    && (forall t :: Pending(s.Pc(t), did) ==> s.Pc(t).event.repo == did && logged + [s.Pc(t).event] == committed)
    && ((forall t :: !Pending(s.Pc(t), did)) ==> logged == committed)
  }

  lemma EventsSnoc(did: string, cs: seq<Change>, c: Change)
    ensures EventsOf(did, cs + [c]) == EventsOf(did, cs) + if c.Batch? then [EventOf(did, c.outcome)] else []
  {
    assert (cs + [c])[..|cs|] == cs;
  }

  lemma OfRepoSnoc(log: seq<CommitEvent>, e: CommitEvent, did: string)
    ensures OfRepo(log + [e], did) == OfRepo(log, did) + if e.repo == did then [e] else []
  {
    assert (log + [e])[..|log|] == log;
  }

  lemma CommitKeepsLog(s: System, t: Thread, o: Outcome, s': System, did: string)
    requires LogOk(s, did) && Shape(s, t, CommitTx(o), s') && NoOvertaking(s, t, CommitTx(o))
    ensures LogOk(s', did)
  {
    var pc := s.Pc(t);
    assert forall u :: u != t ==> s'.Pc(u) == s.Pc(u);
    if pc.job.did == did {
      EventsSnoc(did, s.Changes(did), Batch(s.Db(did), pc.job, o));
      assert Pending(s'.Pc(t), did);
    } else {
      assert s'.Changes(did) == s.Changes(did) && s'.log == s.log;
      assert !Pending(s.Pc(t), did) && !Pending(s'.Pc(t), did);
      assert forall u :: Pending(s.Pc(u), did) ==> s'.Pc(u) == s.Pc(u) && Pending(s'.Pc(u), did);
    }
  }

  lemma AppendKeepsLog(s: System, t: Thread, s': System, did: string)
    requires Shape(s, t, Append, s') && LogOk(s, did) && LogOk(s, s.Pc(t).job.did)
    ensures LogOk(s', did)
  {
    var pc := s.Pc(t);
    assert forall u :: u != t ==> s'.Pc(u) == s.Pc(u);
    assert Pending(pc, pc.job.did);
    OfRepoSnoc(s.log, pc.event, did);
  }

  lemma ImportKeepsLog(s: System, t: Thread, d: string, imported: Tables, s': System, did: string)
    requires LogOk(s, did) && Shape(s, t, ImportInto(d, imported), s')
    ensures LogOk(s', did)
  {
    assert forall u :: s'.Pc(u) == s.Pc(u);
    if d == did {
      EventsSnoc(did, s.Changes(did), Replaced(s.Db(did), imported));
    }
  }

  lemma UploadKeepsLog(s: System, t: Thread, a: Act, s': System, did: string)
    requires LogOk(s, did) && Shape(s, t, a, s') && a.UploadBlob?
    ensures LogOk(s', did)
  {
    assert forall u :: s'.Pc(u) == s.Pc(u);
    if a.did == did {
      EventsSnoc(did, s.Changes(did), Uploaded(s.Db(did), a.data, a.mime));
    }
  }

  /** The other steps move one thread without touching log, history or what is pending. */
  lemma QuietStep(s: System, t: Thread, a: Act, s': System, did: string)
    requires Shape(s, t, a, s')
    requires !a.CommitTx? && !a.Append? && !a.LoseEvent? && Moves(a)
    ensures s'.log == s.log && s'.Changes(did) == s.Changes(did)
    ensures forall u :: Pending(s'.Pc(u), did) <==> Pending(s.Pc(u), did)
    ensures forall u :: Pending(s.Pc(u), did) ==> s'.Pc(u).event == s.Pc(u).event
  {
    assert forall u :: u != t ==> s'.Pc(u) == s.Pc(u);
  }

  lemma StepKeepsLog(s: System, t: Thread, a: Act, s': System, did: string)
    requires LogOk(s, did) && (s.Pc(t).Emitting? ==> LogOk(s, s.Pc(t).job.did))
    requires Shape(s, t, a, s') && NoOvertaking(s, t, a) && !a.LoseEvent?
    ensures LogOk(s', did)
  {
    match a {
      case CommitTx(o) => CommitKeepsLog(s, t, o, s', did);
      case ImportInto(d, imported) => ImportKeepsLog(s, t, d, imported, s', did);
      case UploadBlob(_, _, _) => UploadKeepsLog(s, t, a, s', did);
      case Append => AppendKeepsLog(s, t, s', did);
      case _ => QuietStep(s, t, a, s', did);
    }
  }

  /** As long as no batch commits before the previous one's event is appended, and no append
      fails, the log lists each actor's commits in commit order. */
  lemma {:induction false} LogFollowsCommits(lib: Library, states: seq<System>, turns: seq<Turn>, n: nat, did: string)
    requires IsRun(lib, states, turns) && n < |states|
    requires forall i :: 0 <= i < n ==>
        NoOvertaking(states[i], turns[i].thread, turns[i].act) && !turns[i].act.LoseEvent?
    ensures LogOk(states[n], did)
  {
    if n > 0 {
      var s, m := states[n - 1], turns[n - 1];
      LogFollowsCommits(lib, states, turns, n - 1, did);
      if s.Pc(m.thread).Emitting? {
        LogFollowsCommits(lib, states, turns, n - 1, s.Pc(m.thread).job.did);
      }
      StepKeepsLog(s, m.thread, m.act, states[n], did);
    }
  }
}
