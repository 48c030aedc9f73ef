/** Exactly when the event log can stop following commit order. */
module Overtaking {
  import opened Common
  import opened Content
  import opened ActorStore
  import opened RepoOps
  import opened RepoInvariant
  import opened Manager
  import opened Traces
  import opened CommitLog

  // ----- which change each event is of -----

  /** The change that thread t last committed, by its place in its actor's history. */
  ghost function CommittedAt(states: seq<System>, turns: seq<Turn>, n: nat, t: Thread): nat
    requires n <= |turns| <= |states|
  {
    if n == 0 then 0 else
      var s, m := states[n - 1], turns[n - 1];
      if m.thread == t && m.act.CommitTx? && s.Pc(t).Ready? then |s.Changes(s.Pc(t).job.did)|
      else CommittedAt(states, turns, n - 1, t)
  }

  /** The changes of one actor whose events are in the log, in log order. */
  ghost function Logged(states: seq<System>, turns: seq<Turn>, n: nat, did: string): seq<nat>
    requires n <= |turns| <= |states|
  {
    if n == 0 then [] else
      var s, m := states[n - 1], turns[n - 1];
      Logged(states, turns, n - 1, did) +
      if m.act.Append? && Pending(s.Pc(m.thread), did) then [CommittedAt(states, turns, n - 1, m.thread)] else []
  }

  /** The batches of a history, by their places in it. */
  ghost function Batches(cs: seq<Change>): seq<nat> {
    if cs == [] then [] else Batches(cs[..|cs| - 1]) + if cs[|cs| - 1].Batch? then [|cs| - 1] else []
  }

  lemma {:induction false} BatchesAre(cs: seq<Change>)
    ensures forall i :: i in Batches(cs) <==> 0 <= i < |cs| && cs[i].Batch?
    ensures forall a, b :: 0 <= a < b < |Batches(cs)| ==> Batches(cs)[a] < Batches(cs)[b]
  {
    if cs != [] {
      var prior := Batches(cs[..|cs| - 1]);
      BatchesAre(cs[..|cs| - 1]);
      assert forall a :: 0 <= a < |prior| ==> prior[a] in prior;
    }
  }

  /** The log has the actor's first commits, in commit order. */
  ghost predicate InOrder(cs: seq<Change>, logged: seq<nat>) {
    logged <= Batches(cs)
  }

  /** A thread's pending event is that of the change it committed, which is not logged. */
  ghost predicate Owes(s: System, logged: seq<nat>, at: Thread -> nat, t: Thread, did: string) {
    var cs := s.Changes(did);
    Pending(s.Pc(t), did) ==>
      at(t) < |cs| && cs[at(t)].Batch? && at(t) !in logged && s.Pc(t).event == EventOf(did, cs[at(t)].outcome)
  }

  /** Every batch's event is logged once or pending in one thread. */
  ghost predicate Accounted(s: System, logged: seq<nat>, at: Thread -> nat, did: string) {
    var cs := s.Changes(did);
    && (forall t :: Owes(s, logged, at, t, did))
    && (forall t, u :: t != u && Pending(s.Pc(t), did) && Pending(s.Pc(u), did) ==> at(t) != at(u))
    && (forall i :: 0 <= i < |cs| && cs[i].Batch? ==> i in logged || exists t :: Pending(s.Pc(t), did) && at(t) == i)
  }

  /** The actor's part of the log, event by event. */
  ghost predicate LogLists(s: System, logged: seq<nat>, did: string) {
    var cs, log := s.Changes(did), OfRepo(s.log, did);
    && |log| == |logged|
    && (forall b :: 0 <= b < |logged| ==>
          logged[b] < |cs| && cs[logged[b]].Batch? && log[b] == EventOf(did, cs[logged[b]].outcome))
    && (forall a, b :: 0 <= a < b < |logged| ==> logged[a] != logged[b])
  }

  /** An event in hand is about its own actor. */
  ghost predicate OwnEvent(pc: Pc) {
    pc.Committed? || pc.Emitting? ==> pc.event.repo == pc.job.did
  }

  ghost function AtStep(states: seq<System>, turns: seq<Turn>, n: nat): Thread -> nat
    requires n <= |turns| <= |states|
  {
    (t: Thread) => CommittedAt(states, turns, n, t)
  }

  lemma {:induction false} EventsAreBatches(did: string, cs: seq<Change>)
    ensures |EventsOf(did, cs)| == |Batches(cs)|
    ensures forall b :: 0 <= b < |Batches(cs)| ==>
      && Batches(cs)[b] < |cs| && cs[Batches(cs)[b]].Batch?
      && EventsOf(did, cs)[b] == EventOf(did, cs[Batches(cs)[b]].outcome)
  {
    if cs != [] {
      EventsAreBatches(did, cs[..|cs| - 1]);
    }
  }

  /** In order, the actor's part of the log is a prefix of its events in commit order. */
  lemma InOrderMeans(s: System, logged: seq<nat>, did: string)
    requires LogLists(s, logged, did) && InOrder(s.Changes(did), logged)
    ensures OfRepo(s.log, did) <= EventsOf(did, s.Changes(did))
  {
    EventsAreBatches(did, s.Changes(did));
  }

  // ----- every step keeps the account -----

  /** All that a state says about one actor's log. */
  ghost predicate Kept(s: System, logged: seq<nat>, at: Thread -> nat, did: string) {
    Accounted(s, logged, at, did) && LogLists(s, logged, did)
  }

  /** A step that leaves log, batches and what is pending of this actor. */
  lemma QuietKeeps(s: System, s': System, logged: seq<nat>, at: Thread -> nat, at': Thread -> nat, did: string)
    requires Kept(s, logged, at, did)
    requires OfRepo(s'.log, did) == OfRepo(s.log, did)
    requires s'.Changes(did) == s.Changes(did) ||
      exists c: Change :: !c.Batch? && s'.Changes(did) == s.Changes(did) + [c]
    requires forall t :: Pending(s'.Pc(t), did) <==> Pending(s.Pc(t), did)
    requires forall t :: Pending(s.Pc(t), did) && Pending(s'.Pc(t), did) ==>
      s'.Pc(t).event == s.Pc(t).event && at'(t) == at(t)
    ensures Kept(s', logged, at', did)
  {
    var cs, cs' := s.Changes(did), s'.Changes(did);
    assert forall i :: 0 <= i < |cs| ==> cs'[i] == cs[i];
    forall t ensures Owes(s', logged, at', t, did) {
      assert Owes(s, logged, at, t, did);
    }
    forall i | 0 <= i < |cs'| && cs'[i].Batch?
        ensures i in logged || exists t :: Pending(s'.Pc(t), did) && at'(t) == i {
      if i !in logged {
        var t :| Pending(s.Pc(t), did) && at(t) == i;
        assert Pending(s'.Pc(t), did) && at'(t) == i;
      }
    }
  }

  lemma CommitKeeps(s: System, t: Thread, o: Outcome, s': System, logged: seq<nat>, at: Thread -> nat,
      at': Thread -> nat)
    requires Shape(s, t, CommitTx(o), s') && Kept(s, logged, at, s.Pc(t).job.did)
    requires at'(t) == |s.Changes(s.Pc(t).job.did)| && forall u :: u != t ==> at'(u) == at(u)
    ensures Kept(s', logged, at', s.Pc(t).job.did)
  {
    var did := s.Pc(t).job.did;
    var cs, cs' := s.Changes(did), s'.Changes(did);
    assert cs' == cs + [Batch(s.Db(did), s.Pc(t).job, o)];
    assert forall u :: u != t ==> s'.Pc(u) == s.Pc(u);
    assert Pending(s'.Pc(t), did) && !Pending(s.Pc(t), did);
    forall u ensures Owes(s', logged, at', u, did) && (u != t && Pending(s'.Pc(u), did) ==> at'(u) < |cs|) {
      assert Owes(s, logged, at, u, did);
    }
    forall i | 0 <= i < |cs'| && cs'[i].Batch?
        ensures i in logged || exists u :: Pending(s'.Pc(u), did) && at'(u) == i {
      if i == |cs| {
        assert at'(t) == i;
      } else if i !in logged {
        var u :| Pending(s.Pc(u), did) && at(u) == i;
        assert Pending(s'.Pc(u), did) && at'(u) == i;
      }
    }
  }

  lemma AppendKeeps(s: System, t: Thread, s': System, logged: seq<nat>, at: Thread -> nat, did: string)
    requires Shape(s, t, Append, s') && Pending(s.Pc(t), did) && Kept(s, logged, at, did)
    ensures Kept(s', logged + [at(t)], at, did)
  {
    var cs, e := s.Changes(did), s.Pc(t).event;
    var logged' := logged + [at(t)];
    assert s'.Changes(did) == cs && s'.log == s.log + [e];
    assert forall u :: u != t ==> s'.Pc(u) == s.Pc(u);
    assert Owes(s, logged, at, t, did);
    OfRepoSnoc(s.log, e, did);
    forall u ensures Owes(s', logged', at, u, did) {
      assert Owes(s, logged, at, u, did);
    }
    forall i | 0 <= i < |cs| && cs[i].Batch? ensures i in logged' || exists u :: Pending(s'.Pc(u), did) && at(u) == i {
      if i !in logged' {
        var u :| Pending(s.Pc(u), did) && at(u) == i;
        assert Pending(s'.Pc(u), did) && at(u) == i;
      }
    }
  }

  lemma StepKeepsOwn(s: System, t: Thread, a: Act, s': System, u: Thread)
    requires Shape(s, t, a, s') && OwnEvent(s.Pc(t)) && OwnEvent(s.Pc(u))
    ensures OwnEvent(s'.Pc(u))
  {
    if u != t {
      assert s'.Pc(u) == s.Pc(u);
    }
  }

  /** The other acts, and acts for other actors. */
  lemma OtherStepKeeps(s: System, t: Thread, a: Act, s': System, logged: seq<nat>, at: Thread -> nat,
      at': Thread -> nat, did: string)
    requires Shape(s, t, a, s') && Kept(s, logged, at, did) && OwnEvent(s.Pc(t)) && !a.LoseEvent?
    requires a.CommitTx? ==> s.Pc(t).job.did != did
    requires a.Append? ==> !Pending(s.Pc(t), did)
    requires forall u :: u != t || !a.CommitTx? ==> at'(u) == at(u)
    ensures Kept(s', logged, at', did)
  {
    if a.CommitTx? || a.Append? {
      assert forall u :: u != t ==> s'.Pc(u) == s.Pc(u);
      assert !Pending(s.Pc(t), did) && !Pending(s'.Pc(t), did);
      if a.Append? {
        OfRepoSnoc(s.log, s.Pc(t).event, did);
      }
      assert s'.Changes(did) == s.Changes(did);
    } else if Moves(a) {
      QuietStep(s, t, a, s', did);
    } else {
      assert forall u :: s'.Pc(u) == s.Pc(u);
      if a.did == did {
        var c := if a.ImportInto? then Replaced(s.Db(did), a.imported) else Uploaded(s.Db(did), a.data, a.mime);
        assert !c.Batch? && s'.Changes(did) == s.Changes(did) + [c];
      }
    }
    QuietKeeps(s, s', logged, at, at', did);
  }

  ghost predicate Lossless(turns: seq<Turn>) {
    forall i :: 0 <= i < |turns| ==> !turns[i].act.LoseEvent?
  }

  lemma {:induction false} RunOwnsEvents(lib: Library, states: seq<System>, turns: seq<Turn>, n: nat, t: Thread)
    requires IsRun(lib, states, turns) && n < |states|
    ensures OwnEvent(states[n].Pc(t))
  {
    if n > 0 {
      RunOwnsEvents(lib, states, turns, n - 1, t);
      RunOwnsEvents(lib, states, turns, n - 1, turns[n - 1].thread);
      StepKeepsOwn(states[n - 1], turns[n - 1].thread, turns[n - 1].act, states[n], t);
    }
  }

  lemma RunShape(lib: Library, states: seq<System>, turns: seq<Turn>, n: nat)
    requires IsRun(lib, states, turns) && 0 < n < |states|
    ensures Shape(states[n - 1], turns[n - 1].thread, turns[n - 1].act, states[n])
  {
    assert Step(lib, states[n - 1], turns[n - 1].thread, turns[n - 1].act, states[n - 1 + 1]);
  }

  lemma RunLengths(lib: Library, states: seq<System>, turns: seq<Turn>)
    requires IsRun(lib, states, turns)
    ensures |states| == |turns| + 1 && states[0] == INITIAL
  {
  }

  lemma AtStepStep(states: seq<System>, turns: seq<Turn>, n: nat)
    requires 0 < n <= |turns| <= |states|
    ensures var s, t, a := states[n - 1], turns[n - 1].thread, turns[n - 1].act;
      forall u :: AtStep(states, turns, n)(u) ==
        if u == t && a.CommitTx? && s.Pc(t).Ready? then |s.Changes(s.Pc(t).job.did)|
        else AtStep(states, turns, n - 1)(u)
  {
  }

  lemma LoggedStep(states: seq<System>, turns: seq<Turn>, n: nat, did: string)
    requires 0 < n <= |turns| <= |states|
    ensures var s, t, a := states[n - 1], turns[n - 1].thread, turns[n - 1].act;
      Logged(states, turns, n, did) == Logged(states, turns, n - 1, did) +
        if a.Append? && Pending(s.Pc(t), did) then [AtStep(states, turns, n - 1)(t)] else []
  {
  }

  /** In every run that loses no event, each commit's event is in the log once or pending. */
  lemma {:induction false} RunKeepsAccount(lib: Library, states: seq<System>, turns: seq<Turn>, n: nat, did: string)
    requires IsRun(lib, states, turns) && n < |states| && Lossless(turns)
    ensures n <= |turns| <= |states|
    ensures Kept(states[n], Logged(states, turns, n, did), AtStep(states, turns, n), did)
  {
    hide IsRun, Kept, Shape, OwnEvent, Logged, AtStep;
    RunLengths(lib, states, turns);
    if n > 0 {
      RunKeepsAccount(lib, states, turns, n - 1, did);
      RunOwnsEvents(lib, states, turns, n - 1, turns[n - 1].thread);
      RunShape(lib, states, turns, n);
      AtStepStep(states, turns, n);
      LoggedStep(states, turns, n, did);
      AccountStep(states[n - 1], turns[n - 1].thread, turns[n - 1].act, states[n],
        Logged(states, turns, n - 1, did), AtStep(states, turns, n - 1), AtStep(states, turns, n),
        Logged(states, turns, n, did), did);
    } else {
      NoneLogged(states, turns, did);
      StartKept(states[0], AtStep(states, turns, 0), did);
    }
  }

  lemma NoneLogged(states: seq<System>, turns: seq<Turn>, did: string)
    requires |turns| <= |states|
    ensures Logged(states, turns, 0, did) == []
  {
  }

  lemma StartKept(s: System, at: Thread -> nat, did: string)
    requires s == INITIAL
    ensures Kept(s, [], at, did)
  {
  }

  lemma AccountStep(s: System, t: Thread, a: Act, s': System, logged: seq<nat>, at: Thread -> nat, at': Thread -> nat,
    logged': seq<nat>, did: string)
    requires Shape(s, t, a, s') && Kept(s, logged, at, did) && OwnEvent(s.Pc(t)) && !a.LoseEvent?
    requires forall u ::
        at'(u) == if u == t && a.CommitTx? && s.Pc(t).Ready? then |s.Changes(s.Pc(t).job.did)| else at(u)
    requires logged' == logged + if a.Append? && Pending(s.Pc(t), did) then [at(t)] else []
    ensures Kept(s', logged', at', did)
  {
    hide Kept;
    if a.CommitTx? && s.Pc(t).job.did == did {
      assert logged' == logged;
      CommitKeeps(s, t, a.outcome, s', logged, at, at');
    } else if a.Append? && Pending(s.Pc(t), did) {
      AppendKeeps(s, t, s', logged, at, did);
      SameAccount(s', logged', at, at', did);
    } else {
      assert logged' == logged;
      OtherStepKeeps(s, t, a, s', logged, at, at', did);
    }
  }

  lemma SameAccount(s: System, logged: seq<nat>, at: Thread -> nat, at': Thread -> nat, did: string)
    requires Kept(s, logged, at, did) && forall u :: at'(u) == at(u)
    ensures Kept(s, logged, at', did)
  {
    QuietKeeps(s, s, logged, at, at', did);
  }

  // ----- going on from a trace -----

  ghost predicate Extends(r: Trace, r': Trace) {
    r.states <= r'.states && r.turns <= r'.turns
  }

  ghost predicate WellFormed(r: Trace) {
    |r.states| == |r.turns| + 1
  }

  ghost function LoggedBy(r: Trace, did: string): seq<nat>
    requires WellFormed(r)
  {
    Logged(r.states, r.turns, |r.turns|, did)
  }

  ghost function LastCommit(r: Trace, t: Thread): nat
    requires WellFormed(r)
  {
    CommittedAt(r.states, r.turns, |r.turns|, t)
  }

  lemma {:induction false} PrefixLogged(states: seq<System>, turns: seq<Turn>, states': seq<System>,
      turns': seq<Turn>, n: nat, did: string)
    requires n <= |turns| <= |states| && states <= states' && turns <= turns' && |turns'| <= |states'|
    ensures Logged(states', turns', n, did) == Logged(states, turns, n, did)
    ensures forall t :: CommittedAt(states', turns', n, t) == CommittedAt(states, turns, n, t)
  {
    if n > 0 {
      PrefixLogged(states, turns, states', turns', n - 1, did);
    }
  }

  lemma TakeLogged(r: Trace, r': Trace, t: Thread, a: Act, s: System, did: string)
    requires WellFormed(r) && r' == Trace(r.states + [s], r.turns + [Turn(t, a)]) && !a.CommitTx?
    ensures WellFormed(r') && Extends(r, r')
    ensures LoggedBy(r', did) == LoggedBy(r, did)
        + if a.Append? && Pending(r.End().Pc(t), did) then [LastCommit(r, t)] else []
    ensures forall u :: LastCommit(r', u) == LastCommit(r, u)
  {
    PrefixLogged(r.states, r.turns, r'.states, r'.turns, |r.turns|, did);
  }

  /** A thread that still has the lock gives it back. */
  lemma ReleaseNow(lib: Library, r: Trace, t: Thread, did: string) returns (r': Trace)
    requires r.Valid(lib) && WellFormed(r) && Pending(r.End().Pc(t), did)
    ensures r'.Valid(lib) && WellFormed(r') && Extends(r, r') && (Lossless(r.turns) ==> Lossless(r'.turns))
    ensures r'.End().log == r.End().log && r'.End().history == r.End().history
    ensures r'.End().Pc(t) == Emitting(r.End().Pc(t).job, r.End().Pc(t).event)
    ensures forall u :: u != t ==> r'.End().Pc(u) == r.End().Pc(u)
    ensures LoggedBy(r', did) == LoggedBy(r, did) && forall u :: LastCommit(r', u) == LastCommit(r, u)
  {
    var s, pc := r.End(), r.End().Pc(t);
    r' := r;
    if pc.Committed? {
      var released := s.Free(pc.lock).Move(t, Emitting(pc.job, pc.event));
      r' := Take(lib, r, t, Release, released);
      TakeLogged(r, r', t, Release, released, did);
    }
  }

  /** A thread with a pending event appends it now. */
  lemma AppendNow(lib: Library, r: Trace, t: Thread, did: string) returns (r': Trace)
    requires r.Valid(lib) && WellFormed(r) && Pending(r.End().Pc(t), did)
    ensures r'.Valid(lib) && WellFormed(r') && Extends(r, r') && (Lossless(r.turns) ==> Lossless(r'.turns))
    ensures r'.End().log == r.End().log + [r.End().Pc(t).event] && r'.End().history == r.End().history
    ensures forall u :: u != t ==> r'.End().Pc(u) == r.End().Pc(u)
    ensures LoggedBy(r', did) == LoggedBy(r, did) + [LastCommit(r, t)]
    ensures forall u :: LastCommit(r', u) == LastCommit(r, u)
  {
    hide IsRun;
    var released := ReleaseNow(lib, r, t, did);
    var s, pc := released.End(), released.End().Pc(t);
    var done := s.(log := s.log + [pc.event]).Move(t, Idle);
    r' := Take(lib, released, t, Append, done);
    TakeLogged(released, r', t, Append, done, did);
  }

  /** Two pending events of one actor can be appended either way round. */
  lemma EitherOrder(lib: Library, r: Trace, t: Thread, u: Thread, did: string) returns (r': Trace)
    requires r.Valid(lib) && WellFormed(r) && t != u
    requires Pending(r.End().Pc(t), did) && Pending(r.End().Pc(u), did)
    ensures r'.Valid(lib) && Extends(r, r') && (Lossless(r.turns) ==> Lossless(r'.turns))
        && r'.End().history == r.End().history
    ensures r'.End().log == r.End().log + [r.End().Pc(u).event, r.End().Pc(t).event]
  {
    hide IsRun;
    r' := AppendNow(lib, r, u, did);
    r' := AppendNow(lib, r', t, did);
  }

  // ----- exactly when the order can break -----

  ghost predicate TwoPending(s: System, did: string) {
    exists t, u :: t != u && Pending(s.Pc(t), did) && Pending(s.Pc(u), did)
  }

  /** r' goes on from r without a new change of the actor or a lost event, and out of order. */
  ghost predicate Overtakes(lib: Library, r: Trace, r': Trace, did: string) {
    && r'.Valid(lib) && Extends(r, r') && Lossless(r'.turns) && WellFormed(r')
    && r.states != [] && r'.End().Changes(did) == r.End().Changes(did)
    && !InOrder(r'.End().Changes(did), LoggedBy(r', did))
  }

  /** The next event in commit order is not logged, and some thread owes it. */
  lemma NextIsPending(s: System, logged: seq<nat>, at: Thread -> nat, did: string, t: Thread)
    requires Kept(s, logged, at, did) && InOrder(s.Changes(did), logged) && Pending(s.Pc(t), did)
    ensures |logged| < |Batches(s.Changes(did))|
    ensures exists v :: Pending(s.Pc(v), did) && at(v) == Batches(s.Changes(did))[|logged|]
  {
    var order := Batches(s.Changes(did));
    BatchesAre(s.Changes(did));
    assert Owes(s, logged, at, t, did);
    assert at(t) in order;
    var i :| 0 <= i < |order| && order[i] == at(t);
    assert forall k :: 0 <= k < |logged| ==> order[k] == logged[k] && logged[k] in logged;
    assert order[|logged|] in order;
    assert order[|logged|] !in logged;
  }

  lemma OneOfTwoOvertakes(lib: Library, r: Trace, did: string, t: Thread, u: Thread) returns (r': Trace)
    requires r.Valid(lib) && WellFormed(r) && Lossless(r.turns) && InOrder(r.End().Changes(did), LoggedBy(r, did))
    requires t != u && Pending(r.End().Pc(t), did) && Pending(r.End().Pc(u), did)
    ensures Overtakes(lib, r, r', did)
  {
    var s, logged, at := r.End(), LoggedBy(r, did), AtStep(r.states, r.turns, |r.turns|);
    RunKeepsAccount(lib, r.states, r.turns, |r.turns|, did);
    NextIsPending(s, logged, at, did, t);
    var w := if at(t) == Batches(s.Changes(did))[|logged|] then u else t;
    assert at(w) != Batches(s.Changes(did))[|logged|];
    r' := AppendNow(lib, r, w, did);
    RunLengths(lib, r'.states, r'.turns);
    assert LoggedBy(r', did)[|logged|] == at(w);
  }

  lemma ChangesGrow(s: System, t: Thread, a: Act, s': System, did: string)
    requires Shape(s, t, a, s')
    ensures s.Changes(did) <= s'.Changes(did)
    ensures s'.Changes(did) == s.Changes(did) && a.CommitTx? ==> s.Pc(t).job.did != did
  {
  }

  lemma {:induction false} RunChangesGrow(lib: Library, states: seq<System>, turns: seq<Turn>, m: nat, n: nat,
      did: string)
    requires IsRun(lib, states, turns) && m <= n < |states|
    ensures states[m].Changes(did) <= states[n].Changes(did)
  {
    hide IsRun, Shape;
    RunLengths(lib, states, turns);
    if m < n {
      RunShape(lib, states, turns, n);
      RunChangesGrow(lib, states, turns, m, n - 1, did);
      ChangesGrow(states[n - 1], turns[n - 1].thread, turns[n - 1].act, states[n], did);
    }
  }

  /** One step, with at most one event pending and no new commit of the actor. */
  lemma StepStaysInOrder(s: System, t: Thread, a: Act, s': System, logged: seq<nat>, at: Thread -> nat, did: string)
    requires Shape(s, t, a, s') && Kept(s, logged, at, did) && !a.LoseEvent? && s'.Changes(did) == s.Changes(did)
    requires InOrder(s.Changes(did), logged) && !TwoPending(s, did)
    ensures !TwoPending(s', did)
    ensures a.Append? && Pending(s.Pc(t), did) ==> InOrder(s.Changes(did), logged + [at(t)])
  {
    ChangesGrow(s, t, a, s', did);
    if a.Append? && Pending(s.Pc(t), did) {
      NextIsPending(s, logged, at, did, t);
    }
    PendingShrinks(s, t, a, s', did);
  }

  lemma PendingShrinks(s: System, t: Thread, a: Act, s': System, did: string)
    requires Shape(s, t, a, s') && (a.CommitTx? ==> s.Pc(t).job.did != did)
    ensures forall u :: Pending(s'.Pc(u), did) ==> Pending(s.Pc(u), did)
  {
    if Moves(a) {
      assert forall u :: u != t ==> s'.Pc(u) == s.Pc(u);
    }
  }

  lemma {:induction false} StaysInOrder(lib: Library, states: seq<System>, turns: seq<Turn>, m: nat, n: nat,
      did: string)
    requires IsRun(lib, states, turns) && Lossless(turns) && m <= n <= |turns| <= |states| && n < |states|
    requires states[n].Changes(did) == states[m].Changes(did)
    requires InOrder(states[m].Changes(did), Logged(states, turns, m, did)) && !TwoPending(states[m], did)
    ensures InOrder(states[n].Changes(did), Logged(states, turns, n, did)) && !TwoPending(states[n], did)
  {
    hide IsRun, Shape, TwoPending, InOrder, Kept, Logged, AtStep;
    if m < n {
      RunShape(lib, states, turns, n);
      LoggedStep(states, turns, n, did);
      RunChangesGrow(lib, states, turns, m, n - 1, did);
      RunChangesGrow(lib, states, turns, n - 1, n, did);
      StaysInOrder(lib, states, turns, m, n - 1, did);
      RunKeepsAccount(lib, states, turns, n - 1, did);
      StepStaysInOrder(states[n - 1], turns[n - 1].thread, turns[n - 1].act, states[n],
        Logged(states, turns, n - 1, did), AtStep(states, turns, n - 1), did);
      assert Logged(states, turns, n - 1, did) + [] == Logged(states, turns, n - 1, did);
    }
  }

  /** A run whose log is in commit order can go on, without a further commit of the actor, to a
      log that is not, if and only if two of the actor's commits have their events still to append. */
  lemma OvertakingIff(lib: Library, r: Trace, did: string)
    requires r.Valid(lib) && WellFormed(r) && Lossless(r.turns) && InOrder(r.End().Changes(did), LoggedBy(r, did))
    ensures (exists r' :: Overtakes(lib, r, r', did)) <==> TwoPending(r.End(), did)
  {
    hide IsRun, InOrder, Logged;
    RunLengths(lib, r.states, r.turns);
    if TwoPending(r.End(), did) {
      var t, u :| t != u && Pending(r.End().Pc(t), did) && Pending(r.End().Pc(u), did);
      var r' := OneOfTwoOvertakes(lib, r, did, t, u);
    } else if r' :| Overtakes(lib, r, r', did) {
      var m := |r.turns|;
      PrefixLogged(r.states, r.turns, r'.states, r'.turns, m, did);
      assert r'.states[m] == r.End();
      StaysInOrder(lib, r'.states, r'.turns, m, |r'.turns|, did);
      assert false;
    }
  }

  // ----- from any state with the lock free -----

  /** Nobody holds the actor's lock. */
  ghost predicate LockFree(s: System, did: string) {
    did in s.locks ==> s.locks[did] !in s.held
  }

  lemma {:induction false} HeldAreOld(lib: Library, states: seq<System>, turns: seq<Turn>, n: nat)
    requires IsRun(lib, states, turns) && n < |states|
    ensures forall l :: l in states[n].held ==> l < states[n].nextLock
  {
    if n > 0 {
      HeldAreOld(lib, states, turns, n - 1);
      RunKeepsLocks(lib, states, turns, n - 1);
      RunShape(lib, states, turns, n);
      assert LockOk(states[n - 1], turns[n - 1].thread);
      hide IsRun, LockOk;
      HeldStayOld(states[n - 1], turns[n - 1].thread, turns[n - 1].act, states[n]);
    }
  }

  lemma HeldStayOld(s: System, t: Thread, a: Act, s': System)
    requires Shape(s, t, a, s') && LocksOk(s) && LockOk(s, t)
    requires forall l :: l in s.held ==> l < s.nextLock
    ensures forall l :: l in s'.held ==> l < s'.nextLock
  {
  }

  /** Two idle threads start calls for one actor. */
  lemma BothWait(lib: Library, r: Trace, t: Thread, u: Thread, first: Job, second: Job) returns (r': Trace, l: Lock)
    requires r.Valid(lib) && t != u && r.End().Pc(t).Idle? && r.End().Pc(u).Idle?
    requires ValidJob(first) && ValidJob(second) && first.did == second.did && LockFree(r.End(), first.did)
    ensures r'.Valid(lib) && r'.End().Pc(t) == Waiting(first, l) && r'.End().Pc(u) == Waiting(second, l)
    ensures r'.End().held == r.End().held && l !in r.End().held
    ensures r'.End().dbs == r.End().dbs && r'.End().history == r.End().history && r'.End().log == r.End().log
  {
    var s, did := r.End(), first.did;
    HeldAreOld(lib, r.states, r.turns, |r.turns|);
    l := if did in s.locks then s.locks[did] else s.nextLock;
    var one := if did in s.locks then s.Move(t, Waiting(first, l))
      else s.(locks := s.locks[did := l], nextLock := l + 1).Move(t, Waiting(first, l));
    r' := Take(lib, r, t, Start(first), one);
    r' := Take(lib, r', u, Start(second), one.Move(u, Waiting(second, l)));
  }

  lemma BatchLoads(lib: Library, job: Job, t: Tables, o: Outcome)
    requires ValidJob(job) && ApplyBatch(lib, job, t) == Ok(o)
    ensures Load(lib, t).Ok? && RunBatch(lib, job, Load(lib, t).value, t) == Ok(o)
  {
  }

  /** What a call that has the lock to itself changes. */
  lemma SoloChanges(s: System, t: Thread, job: Job, o: Outcome)
    ensures var s', did := Solo(s, t, job, o), job.did;
      && s'.Pc(t) == Emitting(job, EventOf(did, o)) && (forall u :: u != t ==> s'.Pc(u) == s.Pc(u))
      && s'.Changes(did) == s.Changes(did) + [Batch(s.Db(did), job, o)] && s'.Db(did) == o.db
      && s'.held == s.held && s'.log == s.log
  {
  }

  /** Two waiting calls commit one after the other, and neither has appended its event yet. */
  lemma BothCommit(lib: Library, r: Trace, t: Thread, u: Thread, l: Lock, first: Job, second: Job, o: Outcome,
      p: Outcome)
    returns (r': Trace)
    requires r.Valid(lib) && t != u && l !in r.End().held
    requires r.End().Pc(t) == Waiting(first, l) && r.End().Pc(u) == Waiting(second, l)
    requires ValidJob(first) && ValidJob(second) && first.did == second.did
    requires ApplyBatch(lib, first, r.End().Db(first.did)) == Ok(o) && ApplyBatch(lib, second, o.db) == Ok(p)
    ensures r'.Valid(lib) && r'.End().log == r.End().log
    ensures r'.End().Changes(first.did) ==
      r.End().Changes(first.did) + [Batch(r.End().Db(first.did), first, o), Batch(o.db, second, p)]
    ensures r'.End().Pc(t) == Emitting(first, EventOf(first.did, o))
        && r'.End().Pc(u) == Emitting(second, EventOf(first.did, p))
  {
    var s, did := r.End(), first.did;
    BatchLoads(lib, first, s.Db(did), o);
    BatchLoads(lib, second, o.db, p);
    hide IsRun, Load, RunBatch, ApplyBatch, EventOf, Solo;
    SoloChanges(s, t, first, o);
    r' := SoloCommit(lib, r, t, first, l, Load(lib, s.Db(did)).value, o);
    SoloChanges(r'.End(), u, second, p);
    r' := SoloCommit(lib, r', u, second, l, Load(lib, o.db).value, p);
  }

  /** Wherever a run has got to, two batches of an actor whose lock is free can commit one after
      the other and have their events appended the other way round. */
  lemma EventsCanBeReordered(lib: Library, r: Trace, t: Thread, u: Thread, first: Job, second: Job, o: Outcome,
      p: Outcome)
    returns (r': Trace)
    requires r.Valid(lib) && t != u && r.End().Pc(t).Idle? && r.End().Pc(u).Idle?
    requires ValidJob(first) && ValidJob(second) && first.did == second.did && LockFree(r.End(), first.did)
    requires ApplyBatch(lib, first, r.End().Db(first.did)) == Ok(o) && ApplyBatch(lib, second, o.db) == Ok(p)
    ensures r'.Valid(lib)
    ensures var s, did := r.End(), first.did;
      && r'.End().Changes(did) == s.Changes(did) + [Batch(s.Db(did), first, o), Batch(o.db, second, p)]
      && r'.End().log == s.log + [EventOf(did, p), EventOf(did, o)]
  {
    hide ApplyBatch, EventOf;
    var l;
    r', l := BothWait(lib, r, t, u, first, second);
    r' := BothCommit(lib, r', t, u, l, first, second, o, p);
    r' := EitherOrder(lib, r', t, u, first.did);
  }

  lemma EmptyBatchCommits(lib: Library, job: Job, t: Tables)
    requires ValidJob(job) && job.ops == [] && Grounded(lib, job.did, t)
    ensures ApplyBatch(lib, job, t).Ok?
  {
    GroundedLoads(lib, job.did, t);
  }

  /** It happens to any actor from the start: two empty batches are enough. The log then has the
      second commit's event, which names the first commit as the one before it, ahead of the
      first's. */
  lemma ReorderedExample(lib: Library, did: string, sig: string) returns (r: Trace, o: Outcome, p: Outcome)
    ensures r.Valid(lib) && r.End().log == [EventOf(did, p), EventOf(did, o)]
    ensures EventOf(did, p).since == Some(EventOf(did, o).rev)
  {
    var job := Job(did, sig, [], [0], {});
    EmptyBatchCommits(lib, job, EMPTY);
    o := ApplyBatch(lib, job, EMPTY).value;
    BatchGrounded(lib, job, EMPTY);
    EmptyBatchCommits(lib, job, o.db);
    p := ApplyBatch(lib, job, o.db).value;
    GroundedLoads(lib, did, o.db);
    r := EventsCanBeReordered(lib, Trace([INITIAL], []), 0, 1, job, job, o, p);
  }
}
