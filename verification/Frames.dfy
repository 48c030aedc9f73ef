/** What the stored log says: every row is the event of the append with its number, and is there
    until an append with a cutoff past it. */
module Frames {
  import opened Common
  import opened Order
  import opened Timestamps
  import opened Firehose
  import opened Sequencer

  predicate Sequenced(e: Event) {
    e.commit.Some? || e.sync.Some? || e.identity.Some? || e.account.Some?
  }

  /** The events among these attempts that can be numbered. */
  function Numbered(attempts: seq<Attempt>): nat {
    if attempts == [] then 0
    else Numbered(attempts[..|attempts| - 1]) + if Sequenced(attempts[|attempts| - 1].event) then 1 else 0
  }

  predicate HasContent(b: Option<Body>, content: string) {
    b.Some? && b.value.content == content
  }

  /** Exactly one sequenced variant is set: this one, with this content. */
  predicate Only(e: Event, tag: string, content: string) {
    || (tag == "#commit" && HasContent(e.commit, content) && e.sync.None? && e.identity.None? && e.account.None?)
    || (tag == "#sync" && HasContent(e.sync, content) && e.commit.None? && e.identity.None? && e.account.None?)
    || (tag == "#identity" && HasContent(e.identity, content) && e.commit.None? && e.sync.None? && e.account.None?)
    || (tag == "#account" && HasContent(e.account, content) && e.commit.None? && e.sync.None? && e.identity.None?)
  }

  /** An event's frame: an error outranks the body, which carries its number and its own content. */
  ghost predicate FrameOf(f: Frame, e: Event, tag: string, number: nat, content: string) {
    if e.error.Some? then f == Error(e.error.value) else f == Message(tag, Body(number, content))
  }

  /** The row that this attempt, numbered so, is to leave. */
  ghost predicate RowFor(r: Row, a: Attempt, number: nat) {
    && r.number == number && r.did == a.did && r.created == Rfc3339Nano(a.now)
    && forall tag, content :: Only(a.event, tag, content) ==>
      r.tag == tag && FrameOf(r.frame, a.event, tag, number, content)
  }

  lemma AttemptStores(log: Log, a: Attempt)
    ensures NewRow(log, a.did, a.event, Rfc3339Nano(a.now)).Ok? <==> Sequenced(a.event)
    ensures Sequenced(a.event) ==> RowFor(NewRow(log, a.did, a.event, Rfc3339Nano(a.now)).value, a, log.last + 1)
  {
  }

  lemma StoreSelects(log: Log, row: Row, cutoff: string)
    ensures forall r :: r in Stored(log, row, cutoff).rows <==> (r in log.rows || r == row) && !Less(r.created, cutoff)
  {
    TrimmedSelects(log.rows + [row], cutoff);
  }

  /** The row is that of the k-th attempt, under the number it came to. */
  ghost predicate RowOfAttempt(attempts: seq<Attempt>, r: Row, k: nat) {
    k < |attempts| && Sequenced(attempts[k].event) && RowFor(r, attempts[k], Numbered(attempts[..k]) + 1)
  }

  lemma LaterAttempt(attempts: seq<Attempt>, a: Attempt, r: Row, k: nat)
    requires RowOfAttempt(attempts, r, k)
    ensures RowOfAttempt(attempts + [a], r, k)
  {
    hide RowFor;
    assert (attempts + [a])[..k] == attempts[..k];
  }

  lemma LastAttempt(attempts: seq<Attempt>, a: Attempt, r: Row)
    requires Sequenced(a.event) && RowFor(r, a, Numbered(attempts) + 1)
    ensures RowOfAttempt(attempts + [a], r, |attempts|)
  {
    hide RowFor;
    assert (attempts + [a])[..|attempts|] == attempts;
  }

  /** The row that one more attempt with a sequenced event stores. */
  function NewestRow(attempts: seq<Attempt>, a: Attempt): Row
    requires Sequenced(a.event)
  {
    NewRow(Run(attempts), a.did, a.event, Rfc3339Nano(a.now)).value
  }

  lemma RunStep(attempts: seq<Attempt>, a: Attempt)
    ensures var all := attempts + [a];
      && (!Sequenced(a.event) ==> Run(all) == Run(attempts) && Issued(all) == Issued(attempts))
      && (Sequenced(a.event) ==>
        && RowFor(NewestRow(attempts, a), a, Run(attempts).last + 1)
        && Run(all).last == Run(attempts).last + 1 && |Issued(all)| == |Issued(attempts)| + 1
        && forall r :: r in Run(all).rows <==>
          (r in Run(attempts).rows || r == NewestRow(attempts, a)) && !Less(r.created, Rfc3339Nano(a.cutoff)))
    ensures Numbered(attempts + [a]) == Numbered(attempts) + if Sequenced(a.event) then 1 else 0
  {
    RunUnfolds(attempts, a);
    hide Run, Issued, Numbered, RowFor, Less, Rfc3339Nano, Sequenced;
    if Sequenced(a.event) {
      StoreSelects(Run(attempts), NewestRow(attempts, a), Rfc3339Nano(a.cutoff));
    }
  }

  lemma RunUnfolds(attempts: seq<Attempt>, a: Attempt)
    ensures var all := attempts + [a];
      && (!Sequenced(a.event) ==> Run(all) == Run(attempts) && Issued(all) == Issued(attempts))
      && (Sequenced(a.event) ==>
        && RowFor(NewestRow(attempts, a), a, Run(attempts).last + 1)
        && NewestRow(attempts, a).number == Run(attempts).last + 1
        && Run(all) == Stored(Run(attempts), NewestRow(attempts, a), Rfc3339Nano(a.cutoff))
        && |Issued(all)| == |Issued(attempts)| + 1)
    ensures Numbered(attempts + [a]) == Numbered(attempts) + if Sequenced(a.event) then 1 else 0
  {
    hide Stored, RowFor, Rfc3339Nano, Stamp, Serialize, Less;
    AttemptStores(Run(attempts), a);
    var all := attempts + [a];
    assert all[..|attempts|] == attempts && all[|all| - 1] == a;
  }

  /** Over any run of attempts those with a sequenced event are numbered 1, 2, 3 and on. Every row
      stored is that of the attempt with its number: its account, its time, and as frame its own
      content under that number and the literal tag of its variant. */
  lemma {:induction false} RunStoresContent(attempts: seq<Attempt>)
    ensures Run(attempts).last == |Issued(attempts)| == Numbered(attempts)
    ensures forall r :: r in Run(attempts).rows ==> exists k :: RowOfAttempt(attempts, r, k)
  {
    if attempts != [] {
      var prior, a := attempts[..|attempts| - 1], attempts[|attempts| - 1];
      RunStoresContent(prior);
      assert attempts == prior + [a];
      RunStep(prior, a);
      hide RowFor, RowOfAttempt, Run, Issued, Numbered, NewestRow, Sequenced, Less;
      forall r | r in Run(attempts).rows ensures exists k :: RowOfAttempt(attempts, r, k) {
        if r in Run(prior).rows {
          var k :| RowOfAttempt(prior, r, k);
          LaterAttempt(prior, a, r, k);
        } else {
          LastAttempt(prior, a, r);
        }
      }
    }
  }

  /** Whether the row of the k-th attempt is still there: no append since, its own included, came
      with a cutoff past its text. */
  ghost predicate Survives(attempts: seq<Attempt>, k: nat)
    requires k < |attempts|
  {
    forall j :: k <= j < |attempts| && Sequenced(attempts[j].event) ==>
      !Less(Rfc3339Nano(attempts[k].now), Rfc3339Nano(attempts[j].cutoff))
  }

  lemma {:induction false} NumberedRises(attempts: seq<Attempt>, i: nat, j: nat)
    requires i <= j <= |attempts|
    ensures Numbered(attempts[..i]) <= Numbered(attempts[..j])
    ensures i < j && Sequenced(attempts[i].event) ==> Numbered(attempts[..i]) < Numbered(attempts[..j])
  {
    if i < j {
      NumberedRises(attempts, i, j - 1);
      assert attempts[..j][..j - 1] == attempts[..j - 1];
    }
  }

  /** A number says which attempt it is. */
  lemma NumberTells(attempts: seq<Attempt>, i: nat, j: nat)
    requires i < |attempts| && j < |attempts| && Sequenced(attempts[i].event) && Sequenced(attempts[j].event)
    requires Numbered(attempts[..i]) == Numbered(attempts[..j])
    ensures i == j
  {
    if i < j {
      NumberedRises(attempts, i, j);
    } else if j < i {
      NumberedRises(attempts, j, i);
    }
  }

  lemma HoldsIff(rows: seq<Row>, n: nat)
    ensures Holds(rows, n) <==> exists r :: r in rows && r.number == n
  {
  }

  lemma SurvivesStep(attempts: seq<Attempt>, a: Attempt, k: nat)
    requires k < |attempts|
    ensures Survives(attempts + [a], k) <==>
      (Survives(attempts, k) && (Sequenced(a.event) ==> !Less(Rfc3339Nano(attempts[k].now), Rfc3339Nano(a.cutoff))))
  {
    hide Less, Rfc3339Nano, Sequenced;
    var all := attempts + [a];
    assert all[|attempts|] == a && forall j :: 0 <= j < |attempts| ==> all[j] == attempts[j];
  }

  /** Rows under a number are of the attempt with that number. */
  lemma NumberedRows(attempts: seq<Attempt>, k: nat, r: Row)
    requires k < |attempts| && Sequenced(attempts[k].event)
    requires r in Run(attempts).rows
    ensures r.number <= Numbered(attempts)
    ensures r.number == Numbered(attempts[..k]) + 1 ==> r.created == Rfc3339Nano(attempts[k].now)
  {
    RunStoresContent(attempts);
    hide Run, Rfc3339Nano, Sequenced;
    var i :| RowOfAttempt(attempts, r, i);
    assert attempts[..|attempts|] == attempts;
    NumberedRises(attempts, i, |attempts|);
    if r.number == Numbered(attempts[..k]) + 1 {
      NumberTells(attempts, i, k);
    }
  }

  lemma RowGoneOrCut(attempts: seq<Attempt>, a: Attempt, k: nat)
    requires k < |attempts| && Sequenced(attempts[k].event)
    requires Holds(Run(attempts).rows, Numbered(attempts[..k]) + 1) <==> Survives(attempts, k)
    ensures Holds(Run(attempts + [a]).rows, Numbered(attempts[..k]) + 1) <==> Survives(attempts + [a], k)
  {
    hide *;
    var all, n := attempts + [a], Numbered(attempts[..k]) + 1;
    RunStep(attempts, a);
    SurvivesStep(attempts, a, k);
    HoldsIff(Run(attempts).rows, n);
    HoldsIff(Run(all).rows, n);
    forall r | r in Run(attempts).rows && r.number == n ensures r.created == Rfc3339Nano(attempts[k].now) {
      NumberedRows(attempts, k, r);
    }
    if Sequenced(a.event) {
      NewestNumber(attempts, a);
      assert attempts[..|attempts|] == attempts;
      NumberedRises(attempts, k, |attempts|);
    }
  }

  lemma NewestNumber(attempts: seq<Attempt>, a: Attempt)
    requires Sequenced(a.event)
    ensures NewestRow(attempts, a).number == Numbered(attempts) + 1
    ensures NewestRow(attempts, a).created == Rfc3339Nano(a.now)
  {
    RunStoresContent(attempts);
    RunStep(attempts, a);
    hide Run, Rfc3339Nano, NewestRow, Less;
  }

  /** An event is stored exactly until an append whose cutoff is past its text. */
  lemma {:induction false} RunStoresIff(attempts: seq<Attempt>, k: nat)
    requires k < |attempts| && Sequenced(attempts[k].event)
    ensures Holds(Run(attempts).rows, Numbered(attempts[..k]) + 1) <==> Survives(attempts, k)
  {
    hide Run, Numbered, Survives, Sequenced, Holds;
    var prior, a := attempts[..|attempts| - 1], attempts[|attempts| - 1];
    assert attempts == prior + [a];
    if k < |prior| {
      assert prior[..k] == attempts[..k] && prior[k] == attempts[k];
      RunStoresIff(prior, k);
      RowGoneOrCut(prior, a, k);
    } else {
      assert attempts[..k] == prior;
      NewestHeld(prior, a);
    }
  }

  lemma NewestHeld(attempts: seq<Attempt>, a: Attempt)
    requires Sequenced(a.event)
    ensures Holds(Run(attempts + [a]).rows, Numbered(attempts) + 1) <==> Survives(attempts + [a], |attempts|)
  {
    var all := attempts + [a];
    RunStoresContent(attempts);
    RunStep(attempts, a);
    NewestNumber(attempts, a);
    HoldsIff(Run(all).rows, Numbered(attempts) + 1);
    assert all[|attempts|] == a;
    forall r | r in Run(attempts).rows ensures r.number <= Numbered(attempts) {
      var i :| RowOfAttempt(attempts, r, i);
      NumberedRows(attempts, i, r);
    }
    hide Run, Numbered, Less, Rfc3339Nano, Sequenced, RowOfAttempt, NewestRow, Holds, RowFor;
  }
}
