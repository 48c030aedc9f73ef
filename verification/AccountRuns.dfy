/** The account tables over every run, told from the statements that made them. */
module AccountRuns {
  import opened Order
  import opened Accounts
  import opened SessionRuns
  import opened Revocation

  // ----- accounts -----

  /** The hash that the last change of password set. */
  function HashAfter(acts: seq<Act>, did: string, hash: string): string {
    if acts == [] then hash else
      match acts[|acts| - 1]
      case Alter(SetPassword(d, h)) => if d == did then h else HashAfter(acts[..|acts| - 1], did, hash)
      case _ => HashAfter(acts[..|acts| - 1], did, hash)
  }

  /** The status that the last change of status or activation set. */
  function StatusAfter(acts: seq<Act>, did: string, status: string): string {
    if acts == [] then status else
      match acts[|acts| - 1]
      case Alter(SetStatus(d, s)) => if d == did then s else StatusAfter(acts[..|acts| - 1], did, status)
      case Alter(Activate(d)) => if d == did then "active" else StatusAfter(acts[..|acts| - 1], did, status)
      case _ => StatusAfter(acts[..|acts| - 1], did, status)
  }

  /** How often password or status was set. */
  function Bumps(acts: seq<Act>, did: string): nat {
    if acts == [] then 0 else
      Bumps(acts[..|acts| - 1], did) +
      match acts[|acts| - 1]
      case Alter(SetPassword(d, _)) => if d == did then 1 else 0
      case Alter(SetStatus(d, _)) => if d == did then 1 else 0
      case _ => 0
  }

  ghost predicate AsTold(a: Account, made: Account, acts: seq<Act>) {
    && a.did == made.did && a.handle == made.handle
    && a.passwordHash == HashAfter(acts, made.did, made.passwordHash)
    && a.status == StatusAfter(acts, made.did, made.status)
    && a.version == Bumps(acts, made.did) + (if made.version < 1 then 1 else made.version)
  }

  lemma NextTells(cfg: Config, w: World, a: Act, made: Account, acts: seq<Act>)
    requires Enabled(cfg, w, a) && made.did in Now(w).accounts && AsTold(Now(w).accounts[made.did], made, acts)
    ensures made.did in TablesAfter(w, a).accounts && AsTold(TablesAfter(w, a).accounts[made.did], made, acts + [a])
  {
    assert (acts + [a])[..|acts|] == acts;
  }

  lemma CreateTells(t: Tables, made: Account)
    requires made.did !in t.accounts && forall d :: d in t.accounts ==> t.accounts[d].handle != made.handle
    ensures made.did in Changed(t, Create(made)).accounts
    ensures AsTold(Changed(t, Create(made)).accounts[made.did], made, [])
  {
  }

  /** The k-th act makes an account, under an identifier and a handle that were free. */
  ghost predicate Makes(cfg: Config, acts: seq<Act>, k: nat, made: Account) {
    && k < |acts| && acts[k] == Alter(Create(made)) && Possible(cfg, acts[..k])
    && var w := After(cfg, acts[..k]);
    w.hist != [] && made.did !in Now(w).accounts &&
    forall d :: d in Now(w).accounts ==> Now(w).accounts[d].handle != made.handle
  }

  /** Once made, an account has its identifier and handle for good, the password and status last
      set, and a version that counts how often they were. */
  lemma {:induction false} AccountIsAsTold(cfg: Config, acts: seq<Act>, k: nat, made: Account)
    requires Possible(cfg, acts) && Makes(cfg, acts, k, made)
    ensures var w := After(cfg, acts);
      w.hist != [] && made.did in Now(w).accounts && AsTold(Now(w).accounts[made.did], made, acts[k + 1..])
  {
    var prior := acts[..|acts| - 1];
    hide AsTold, Changed, TablesAfter, Enabled;
    if k == |acts| - 1 {
      assert acts[..k] == prior && acts[k + 1..] == [];
      CreateTells(Now(After(cfg, prior)), made);
      LastAlters(cfg, acts);
    } else {
      assert prior[..k] == acts[..k] && prior[k] == acts[k];
      AccountIsAsTold(cfg, prior, k, made);
      NextTells(cfg, After(cfg, prior), acts[|acts| - 1], made, prior[k + 1..]);
      assert prior[k + 1..] + [acts[|acts| - 1]] == acts[k + 1..];
      LastActs(cfg, acts);
    }
  }

  lemma LastActs(cfg: Config, acts: seq<Act>)
    requires Possible(cfg, acts) && acts != []
    ensures Possible(cfg, acts[..|acts| - 1])
    ensures var w, a := After(cfg, acts[..|acts| - 1]), acts[|acts| - 1];
      && Enabled(cfg, w, a) && After(cfg, acts).hist != [] && Now(After(cfg, acts)) == TablesAfter(w, a)
  {
  }

  lemma LastAlters(cfg: Config, acts: seq<Act>)
    requires Possible(cfg, acts) && acts != [] && acts[|acts| - 1].Alter?
    ensures Possible(cfg, acts[..|acts| - 1]) && After(cfg, acts[..|acts| - 1]).hist != []
    ensures After(cfg, acts).hist != []
    ensures Now(After(cfg, acts)) == Changed(Now(After(cfg, acts[..|acts| - 1])), acts[|acts| - 1].change)
  {
    LastActs(cfg, acts);
  }

  /** There are no accounts but those made. */
  lemma {:induction false} AccountWasMade(cfg: Config, acts: seq<Act>, did: string)
    requires Possible(cfg, acts)
    ensures After(cfg, acts).hist != []
    ensures did in Now(After(cfg, acts)).accounts ==>
      exists k, made: Account :: made.did == did && Makes(cfg, acts, k, made)
  {
    if acts != [] {
      var prior, a := acts[..|acts| - 1], acts[|acts| - 1];
      AccountWasMade(cfg, prior, did);
      LastActs(cfg, acts);
      if did in Now(After(cfg, acts)).accounts {
        if did in Now(After(cfg, prior)).accounts {
          var k: nat, made: Account :| made.did == did && Makes(cfg, prior, k, made);
          MadeBefore(cfg, acts, k, made);
        } else {
          NewAccount(cfg, After(cfg, prior), a, did);
          assert Makes(cfg, acts, |prior|, a.change.account);
        }
      }
    }
  }

  lemma MadeBefore(cfg: Config, acts: seq<Act>, k: nat, made: Account)
    requires acts != [] && Makes(cfg, acts[..|acts| - 1], k, made)
    ensures Makes(cfg, acts, k, made)
  {
    hide Possible, After;
    assert acts[..|acts| - 1][..k] == acts[..k];
  }

  lemma NewAccount(cfg: Config, w: World, a: Act, did: string)
    requires Enabled(cfg, w, a) && did !in Now(w).accounts && did in TablesAfter(w, a).accounts
    ensures a.Alter? && a.change.Create? && a.change.account.did == did
    ensures forall d :: d in Now(w).accounts ==> Now(w).accounts[d].handle != a.change.account.handle
  {
  }

  // ----- app passwords -----

  predicate Revokes(a: Act, did: string, name: string) {
    a == Alter(RevokeApp(did, name))
  }

  /** Stored by act j, and not revoked since. */
  ghost predicate Kept(acts: seq<Act>, j: nat, did: string, name: string) {
    && j < |acts| && Recreates(acts[j], did, name) && name != ""
    && forall i :: j < i < |acts| ==> !Revokes(acts[i], did, name)
  }

  lemma NextApps(cfg: Config, w: World, a: Act, did: string, name: string)
    requires Enabled(cfg, w, a)
    ensures HasApp(TablesAfter(w, a).apps, did, name) <==>
      (Recreates(a, did, name) && name != "") || (HasApp(Now(w).apps, did, name) && !Revokes(a, did, name))
  {
    var t, t' := Now(w), TablesAfter(w, a);
    if a.Alter? && a.change.RevokeApp? {
      WithoutAppSelects(t.apps, a.change.did, a.change.name);
      HasAppIff(t.apps, did, name);
      HasAppIff(WithoutApp(t.apps, a.change.did, a.change.name), did, name);
    }
    if a.Alter? && a.change.AddApp? {
      HasAppIff(t.apps, did, name);
      HasAppIff(t'.apps, did, name);
    }
  }

  lemma HasAppIff(apps: seq<AppPassword>, did: string, name: string)
    ensures HasApp(apps, did, name) <==> exists ap :: ap in apps && ap.did == did && ap.name == name
  {
  }

  lemma KeptStep(acts: seq<Act>, a: Act, did: string, name: string)
    ensures (exists j :: Kept(acts + [a], j, did, name)) <==>
      (Recreates(a, did, name) && name != "") || ((exists j :: Kept(acts, j, did, name)) && !Revokes(a, did, name))
  {
    var all := acts + [a];
    assert all[|acts|] == a && forall i :: 0 <= i < |acts| ==> all[i] == acts[i];
    if j: nat :| Kept(all, j, did, name) {
      if j < |acts| {
        forall i | j < i < |acts| ensures !Revokes(acts[i], did, name) {
          assert !Revokes(all[i], did, name);
        }
        assert Kept(acts, j, did, name);
      }
    }
    if Recreates(a, did, name) && name != "" {
      assert Kept(all, |acts|, did, name);
    } else if !Revokes(a, did, name) {
      if j: nat :| Kept(acts, j, did, name) {
        assert Kept(all, j, did, name);
      }
    }
  }

  /** An account has an app password of a name exactly if one was added and not revoked since. */
  lemma {:induction false} AppStoredIff(cfg: Config, acts: seq<Act>, did: string, name: string)
    requires Possible(cfg, acts)
    ensures After(cfg, acts).hist != []
    ensures HasApp(Now(After(cfg, acts)).apps, did, name) <==> exists j :: Kept(acts, j, did, name)
  {
    if acts != [] {
      var prior, a := acts[..|acts| - 1], acts[|acts| - 1];
      AppStoredIff(cfg, prior, did, name);
      LastActs(cfg, acts);
      hide Possible, After, Enabled, TablesAfter, HasApp, Kept, Recreates;
      NextApps(cfg, After(cfg, prior), a, did, name);
      KeptStep(prior, a, did, name);
      assert acts == prior + [a];
    }
  }

  /** And each is, in full, one that was added and not revoked since. */
  lemma {:induction false} AppWasAdded(cfg: Config, acts: seq<Act>, ap: AppPassword)
    requires Possible(cfg, acts)
    ensures After(cfg, acts).hist != []
    ensures ap in Now(After(cfg, acts)).apps ==>
      exists j: nat :: Kept(acts, j, ap.did, ap.name) && acts[j] == Alter(AddApp(ap))
  {
    if acts != [] {
      var prior, a := acts[..|acts| - 1], acts[|acts| - 1];
      AppWasAdded(cfg, prior, ap);
      LastActs(cfg, acts);
      if ap in Now(After(cfg, acts)).apps {
        NewApp(cfg, After(cfg, prior), a, ap);
        hide Possible, After, Enabled, TablesAfter;
        if ap in Now(After(cfg, prior)).apps && !Revokes(a, ap.did, ap.name) {
          var j: nat :| Kept(prior, j, ap.did, ap.name) && prior[j] == Alter(AddApp(ap));
          StillKept(prior, a, j, ap.did, ap.name);
          assert acts == prior + [a];
        } else {
          assert Kept(acts, |prior|, ap.did, ap.name);
        }
      }
    }
  }

  lemma StillKept(acts: seq<Act>, a: Act, j: nat, did: string, name: string)
    requires Kept(acts, j, did, name) && !Revokes(a, did, name)
    ensures Kept(acts + [a], j, did, name) && (acts + [a])[j] == acts[j]
  {
  }

  lemma NewApp(cfg: Config, w: World, a: Act, ap: AppPassword)
    requires Enabled(cfg, w, a) && ap in TablesAfter(w, a).apps
    ensures (ap in Now(w).apps && !Revokes(a, ap.did, ap.name)) || (a == Alter(AddApp(ap)) && ap.name != "")
  {
    if a.Alter? && a.change.RevokeApp? {
      WithoutAppSelects(Now(w).apps, a.change.did, a.change.name);
      HasAppIff(Now(w).apps, ap.did, ap.name);
    }
  }

  // ----- refresh rows -----

  /** The act removes this row: a logout, a revocation, an exchange, or expiry noticed by the
      account's next login or exchange. */
  ghost predicate Removes(cfg: Config, w: World, a: Act, key: string, row: RefreshRow)
    requires Enabled(cfg, w, a)
  {
    match a
    case Alter(DeleteTokens(did)) => row.did == did
    case Alter(Logout(k)) => k == key
    case Alter(RevokeApp(did, name)) => HasApp(Now(w).apps, did, name) && row.did == did && row.app == name
    case Consume(pid, now) =>
      var c := w.procs[pid].m.token.claims;
      c.jti == key && row.did == c.did && row.version == c.version && Less(now, row.expires)
    case Insert(pid, now, _) => row.did == w.procs[pid].refresh.token.claims.did && !Less(now, row.expires)
    case _ => false
  }

  /** One act's effect on the refresh rows: what goes, what comes, and that nothing else changes. */
  lemma RowsStepIff(cfg: Config, w: World, a: Act, key: string)
    requires Enabled(cfg, w, a)
    ensures var before, after := Now(w).tokens, TablesAfter(w, a).tokens;
      var stays := key in before && !Removes(cfg, w, a, key, before[key]);
      if stays then key in after && after[key] == before[key]
      else if a.Insert? && w.procs[a.pid].refresh.token.claims.jti == key then
        var c := w.procs[a.pid].refresh.token.claims;
        key in after && after[key] == RefreshRow(c.did, a.expires, c.version, c.kind, c.app)
      else key !in after
  {
  }
}
