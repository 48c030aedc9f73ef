/** What the sessions of a revoked app password can still do: no request is let through until the
    app password is created anew, and exactly when one of them can still be exchanged. */
module Revocation {
  import opened Common
  import Order
  import opened Timestamps
  import opened Auth
  import opened Accounts
  import opened Sessions
  import opened SessionRuns

  /** The act stores an app password of this account and name. */
  predicate Recreates(a: Act, did: string, name: string) {
    a.Alter? && a.change.AddApp? && a.change.ap.did == did && a.change.ap.name == name
  }

  predicate OfApp(c: Claims, did: string, name: string) {
    c.did == did && c.app == name
  }

  // ----- requests -----

  lemma {:induction false} PrefixOfRun(cfg: Config, acts: seq<Act>, n: nat)
    requires Possible(cfg, acts) && n <= |acts|
    ensures Possible(cfg, acts[..n])
    ensures |After(cfg, acts).hist| == |acts| + 1 && Now(After(cfg, acts[..n])) == After(cfg, acts).hist[n]
  {
    hide Next, Enabled, Traced, HistoryOk;
    RunStaysTraced(cfg, acts);
    if n < |acts| {
      var prior := acts[..|acts| - 1];
      PrefixOfRun(cfg, prior, n);
      assert prior[..n] == acts[..n];
      HistoryExtends(cfg, After(cfg, prior), acts[|acts| - 1]);
      RunStaysTraced(cfg, prior);
    } else {
      assert acts[..n] == acts;
    }
  }

  lemma HistoryExtends(cfg: Config, w: World, a: Act)
    requires Enabled(cfg, w, a)
    ensures Next(cfg, w, a).hist == w.hist + [TablesAfter(w, a)]
  {
  }

  lemma ChangeStaysWithoutApp(t: Tables, ch: Change, did: string, name: string)
    requires !HasApp(t.apps, did, name) && !Recreates(Alter(ch), did, name)
    ensures !HasApp(Changed(t, ch).apps, did, name)
  {
    if ch.RevokeApp? {
      WithoutAppSelects(t.apps, ch.did, ch.name);
      assert forall ap :: ap in t.apps ==> !(ap.did == did && ap.name == name);
    }
  }

  lemma NextStaysWithoutApp(cfg: Config, w: World, a: Act, did: string, name: string)
    requires Enabled(cfg, w, a) && !Recreates(a, did, name) && !HasApp(Now(w).apps, did, name)
    ensures !HasApp(Now(Next(cfg, w, a)).apps, did, name)
  {
    if a.Alter? {
      ChangeStaysWithoutApp(Now(w), a.change, did, name);
    }
  }

  lemma {:induction false} RunStaysWithoutApp(cfg: Config, acts: seq<Act>, k: nat, did: string, name: string)
    requires Possible(cfg, acts) && k <= |acts| && Possible(cfg, acts[..k])
    requires After(cfg, acts[..k]).hist != [] && !HasApp(Now(After(cfg, acts[..k])).apps, did, name)
    requires forall j :: k <= j < |acts| ==> !Recreates(acts[j], did, name)
    ensures After(cfg, acts).hist != [] && !HasApp(Now(After(cfg, acts)).apps, did, name)
  {
    if k == |acts| {
      assert acts[..k] == acts;
    } else {
      var prior := acts[..|acts| - 1];
      assert prior[..k] == acts[..k];
      RunStaysWithoutApp(cfg, prior, k, did, name);
      NextStaysWithoutApp(cfg, After(cfg, prior), acts[|acts| - 1], did, name);
    }
  }

  /** A revocation, the k-th act, leaves no such app password. */
  lemma RevocationRemoves(cfg: Config, acts: seq<Act>, k: nat, did: string, name: string)
    requires Possible(cfg, acts) && k < |acts| && acts[k] == Alter(RevokeApp(did, name))
    ensures Possible(cfg, acts[..k + 1]) && After(cfg, acts[..k + 1]).hist != []
    ensures !HasApp(Now(After(cfg, acts[..k + 1])).apps, did, name)
  {
    hide Changed;
    PrefixOfRun(cfg, acts, k + 1);
    AlterChanges(cfg, acts, k);
    RevokeRemoves(After(cfg, acts).hist[k], did, name);
  }

  lemma RevokeRemoves(t: Tables, did: string, name: string)
    ensures !HasApp(Changed(t, RevokeApp(did, name)).apps, did, name)
  {
    WithoutAppSelects(t.apps, did, name);
  }

  /** After a revocation, the k-th act, no request on a session of that account and app-password
      name is let through, even one that began before, until one of that name has been created. */
  lemma GrantNeedsNewApp(cfg: Config, acts: seq<Act>, k: nat, did: string, name: string, g: Grant)
    requires Possible(cfg, acts) && g in After(cfg, acts).granted && k < g.appsAt
    requires k < |acts| && acts[k] == Alter(RevokeApp(did, name))
    requires OfApp(g.m.token.claims, did, name) && name != ""
    ensures g.began <= g.appsAt <= |acts|
    ensures exists j :: k < j < g.appsAt && Recreates(acts[j], did, name)
  {
    GrantHadApp(cfg, acts, g);
    assert g.m.token.claims.did == did && g.m.token.claims.app == name;
    hide *;
    var n := g.appsAt;
    if forall j :: k < j < n ==> !Recreates(acts[j], did, name) {
      PrefixOfRun(cfg, acts, n);
      RevocationRemoves(cfg, acts, k, did, name);
      assert acts[..n][..k + 1] == acts[..k + 1];
      RunStaysWithoutApp(cfg, acts[..n], k + 1, did, name);
      assert false;
    }
  }

  /** A request let through on a session of an app password read one of that name. */
  lemma GrantHadApp(cfg: Config, acts: seq<Act>, g: Grant)
    requires Possible(cfg, acts) && g in After(cfg, acts).granted && g.m.token.claims.app != ""
    ensures var w, c := After(cfg, acts), g.m.token.claims;
      g.began <= g.appsAt < |w.hist| == |acts| + 1 && HasApp(w.hist[g.appsAt].apps, c.did, c.app)
  {
    RunStaysTraced(cfg, acts);
    var w, c := After(cfg, acts), g.m.token.claims;
    assert GrantOk(w.hist, w.logins, g);
    hide HasApp, Admit;
    if !HasApp(w.hist[g.appsAt].apps, c.did, c.app) {
      NoAppDenies(w.hist[g.appsAt].apps, c.did, c.app, Some(g.acct), ParsedOf(g.m), g.gate);
      assert false;
    }
  }

  // ----- where refresh tokens are -----

  predicate Held(procs: map<nat, Proc>, jti: string) {
    exists pid :: pid in procs && procs[pid].Inserting? && procs[pid].refresh.token.claims.jti == jti
  }

  predicate IsRowOf(row: RefreshRow, c: Claims) {
    row.did == c.did && row.version == c.version && row.kind == c.kind && row.app == c.app
  }

  /** A refresh token that has reached a client: no handler is about to insert its row, and what
      is stored under its identifier is its own row. */
  ghost predicate Delivered(w: World, c: Claims)
    requires w.hist != []
  {
    && c.scope == REFRESH_SCOPE && c.jti in w.used && !Held(w.procs, c.jti)
    && (c.jti in Now(w).tokens ==> IsRowOf(Now(w).tokens[c.jti], c))
  }

  /** A refresh token as the server makes it. */
  ghost predicate OwnRefresh(cfg: Config, t: Token) {
    var c := t.claims;
    t == IssueRefresh(cfg.secret, c.did, cfg.service, c.version, Credential(c.kind, c.app), c.jti, c.issued)
  }

  ghost predicate ProcPlaced(cfg: Config, w: World, p: Proc)
    requires w.hist != []
  {
    match p
    case Inserting(access, refresh) =>
      access.token.claims.scope == ACCESS_SCOPE && OwnRefresh(cfg, refresh.token)
    case RefreshFound(m, _) => Delivered(w, m.token.claims)
    case RefreshRead(m, _, _) => Delivered(w, m.token.claims)
    case _ => true
  }

  ghost predicate Placed(cfg: Config, w: World) {
    && OnceIn(w)
    && (forall m :: m in w.issued && m.token.claims.scope == REFRESH_SCOPE ==> Delivered(w, m.token.claims))
    && (forall pid :: pid in w.procs ==> ProcPlaced(cfg, w, w.procs[pid]))
  }

  /** Rows under used identifiers are never replaced, except by a handler that holds one. */
  lemma RowsStay(cfg: Config, w: World, a: Act, k: string)
    requires Enabled(cfg, w, a) && k in TablesAfter(w, a).tokens
    ensures (k in Now(w).tokens && TablesAfter(w, a).tokens[k] == Now(w).tokens[k]) ||
      (a.Insert? && w.procs[a.pid].refresh.token.claims.jti == k &&
       IsRowOf(TablesAfter(w, a).tokens[k], w.procs[a.pid].refresh.token.claims))
  {
  }

  lemma HeldStays(cfg: Config, w: World, a: Act, jti: string)
    requires Enabled(cfg, w, a) && jti in w.used && !Held(w.procs, jti)
    ensures !Held(ProcsAfter(cfg, w, a), jti)
  {
  }

  lemma DeliveredStays(cfg: Config, w: World, a: Act, c: Claims)
    requires Enabled(cfg, w, a) && Delivered(w, c)
    ensures Delivered(Next(cfg, w, a), c)
  {
    HeldStays(cfg, w, a, c.jti);
    if c.jti in TablesAfter(w, a).tokens {
      RowsStay(cfg, w, a, c.jti);
    }
  }

  lemma InsertDelivers(cfg: Config, w: World, a: Act)
    requires Enabled(cfg, w, a) && Placed(cfg, w) && a.Insert?
    ensures Delivered(Next(cfg, w, a), w.procs[a.pid].refresh.token.claims)
  {
    var c := w.procs[a.pid].refresh.token.claims;
    assert ProcPlaced(cfg, w, w.procs[a.pid]);
    if c.jti in TablesAfter(w, a).tokens {
      RowsStay(cfg, w, a, c.jti);
    }
  }

  lemma NextProcPlaced(cfg: Config, w: World, a: Act)
    requires Enabled(cfg, w, a) && Placed(cfg, w) && !a.Alter? && ProcAfter(cfg, w, a).Some?
    ensures ProcPlaced(cfg, Next(cfg, w, a), ProcAfter(cfg, w, a).value)
  {
    match a
    case BeginRefresh(_, m, _) =>
      DeliveredStays(cfg, w, a, m.token.claims);
    case ReadRefresh(pid) =>
      assert ProcPlaced(cfg, w, w.procs[pid]);
      DeliveredStays(cfg, w, a, w.procs[pid].m.token.claims);
    case _ =>
  }

  lemma ProcStaysPlaced(cfg: Config, w: World, a: Act, p: Proc)
    requires Enabled(cfg, w, a) && ProcPlaced(cfg, w, p)
    ensures ProcPlaced(cfg, Next(cfg, w, a), p)
  {
    if p.RefreshFound? || p.RefreshRead? {
      DeliveredStays(cfg, w, a, p.m.token.claims);
    }
  }

  lemma NextStaysPlaced(cfg: Config, w: World, a: Act)
    requires Enabled(cfg, w, a) && Placed(cfg, w)
    ensures Placed(cfg, Next(cfg, w, a))
  {
    hide Delivered, ProcPlaced;
    var w' := Next(cfg, w, a);
    NextStaysOnce(cfg, w, a);
    forall m | m in w'.issued && m.token.claims.scope == REFRESH_SCOPE ensures Delivered(w', m.token.claims) {
      if m in w.issued {
        DeliveredStays(cfg, w, a, m.token.claims);
      } else {
        InsertedIsRefresh(cfg, w, a, m);
        InsertDelivers(cfg, w, a);
      }
    }
    forall pid | pid in w'.procs ensures ProcPlaced(cfg, w', w'.procs[pid]) {
      if !a.Alter? && pid == a.pid {
        NextProcPlaced(cfg, w, a);
      } else {
        ProcStaysPlaced(cfg, w, a, w.procs[pid]);
      }
    }
  }

  lemma InsertedIsRefresh(cfg: Config, w: World, a: Act, m: Minted)
    requires Enabled(cfg, w, a) && Placed(cfg, w)
    requires m in IssuedAfter(cfg, w, a) && m !in w.issued && m.token.claims.scope == REFRESH_SCOPE
    ensures a.Insert? && m == w.procs[a.pid].refresh
  {
    assert ProcPlaced(cfg, w, w.procs[a.pid]);
  }

  lemma {:induction false} RunStaysPlaced(cfg: Config, acts: seq<Act>)
    requires Possible(cfg, acts)
    ensures Placed(cfg, After(cfg, acts))
  {
    if acts != [] {
      RunStaysPlaced(cfg, acts[..|acts| - 1]);
      NextStaysPlaced(cfg, After(cfg, acts[..|acts| - 1]), acts[|acts| - 1]);
    }
  }

  // ----- when nothing can be exchanged any more -----

  /** The identifier has been used up: no row, and no handler to insert one. */
  predicate Gone(w: World, jti: string)
    requires w.hist != []
  {
    jti !in Now(w).tokens && jti in w.used && !Held(w.procs, jti)
  }

  predicate Stale(w: World, did: string, version: int)
    requires w.hist != []
  {
    version < Version(Now(w), did)
  }

  predicate ProcBarred(w: World, p: Proc, did: string, name: string)
    requires w.hist != []
  {
    match p
    case Issuing(acct, c, _, _) => acct.did == did && c.app == name ==> Stale(w, did, acct.version)
    case Inserting(_, refresh) =>
      OfApp(refresh.token.claims, did, name) ==> Stale(w, did, refresh.token.claims.version)
    case RefreshFound(m, _) =>
      OfApp(m.token.claims, did, name) ==>
        Stale(w, did, m.token.claims.version) || Gone(w, m.token.claims.jti)
    case RefreshRead(m, _, _) => OfApp(m.token.claims, did, name) ==> Gone(w, m.token.claims.jti)
    case _ => true
  }

  /** No app password of the name, and no row or handler that could still lead to an exchange. */
  ghost predicate Barred(w: World, did: string, name: string) {
    && w.hist != [] && !HasApp(Now(w).apps, did, name)
    && (forall k :: k in Now(w).tokens && Now(w).tokens[k].did == did && Now(w).tokens[k].app == name ==>
      Stale(w, did, Now(w).tokens[k].version))
    && (forall pid :: pid in w.procs ==> ProcBarred(w, w.procs[pid], did, name))
  }

  /** The act exchanges a refresh token of a session of this app password. */
  predicate Exchanges(cfg: Config, w: World, a: Act, did: string, name: string) {
    && Enabled(cfg, w, a) && a.Consume? && ProcAfter(cfg, w, a).Some?
    && OfApp(w.procs[a.pid].m.token.claims, did, name)
  }

  lemma VersionRises(cfg: Config, w: World, a: Act, did: string)
    requires Enabled(cfg, w, a) && HistoryOk(w.hist)
    ensures Version(Now(w), did) <= Version(Now(Next(cfg, w, a)), did)
  {
    NextKeepsHistoryOk(cfg, w, a);
    HistoryExtends(cfg, w, a);
    hide Next, Enabled, Version;
    var h := Next(cfg, w, a).hist;
    assert h[|h| - 2] == Now(w);
  }

  lemma GoneStays(cfg: Config, w: World, a: Act, jti: string)
    requires Enabled(cfg, w, a) && Gone(w, jti)
    ensures Gone(Next(cfg, w, a), jti)
  {
    HeldStays(cfg, w, a, jti);
    if jti in TablesAfter(w, a).tokens {
      RowsStay(cfg, w, a, jti);
    }
  }

  lemma ProcStaysBarred(cfg: Config, w: World, a: Act, p: Proc, did: string, name: string)
    requires Enabled(cfg, w, a) && HistoryOk(w.hist) && ProcBarred(w, p, did, name)
    ensures ProcBarred(Next(cfg, w, a), p, did, name)
  {
    hide HistoryOk, Gone, Version;
    VersionRises(cfg, w, a, did);
    if (p.RefreshFound? || p.RefreshRead?) && Gone(w, p.m.token.claims.jti) {
      GoneStays(cfg, w, a, p.m.token.claims.jti);
    }
  }

  /** A login after the revocation does not come from this app password. */
  lemma LoginIsOther(cfg: Config, w: World, pid: nat, did: string, name: string)
    requires Enabled(cfg, w, VerifyLogin(pid)) && !HasApp(Now(w).apps, did, name) && name != ""
    requires ProcAfter(cfg, w, VerifyLogin(pid)).Some?
    ensures var p := ProcAfter(cfg, w, VerifyLogin(pid)).value; !(p.acct.did == did && p.credential.app == name)
  {
    var p, t := w.procs[pid], Now(w);
    VerifyFinds(AppsOf(t.apps, p.acct.did), p.password, cfg.verify);
    AppsOfSelects(t.apps, p.acct.did);
    assert forall ap :: ap in t.apps ==> !(ap.did == did && ap.name == name);
  }

  /** What a handler of a barred session goes on to is barred as well. */
  lemma NextProcBarred(cfg: Config, w: World, a: Act, did: string, name: string)
    requires Enabled(cfg, w, a) && !a.Alter? && ProcAfter(cfg, w, a).Some? && name != ""
    requires Placed(cfg, w) && Barred(w, did, name) && HistoryOk(w.hist) && Traced(w)
    ensures ProcBarred(w, ProcAfter(cfg, w, a).value, did, name)
  {
    hide HistoryOk, LoginOk, GrantOk, Once, HasApp;
    match a
    case VerifyLogin(pid) => LoginIsOther(cfg, w, pid, did, name);
    case BeginRefresh(_, m, _) => assert Delivered(w, m.token.claims);
    case Mint(pid, _, _) => assert ProcBarred(w, w.procs[pid], did, name);
    case ReadRefresh(pid) => assert ProcBarred(w, w.procs[pid], did, name);
    case Consume(pid, _) =>
      assert ProcBarred(w, w.procs[pid], did, name);
      assert ProcOk(w.hist, w.logins, w.procs[pid]);
    case _ =>
  }

  lemma RowsStayBarred(cfg: Config, w: World, a: Act, did: string, name: string, k: string)
    requires Enabled(cfg, w, a) && Barred(w, did, name) && HistoryOk(w.hist)
    requires k in TablesAfter(w, a).tokens
    requires TablesAfter(w, a).tokens[k].did == did && TablesAfter(w, a).tokens[k].app == name
    ensures Stale(Next(cfg, w, a), did, TablesAfter(w, a).tokens[k].version)
  {
    RowsStay(cfg, w, a, k);
    VersionRises(cfg, w, a, did);
    hide HistoryOk, HasApp, Version;
    if a.Insert? {
      assert ProcBarred(w, w.procs[a.pid], did, name);
    }
  }

  lemma NextStaysBarred(cfg: Config, w: World, a: Act, did: string, name: string)
    requires Enabled(cfg, w, a) && !Recreates(a, did, name) && name != ""
    requires Placed(cfg, w) && Barred(w, did, name) && HistoryOk(w.hist) && Traced(w)
    ensures Barred(Next(cfg, w, a), did, name) && !Exchanges(cfg, w, a, did, name)
  {
    var w' := Next(cfg, w, a);
    NextStaysWithoutApp(cfg, w, a, did, name);
    forall k | k in Now(w').tokens && Now(w').tokens[k].did == did && Now(w').tokens[k].app == name
      ensures Stale(w', did, Now(w').tokens[k].version)
    {
      RowsStayBarred(cfg, w, a, did, name, k);
    }
    hide HistoryOk, Traced, Placed, ProcBarred, HasApp, TablesAfter, LoginsAfter, IssuedAfter, GrantedAfter, Stale;
    forall pid | pid in w'.procs ensures ProcBarred(w', w'.procs[pid], did, name) {
      if !a.Alter? && pid == a.pid {
        NextProcBarred(cfg, w, a, did, name);
        ProcStaysBarred(cfg, w, a, w'.procs[pid], did, name);
      } else {
        ProcStaysBarred(cfg, w, a, w.procs[pid], did, name);
      }
    }
    BarredNotExchanged(cfg, w, a, did, name);
  }

  lemma BarredNotExchanged(cfg: Config, w: World, a: Act, did: string, name: string)
    requires Enabled(cfg, w, a) && Barred(w, did, name)
    ensures !Exchanges(cfg, w, a, did, name)
  {
    if a.Consume? {
      assert ProcBarred(w, w.procs[a.pid], did, name);
    }
  }

  // ----- exactly when an exchange is still possible -----

  /** A handler past its checks for this app password, with the account's current version: its
      row is still to be inserted. */
  predicate InFlight(w: World, pid: nat, did: string, name: string) {
    && w.hist != [] && pid in w.procs
    && match w.procs[pid]
      case Issuing(acct, c, _, _) => acct.did == did && c.app == name && acct.version == Version(Now(w), did)
      case Inserting(_, refresh) =>
        OfApp(refresh.token.claims, did, name) && refresh.token.claims.version == Version(Now(w), did)
      case _ => false
  }

  lemma ProcIsNotNewer(w: World, pid: nat, did: string)
    requires HistoryOk(w.hist) && Traced(w) && pid in w.procs
    ensures w.procs[pid].Issuing? && w.procs[pid].acct.did == did ==>
      w.procs[pid].acct.version <= Version(Now(w), did)
    ensures w.procs[pid].Inserting? && w.procs[pid].refresh.token.claims.did == did ==>
      w.procs[pid].refresh.token.claims.version <= Version(Now(w), did)
  {
    assert ProcOk(w.hist, w.logins, w.procs[pid]);
  }

  /** The revocation removes the rows of everything delivered. */
  lemma RevokedIsGone(cfg: Config, w: World, did: string, name: string, c: Claims)
    requires w.hist != [] && Delivered(w, c) && HasApp(Now(w).apps, did, name) && OfApp(c, did, name)
    ensures Gone(Next(cfg, w, Alter(RevokeApp(did, name))), c.jti)
  {
  }

  lemma RevocationLeaves(cfg: Config, w: World, did: string, name: string)
    requires w.hist != []
    ensures var w' := Next(cfg, w, Alter(RevokeApp(did, name)));
      w'.hist != [] && w'.procs == w.procs && Version(Now(w'), did) == Version(Now(w), did)
  {
  }

  lemma RevokedProcBarred(cfg: Config, w: World, pid: nat, did: string, name: string)
    requires HistoryOk(w.hist) && Traced(w) && Placed(cfg, w) && HasApp(Now(w).apps, did, name) && pid in w.procs
    requires !InFlight(Next(cfg, w, Alter(RevokeApp(did, name))), pid, did, name)
    ensures ProcBarred(Next(cfg, w, Alter(RevokeApp(did, name))), w.procs[pid], did, name)
  {
    var p := w.procs[pid];
    ProcIsNotNewer(w, pid, did);
    assert ProcPlaced(cfg, w, p);
    RevocationLeaves(cfg, w, did, name);
    hide HistoryOk, Traced, Placed, Delivered, HasApp, Gone, Next, Version;
    if (p.RefreshFound? || p.RefreshRead?) && OfApp(p.m.token.claims, did, name) {
      RevokedIsGone(cfg, w, did, name, p.m.token.claims);
    }
  }

  /** With no handler in flight, a revocation that takes effect bars every session of its own. */
  lemma RevocationBars(cfg: Config, w: World, did: string, name: string)
    requires HistoryOk(w.hist) && Traced(w) && Placed(cfg, w) && HasApp(Now(w).apps, did, name)
    requires forall pid :: !InFlight(Next(cfg, w, Alter(RevokeApp(did, name))), pid, did, name)
    ensures Barred(Next(cfg, w, Alter(RevokeApp(did, name))), did, name)
  {
    var w' := Next(cfg, w, Alter(RevokeApp(did, name)));
    RevokeRemoves(Now(w), did, name);
    forall pid | pid in w'.procs ensures ProcBarred(w', w'.procs[pid], did, name) {
      RevokedProcBarred(cfg, w, pid, did, name);
    }
  }

  /** The run goes on from acts to more, and the app password is not created again. */
  ghost predicate GoesOn(cfg: Config, acts: seq<Act>, more: seq<Act>, did: string, name: string) {
    && acts <= more && Possible(cfg, more)
    && forall j :: |acts| <= j < |more| ==> !Recreates(more[j], did, name)
  }

  ghost predicate ExchangesAt(cfg: Config, acts: seq<Act>, j: nat, did: string, name: string) {
    j < |acts| && Possible(cfg, acts[..j]) && Exchanges(cfg, After(cfg, acts[..j]), acts[j], did, name)
  }

  ghost predicate ExchangedLater(cfg: Config, acts: seq<Act>, more: seq<Act>, did: string, name: string) {
    GoesOn(cfg, acts, more, did, name) && exists j :: |acts| <= j < |more| && ExchangesAt(cfg, more, j, did, name)
  }

  lemma {:induction false} BarredForGood(cfg: Config, acts: seq<Act>, more: seq<Act>, did: string, name: string)
    requires GoesOn(cfg, acts, more, did, name) && name != ""
    requires Possible(cfg, acts) && Barred(After(cfg, acts), did, name)
    ensures Barred(After(cfg, more), did, name)
    ensures forall j :: |acts| <= j < |more| ==> !ExchangesAt(cfg, more, j, did, name)
  {
    hide *;
    GoesOnIs(cfg, acts, more, did, name);
    if |more| == |acts| {
      assert more == acts;
    } else {
      var prior := more[..|more| - 1];
      GoesOnBefore(cfg, acts, more, did, name);
      BarredForGood(cfg, acts, prior, did, name);
      LastStaysBarred(cfg, more, did, name);
      forall j | |acts| <= j < |more| ensures !ExchangesAt(cfg, more, j, did, name) {
        if j < |prior| {
          ExchangesBefore(cfg, more, j, did, name);
          assert !ExchangesAt(cfg, prior, j, did, name);
        }
      }
    }
  }

  lemma GoesOnIs(cfg: Config, acts: seq<Act>, more: seq<Act>, did: string, name: string)
    requires GoesOn(cfg, acts, more, did, name)
    ensures acts <= more && Possible(cfg, more)
  {
  }

  lemma GoesOnBefore(cfg: Config, acts: seq<Act>, more: seq<Act>, did: string, name: string)
    requires GoesOn(cfg, acts, more, did, name) && |acts| < |more|
    ensures GoesOn(cfg, acts, more[..|more| - 1], did, name) && Possible(cfg, more)
    ensures Possible(cfg, more[..|more| - 1]) && !Recreates(more[|more| - 1], did, name)
  {
    hide Enabled, Next, Recreates;
  }

  lemma ExchangesBefore(cfg: Config, acts: seq<Act>, j: nat, did: string, name: string)
    requires j < |acts| - 1
    ensures ExchangesAt(cfg, acts, j, did, name) <==> ExchangesAt(cfg, acts[..|acts| - 1], j, did, name)
  {
    hide Possible, Exchanges;
    assert acts[..|acts| - 1][..j] == acts[..j];
  }

  lemma LastStaysBarred(cfg: Config, acts: seq<Act>, did: string, name: string)
    requires acts != [] && Possible(cfg, acts) && name != "" && !Recreates(acts[|acts| - 1], did, name)
    requires Barred(After(cfg, acts[..|acts| - 1]), did, name)
    ensures Barred(After(cfg, acts), did, name) && !ExchangesAt(cfg, acts, |acts| - 1, did, name)
  {
    RunStaysTraced(cfg, acts[..|acts| - 1]);
    RunStaysPlaced(cfg, acts[..|acts| - 1]);
    hide Barred, Traced, HistoryOk, Placed, Next, Enabled, Exchanges;
    NextStaysBarred(cfg, After(cfg, acts[..|acts| - 1]), acts[|acts| - 1], did, name);
  }

  // ----- and how it then happens -----

  lemma OneMoreAct(cfg: Config, acts: seq<Act>, a: Act)
    requires Possible(cfg, acts) && Enabled(cfg, After(cfg, acts), a)
    ensures Possible(cfg, acts + [a]) && After(cfg, acts + [a]) == Next(cfg, After(cfg, acts), a)
    ensures (acts + [a])[..|acts|] == acts
  {
    assert (acts + [a])[..|acts|] == acts;
  }

  /** A client holds this refresh token, its row is stored and lasts beyond `now`, and the
      account is active in the token's version. */
  ghost predicate Ready(cfg: Config, w: World, m: Minted, now: string) {
    var c := m.token.claims;
    && w.hist != [] && m in w.issued && OwnRefresh(cfg, m.token) && c.version >= 1 && c.kind != ""
    && c.did in Now(w).accounts && Now(w).accounts[c.did].status == ACTIVE
    && Now(w).accounts[c.did].version == c.version
    && c.jti in Now(w).tokens && IsRowOf(Now(w).tokens[c.jti], c)
    && Consumable(Now(w), c.jti, c.did, c.version, now)
  }

  function ExchangeBy(pid: nat, m: Minted, now: string): seq<Act> {
    [BeginRefresh(pid, m, m.token.claims.issued), ReadRefresh(pid), Consume(pid, now)]
  }

  lemma ReadyExchanges(cfg: Config, acts: seq<Act>, pid: nat, m: Minted, now: string)
    requires Possible(cfg, acts) && Ready(cfg, After(cfg, acts), m, now) && pid !in After(cfg, acts).procs
    ensures var more := acts + ExchangeBy(pid, m, now); var c := m.token.claims;
      && Possible(cfg, more) && ExchangesAt(cfg, more, |acts| + 2, c.did, c.app)
      && After(cfg, more).exchanged == After(cfg, acts).exchanged + [c.jti] && After(cfg, more).hist != []
      && Now(After(cfg, more)).apps == Now(After(cfg, acts)).apps
  {
    var w0, c := After(cfg, acts), m.token.claims;
    var begin, read, consume := BeginRefresh(pid, m, c.issued), ReadRefresh(pid), Consume(pid, now);
    hide Possible, After, Next, Enabled, Ready, Refreshing, Checked;
    ReadyBegins(cfg, w0, pid, m, now);
    OneMoreAct(cfg, acts, begin);
    var w1 := Next(cfg, w0, begin);
    FoundReads(cfg, w1, pid, m, now);
    OneMoreAct(cfg, acts + [begin], read);
    var w2 := Next(cfg, w1, read);
    CheckedConsumes(cfg, w2, pid, m, now);
    OneMoreAct(cfg, acts + [begin] + [read], consume);
    var more := acts + [begin] + [read] + [consume];
    assert more == acts + ExchangeBy(pid, m, now) && more[..|acts| + 2] == acts + [begin] + [read];
    assert more[|acts| + 2] == consume;
  }

  /** The refresh handler has found the token's row. */
  ghost predicate Refreshing(cfg: Config, w: World, pid: nat, m: Minted, now: string) {
    && Ready(cfg, w, m, now) && pid in w.procs && w.procs[pid].RefreshFound?
    && w.procs[pid].m == m && w.procs[pid].row == Now(w).tokens[m.token.claims.jti]
  }

  /** It has read the account and is about to consume the row. */
  ghost predicate Checked(cfg: Config, w: World, pid: nat, m: Minted, now: string) {
    Ready(cfg, w, m, now) && pid in w.procs && w.procs[pid].RefreshRead? && w.procs[pid].m == m
  }

  lemma ReadyBegins(cfg: Config, w: World, pid: nat, m: Minted, now: string)
    requires Ready(cfg, w, m, now) && pid !in w.procs
    ensures var a := BeginRefresh(pid, m, m.token.claims.issued);
      && Enabled(cfg, w, a)
      && var w' := Next(cfg, w, a);
      Refreshing(cfg, w', pid, m, now) && Now(w') == Now(w) && w'.exchanged == w.exchanged
  {
    var c := m.token.claims;
    RefreshRoundTrip(cfg.secret, c.did, cfg.service, c.version, Credential(c.kind, c.app), c.jti, c.issued,
      cfg.secret, REFRESH_SCOPE, c.issued);
  }

  lemma FoundReads(cfg: Config, w: World, pid: nat, m: Minted, now: string)
    requires Refreshing(cfg, w, pid, m, now)
    ensures Enabled(cfg, w, ReadRefresh(pid))
    ensures var w' := Next(cfg, w, ReadRefresh(pid));
      Checked(cfg, w', pid, m, now) && Now(w') == Now(w) && w'.exchanged == w.exchanged
  {
  }

  lemma CheckedConsumes(cfg: Config, w: World, pid: nat, m: Minted, now: string)
    requires Checked(cfg, w, pid, m, now)
    ensures var a, c := Consume(pid, now), m.token.claims;
      && Exchanges(cfg, w, a, c.did, c.app)
      && var w' := Next(cfg, w, a);
      w'.hist != [] && Now(w').apps == Now(w).apps && w'.exchanged == w.exchanged + [c.jti]
  {
  }

  /** A token about to be inserted is the server's own, under an unused identifier. */
  lemma InsertingIsSound(cfg: Config, acts: seq<Act>, pid: nat)
    requires Possible(cfg, acts) && pid in After(cfg, acts).procs && After(cfg, acts).procs[pid].Inserting?
    ensures var w, m := After(cfg, acts), After(cfg, acts).procs[pid].refresh;
      && w.hist != [] && OwnRefresh(cfg, m.token) && m.token.claims.jti !in Now(w).tokens
      && m.token.claims.version >= 1 && m.token.claims.kind != ""
  {
    RunStaysTraced(cfg, acts);
    RunStaysPlaced(cfg, acts);
    var w, m := After(cfg, acts), After(cfg, acts).procs[pid].refresh;
    assert ProcPlaced(cfg, w, w.procs[pid]) && ProcOk(w.hist, w.logins, w.procs[pid]);
    assert MintOk(w.hist, w.logins, m) && LoginOk(w.hist, w.logins[m.login]);
    assert TablesOk(w.hist[m.readAt]);
  }

  /** The account is active in this version. */
  predicate ActiveIn(w: World, did: string, version: int) {
    && w.hist != [] && did in Now(w).accounts
    && Now(w).accounts[did].status == ACTIVE && Now(w).accounts[did].version == version
  }

  lemma InsertMakesReady(cfg: Config, acts: seq<Act>, pid: nat, now: string, expires: string)
    requires Possible(cfg, acts) && pid in After(cfg, acts).procs && After(cfg, acts).procs[pid].Inserting?
    requires var c := After(cfg, acts).procs[pid].refresh.token.claims; ActiveIn(After(cfg, acts), c.did, c.version)
    requires Order.Less(now, expires)
    ensures var w, m, more := After(cfg, acts), After(cfg, acts).procs[pid].refresh, acts + [Insert(pid, now, expires)];
      && Possible(cfg, more) && Ready(cfg, After(cfg, more), m, now) && pid !in After(cfg, more).procs
      && After(cfg, more).exchanged == w.exchanged && After(cfg, more).hist != []
      && Now(After(cfg, more)).apps == Now(w).apps
  {
    InsertingIsSound(cfg, acts, pid);
    var w := After(cfg, acts);
    hide Possible, After, OwnRefresh;
    OneMoreAct(cfg, acts, Insert(pid, now, expires));
    var c := w.procs[pid].refresh.token.claims;
    assert c.jti !in Pruned(Now(w).tokens, c.did, now);
  }

  function InsertAndExchange(pid: nat, m: Minted, now: string, expires: string): seq<Act> {
    [Insert(pid, now, expires)] + ExchangeBy(pid, m, now)
  }

  /** A handler about to insert its row does, and its client exchanges the token. */
  lemma InsertingExchanges(cfg: Config, acts: seq<Act>, pid: nat, now: string, expires: string)
    requires Possible(cfg, acts) && pid in After(cfg, acts).procs && After(cfg, acts).procs[pid].Inserting?
    requires var c := After(cfg, acts).procs[pid].refresh.token.claims; ActiveIn(After(cfg, acts), c.did, c.version)
    requires Order.Less(now, expires)
    ensures var w := After(cfg, acts);
      var m := w.procs[pid].refresh;
      var more := acts + InsertAndExchange(pid, m, now, expires);
      && Possible(cfg, more) && ExchangesAt(cfg, more, |acts| + 3, m.token.claims.did, m.token.claims.app)
      && After(cfg, more).exchanged == w.exchanged + [m.token.claims.jti]
      && After(cfg, more).hist != [] && Now(After(cfg, more)).apps == Now(w).apps
  {
    hide Possible, After, Ready, ActiveIn, Exchanges;
    InsertMakesReady(cfg, acts, pid, now, expires);
    var m, inserted := After(cfg, acts).procs[pid].refresh, acts + [Insert(pid, now, expires)];
    ReadyExchanges(cfg, inserted, pid, m, now);
    assert acts + InsertAndExchange(pid, m, now, expires) == inserted + ExchangeBy(pid, m, now);
  }

  lemma {:induction false} FreshText(used: set<string>) returns (text: string)
    ensures text !in used
  {
    var n := LongerThanAll(used);
    text := seq(n, i => 'a');
  }

  lemma {:induction false} LongerThanAll(used: set<string>) returns (n: nat)
    ensures forall s :: s in used ==> |s| < n
  {
    n := 0;
    if used != {} {
      var s :| s in used;
      n := LongerThanAll(used - {s});
      n := if |s| < n then n else |s| + 1;
    }
  }

  /** Activating the account, unless it is active, changes neither its version nor the handler. */
  lemma ActivateKeeps(cfg: Config, acts: seq<Act>, pid: nat, did: string, name: string)
    requires Possible(cfg, acts) && InFlight(After(cfg, acts), pid, did, name)
    ensures var more, w := acts + [Alter(Activate(did))], After(cfg, acts);
      && Possible(cfg, more) && After(cfg, more).procs == w.procs && After(cfg, more).used == w.used
      && InFlight(After(cfg, more), pid, did, name)
      && ActiveIn(After(cfg, more), did, Version(Now(w), did))
      && Version(Now(After(cfg, more)), did) == Version(Now(w), did)
  {
    RunStaysTraced(cfg, acts);
    hide *;
    InFlightExists(After(cfg, acts), pid, did, name);
    ActivateLeaves(cfg, After(cfg, acts), pid, did, name);
    OneMoreAct(cfg, acts, Alter(Activate(did)));
  }

  lemma ActivateLeaves(cfg: Config, w: World, pid: nat, did: string, name: string)
    requires InFlight(w, pid, did, name) && did in Now(w).accounts
    ensures Enabled(cfg, w, Alter(Activate(did)))
    ensures var w' := Next(cfg, w, Alter(Activate(did)));
      && w'.procs == w.procs && w'.used == w.used && InFlight(w', pid, did, name)
      && ActiveIn(w', did, Version(Now(w), did)) && Version(Now(w'), did) == Version(Now(w), did)
  {
  }

  lemma InFlightExists(w: World, pid: nat, did: string, name: string)
    requires InFlight(w, pid, did, name) && HistoryOk(w.hist) && Traced(w)
    ensures did in Now(w).accounts
  {
    assert ProcOk(w.hist, w.logins, w.procs[pid]);
    assert TablesOk(w.hist[|w.hist| - 1]);
  }

  /** With a new identifier the handler comes to the point of inserting. */
  lemma MintMakesInserting(cfg: Config, acts: seq<Act>, pid: nat, did: string, name: string) returns (jti: string)
    requires Possible(cfg, acts) && InFlight(After(cfg, acts), pid, did, name) && After(cfg, acts).procs[pid].Issuing?
    requires ActiveIn(After(cfg, acts), did, Version(Now(After(cfg, acts)), did))
    ensures var more, w := acts + [Mint(pid, jti, 0)], After(cfg, acts);
      && Possible(cfg, more) && InFlight(After(cfg, more), pid, did, name) && After(cfg, more).procs[pid].Inserting?
      && ActiveIn(After(cfg, more), did, Version(Now(After(cfg, more)), did))
  {
    jti := FreshText(After(cfg, acts).used);
    OneMoreAct(cfg, acts, Mint(pid, jti, 0));
  }

  lemma InFlightExchanges(cfg: Config, acts: seq<Act>, pid: nat, did: string, name: string, now: string,
      expires: string) returns (more: seq<Act>)
    requires Possible(cfg, acts) && InFlight(After(cfg, acts), pid, did, name) && Order.Less(now, expires)
    ensures ExchangedLater(cfg, acts, more, did, name)
  {
    hide Possible, After, ActiveIn, Version, Exchanges, ExchangesAt;
    ActivateKeeps(cfg, acts, pid, did, name);
    more := acts + [Alter(Activate(did))];
    if After(cfg, more).procs[pid].Issuing? {
      var jti := MintMakesInserting(cfg, more, pid, did, name);
      more := more + [Mint(pid, jti, 0)];
    }
    InsertingExchanges(cfg, more, pid, now, expires);
    ghost var last := |more| + 3;
    more := more + InsertAndExchange(pid, After(cfg, more).procs[pid].refresh, now, expires);
    assert ExchangesAt(cfg, more, last, did, name);
  }

  /** Until the app password is created anew, one of its sessions can still be exchanged after a
      revocation if and only if some handler was in flight: past its checks, with the account's
      current version, and its refresh row still to be inserted. */
  lemma RevokedExchangeIff(cfg: Config, acts: seq<Act>, did: string, name: string)
    requires Possible(cfg, acts) && acts != [] && acts[|acts| - 1] == Alter(RevokeApp(did, name))
    requires Possible(cfg, acts[..|acts| - 1]) && After(cfg, acts[..|acts| - 1]).hist != []
    requires HasApp(Now(After(cfg, acts[..|acts| - 1])).apps, did, name)
    ensures (exists more :: ExchangedLater(cfg, acts, more, did, name)) <==>
      exists pid :: InFlight(After(cfg, acts), pid, did, name)
  {
    hide InFlight, Next, Enabled, ExchangesAt, HasApp;
    if pid :| InFlight(After(cfg, acts), pid, did, name) {
      var now, expires := OneDay();
      var more := InFlightExchanges(cfg, acts, pid, did, name, now, expires);
    } else {
      RevokedBarred(cfg, acts, did, name);
      hide Barred, Possible, After;
      forall more ensures !ExchangedLater(cfg, acts, more, did, name) {
        if GoesOn(cfg, acts, more, did, name) {
          BarredForGood(cfg, acts, more, did, name);
        }
      }
    }
  }

  lemma OneDay() returns (now: string, expires: string)
    ensures Order.Less(now, expires)
  {
    hide Rfc3339;
    var start, end := Instant(2000, 1, 1, 0, 0, 0, 0), Instant(2000, 1, 2, 0, 0, 0, 0);
    ExpiryTextOrder(start, end);
    now, expires := Rfc3339(start), Rfc3339(end);
  }

  lemma RevokedBarred(cfg: Config, acts: seq<Act>, did: string, name: string)
    requires Possible(cfg, acts) && acts != [] && acts[|acts| - 1] == Alter(RevokeApp(did, name))
    requires Possible(cfg, acts[..|acts| - 1]) && After(cfg, acts[..|acts| - 1]).hist != []
    requires HasApp(Now(After(cfg, acts[..|acts| - 1])).apps, did, name)
    requires forall pid :: !InFlight(After(cfg, acts), pid, did, name)
    ensures Barred(After(cfg, acts), did, name) && name != ""
  {
    var w := After(cfg, acts[..|acts| - 1]);
    RunStaysTraced(cfg, acts[..|acts| - 1]);
    RunStaysPlaced(cfg, acts[..|acts| - 1]);
    assert TablesOk(w.hist[|w.hist| - 1]);
    assert After(cfg, acts) == Next(cfg, w, acts[|acts| - 1]);
    hide Next, InFlight, Traced, HistoryOk, Placed, Barred;
    RevocationBars(cfg, w, did, name);
  }

  // ----- a login in flight -----

  /** An account with one app password, and a login with it as far as its minted tokens. */
  function LoginSoFar(a: Account, ap: AppPassword, password: string, jti: string, at: int): seq<Act> {
    [Alter(Create(a)), Alter(AddApp(ap)), BeginLogin(0, a.did, password), VerifyLogin(0), Mint(0, jti, at)]
  }

  ghost predicate OneApp(cfg: Config, a: Account, ap: AppPassword, password: string) {
    && a.version >= 1 && a.status == ACTIVE && ap.did == a.did && ap.name != ""
    && !cfg.verify(password, a.passwordHash) && cfg.verify(password, ap.passwordHash)
  }

  lemma AppStored(cfg: Config, a: Account, ap: AppPassword, password: string)
    requires OneApp(cfg, a, ap, password)
    ensures var acts := [Alter(Create(a)), Alter(AddApp(ap))];
      && Possible(cfg, acts)
      && After(cfg, acts) ==
        World([Tables(map[], map[], []), Tables(map[a.did := a], map[], []), Tables(map[a.did := a], map[], [ap])],
          map[], [], {}, {}, {}, [])
  {
    var create, add := Alter(Create(a)), Alter(AddApp(ap));
    OneMoreAct(cfg, [], create);
    assert Added(Tables(map[], map[], []), a) == Tables(map[a.did := a], map[], []);
    assert After(cfg, []) == START;
    var t := Tables(map[a.did := a], map[], []);
    assert After(cfg, [create]).hist == [Tables(map[], map[], []), t];
    assert [] + [ap] == [ap] && Changed(t, AddApp(ap)) == Tables(map[a.did := a], map[], [ap]);
    OneMoreAct(cfg, [create], add);
    assert [create] + [add] == [create, add] && [] + [create] == [create];
  }

  lemma PasswordVerifies(cfg: Config, w: World, a: Account, ap: AppPassword, password: string)
    requires OneApp(cfg, a, ap, password) && w.hist != [] && Now(w) == Tables(map[a.did := a], map[], [ap])
    requires w.procs == map[0 := LoginRead(a, password, 2)]
    ensures Enabled(cfg, w, VerifyLogin(0))
    ensures ProcAfter(cfg, w, VerifyLogin(0)) == Some(Issuing(a, CredentialOf(Some(ap)), |w.logins|, 2))
  {
    assert [ap][..0] == [] && AppsOf([], a.did) == [];
    assert AppsOf([ap], a.did) == [ap];
  }

  lemma LoginGoesSoFar(cfg: Config, a: Account, ap: AppPassword, password: string, jti: string, at: int)
    requires OneApp(cfg, a, ap, password)
    ensures var acts := LoginSoFar(a, ap, password, jti, at);
      && Possible(cfg, acts)
      && var w := After(cfg, acts);
      && w.hist != [] && Now(w) == Tables(map[a.did := a], map[], [ap]) && w.exchanged == []
      && w.procs.Keys == {0} && w.procs[0].Inserting? && OfApp(w.procs[0].refresh.token.claims, a.did, ap.name)
      && w.procs[0].refresh.token.claims.version == a.version && w.procs[0].refresh.token.claims.jti == jti
  {
    AppStored(cfg, a, ap, password);
    hide Possible, After;
    var acts := [Alter(Create(a)), Alter(AddApp(ap))];
    OneMoreAct(cfg, acts, BeginLogin(0, a.did, password));
    acts := acts + [BeginLogin(0, a.did, password)];
    PasswordVerifies(cfg, After(cfg, acts), a, ap, password);
    LoginMints(cfg, acts, a, ap, jti, at);
    assert acts + [VerifyLogin(0)] + [Mint(0, jti, at)] == LoginSoFar(a, ap, password, jti, at);
  }

  lemma LoginMints(cfg: Config, acts: seq<Act>, a: Account, ap: AppPassword, jti: string, at: int)
    requires Possible(cfg, acts)
    requires var w := After(cfg, acts);
      && w.hist != [] && Now(w) == Tables(map[a.did := a], map[], [ap]) && w.exchanged == [] && w.used == {}
      && w.procs.Keys == {0} && Enabled(cfg, w, VerifyLogin(0))
      && ProcAfter(cfg, w, VerifyLogin(0)) == Some(Issuing(a, CredentialOf(Some(ap)), |w.logins|, 2))
    ensures var more := acts + [VerifyLogin(0)] + [Mint(0, jti, at)];
      && Possible(cfg, more)
      && var w := After(cfg, more);
      && w.hist != [] && Now(w) == Tables(map[a.did := a], map[], [ap]) && w.exchanged == []
      && w.procs.Keys == {0} && w.procs[0].Inserting? && OfApp(w.procs[0].refresh.token.claims, a.did, ap.name)
      && w.procs[0].refresh.token.claims.version == a.version && w.procs[0].refresh.token.claims.jti == jti
  {
    hide Possible, After;
    OneMoreAct(cfg, acts, VerifyLogin(0));
    OneMoreAct(cfg, acts + [VerifyLogin(0)], Mint(0, jti, at));
  }

  /** It happens: the app password is revoked between the minting of a login's tokens and the
      insertion of their row, and the refresh token is exchanged although no such app password
      is stored any more. */
  lemma ExchangedAfterRevocation(cfg: Config, a: Account, ap: AppPassword, password: string, jti: string, at: int,
      now: string, expires: string) returns (acts: seq<Act>)
    requires OneApp(cfg, a, ap, password) && Order.Less(now, expires)
    ensures |acts| == 10 && Possible(cfg, acts)
    ensures acts[..6] == LoginSoFar(a, ap, password, jti, at) + [Alter(RevokeApp(a.did, ap.name))]
    ensures acts[6] == Insert(0, now, expires) && acts[9] == Consume(0, now)
    ensures After(cfg, acts).exchanged == [jti]
    ensures After(cfg, acts).hist != [] && Now(After(cfg, acts)).apps == []
  {
    var login, revoke := LoginSoFar(a, ap, password, jti, at), Alter(RevokeApp(a.did, ap.name));
    LoginGoesSoFar(cfg, a, ap, password, jti, at);
    hide Possible, After;
    OneMoreAct(cfg, login, revoke);
    var revoked := login + [revoke];
    assert [ap][..0] == [] && WithoutApp([], a.did, ap.name) == [];
    assert Now(After(cfg, revoked)).apps == [];
    InsertingExchanges(cfg, revoked, 0, now, expires);
    acts := revoked + InsertAndExchange(0, After(cfg, revoked).procs[0].refresh, now, expires);
  }
}
