/** Logins, refreshes and requests interleaved with one another and with every change of an
    account, its status, its password and its app passwords. No account is ever deleted. */
module SessionRuns {
  import opened Common
  import opened Auth
  import opened Accounts
  import opened Sessions

  datatype Config = Config(secret: string, service: string, verify: (string, string) -> bool)

  /** What a login was: the credential it earned, from which app password if any, when it was
      verified, and when it had read the account. */
  datatype Login = Login(did: string, credential: Credential, app: Option<AppPassword>, at: nat, readAt: nat)

  /** A token, the login it descends from, and when the handler that minted it read the account. */
  datatype Minted = Minted(token: Token, login: nat, readAt: nat)

  /** A handler between two of its statements. */
  datatype Proc =
    | LoginRead(acct: Account, password: string, readAt: nat)
    | RefreshFound(m: Minted, row: RefreshRow)
    | RefreshRead(m: Minted, acct: Account, readAt: nat)
    | Issuing(acct: Account, credential: Credential, login: nat, readAt: nat)
    | Inserting(access: Minted, refresh: Minted)
    | Request(m: Minted, gate: Gate, began: nat)
    | RequestRead(m: Minted, gate: Gate, began: nat, acct: Account, readAt: nat)

  /** A request let through, with when it began, read the account and read the app passwords. */
  datatype Grant = Grant(m: Minted, gate: Gate, began: nat, acct: Account, readAt: nat, appsAt: nat)

  /** `hist[i]` are the tables after i acts; the last are the current ones. */
  datatype World = World(
    hist: seq<Tables>, procs: map<nat, Proc>, logins: seq<Login>, issued: set<Minted>, granted: set<Grant>,
    used: set<string>, exchanged: seq<string>)

  /** Statements of other handlers. */
  datatype Change =
    | Create(account: Account)
    | SetPassword(did: string, hash: string)
    | SetStatus(did: string, status: string)
    | Activate(did: string)
    | DeleteTokens(did: string)
    | Logout(key: string)
    | AddApp(ap: AppPassword)
    | RevokeApp(did: string, name: string)

  datatype Act =
    | Alter(change: Change)
    | BeginLogin(pid: nat, did: string, password: string)
    | VerifyLogin(pid: nat)
    | Mint(pid: nat, jti: string, at: int)
    | Insert(pid: nat, now: string, expires: string)
    | BeginRefresh(pid: nat, m: Minted, at: int)
    | ReadRefresh(pid: nat)
    | Consume(pid: nat, now: string)
    | BeginRequest(pid: nat, m: Minted, gate: Gate, at: int)
    | ReadRequest(pid: nat)
    | Decide(pid: nat)

  /** Creating an account or an app password that exists is refused, and so is changing an
      account that does not. */
  function Changed(t: Tables, ch: Change): Tables {
    match ch
    case Create(a) =>
      if a.did in t.accounts || exists d :: d in t.accounts && t.accounts[d].handle == a.handle then t else Added(t, a)
    case SetPassword(did, hash) => if did in t.accounts then Bumped(t, did, hash, t.accounts[did].status) else t
    case SetStatus(did, status) => if did in t.accounts then Bumped(t, did, t.accounts[did].passwordHash, status) else t
    case Activate(did) => if did in t.accounts then Activated(t, did) else t
    case DeleteTokens(did) => WithoutTokensOf(t, did)
    case Logout(key) => WithoutToken(t, key)
    case AddApp(ap) => if ap.name == "" || HasApp(t.apps, ap.did, ap.name) then t else t.(apps := t.apps + [ap])
    case RevokeApp(did, name) => if HasApp(t.apps, did, name) then Accounts.Revoked(t, did, name) else t
  }

  function Now(w: World): Tables
    requires w.hist != []
  {
    w.hist[|w.hist| - 1]
  }

  function ParsedOf(m: Minted): Parsed {
    var c := m.token.claims;
    Parsed(c.did, c.jti, c.scope, c.version, c.kind, c.app)
  }

  predicate At(w: World, pid: nat) {
    pid in w.procs
  }

  /** A minted identifier has never been used. Clients hold issued tokens only. */
  predicate Enabled(cfg: Config, w: World, a: Act) {
    w.hist != [] &&
    match a
    case Alter(_) => true
    case BeginLogin(pid, did, _) => !At(w, pid) && did in Now(w).accounts
    case VerifyLogin(pid) => At(w, pid) && w.procs[pid].LoginRead?
    case Mint(pid, jti, _) => At(w, pid) && w.procs[pid].Issuing? && jti !in w.used
    case Insert(pid, _, _) => At(w, pid) && w.procs[pid].Inserting?
    case BeginRefresh(pid, m, at) =>
      && !At(w, pid) && m in w.issued && Parse(cfg.secret, m.token, REFRESH_SCOPE, at).Ok?
      && m.token.claims.jti in Now(w).tokens
    case ReadRefresh(pid) => At(w, pid) && w.procs[pid].RefreshFound?
    case Consume(pid, _) => At(w, pid) && w.procs[pid].RefreshRead?
    case BeginRequest(pid, m, _, at) => !At(w, pid) && m in w.issued && Parse(cfg.secret, m.token, ACCESS_SCOPE, at).Ok?
    case ReadRequest(pid) => At(w, pid) && w.procs[pid].Request?
    case Decide(pid) => At(w, pid) && w.procs[pid].RequestRead?
  }

  /** The tables after an act. */
  function TablesAfter(w: World, a: Act): Tables
    requires w.hist != []
    requires a.Insert? ==> At(w, a.pid) && w.procs[a.pid].Inserting?
    requires a.Consume? ==> At(w, a.pid) && w.procs[a.pid].RefreshRead?
  {
    var t := Now(w);
    match a
    case Alter(ch) => Changed(t, ch)
    case Insert(pid, now, expires) =>
      var c := w.procs[pid].refresh.token.claims;
      var kept := Pruned(t.tokens, c.did, now);
      t.(tokens := if c.jti in kept then kept else kept[c.jti := RefreshRow(c.did, expires, c.version, c.kind, c.app)])
    case Consume(pid, now) =>
      var c := w.procs[pid].m.token.claims;
      if Consumable(t, c.jti, c.did, c.version, now) then WithoutToken(t, c.jti) else t
    case _ => t
  }

  /** The app password whose login this is, if the main password does not match. */
  function AppUsed(cfg: Config, acct: Account, apps: seq<AppPassword>, password: string): Option<AppPassword> {
    if cfg.verify(password, acct.passwordHash) then None
    else VerifyAppPassword(AppsOf(apps, acct.did), password, cfg.verify)
  }

  /** What the handler is doing next, or nothing when it is done. */
  function ProcAfter(cfg: Config, w: World, a: Act): Option<Proc>
    requires Enabled(cfg, w, a) && !a.Alter?
  {
    var t, time := Now(w), |w.hist| - 1;
    match a
    case BeginLogin(_, did, password) => Some(LoginRead(t.accounts[did], password, time))
    case VerifyLogin(pid) =>
      var p := w.procs[pid];
      var c := Verified(p.acct, AppsOf(t.apps, p.acct.did), p.password, cfg.verify);
      if c.None? || p.acct.status == TAKEN_DOWN then None
      else Some(Issuing(p.acct, c.value, |w.logins|, p.readAt))
    case Mint(pid, jti, at) =>
      var p := w.procs[pid];
      Some(Inserting(
        Minted(IssueAccess(cfg.secret, p.acct.did, cfg.service, p.acct.version, p.credential, at), p.login, p.readAt),
        Minted(IssueRefresh(cfg.secret, p.acct.did, cfg.service, p.acct.version, p.credential, jti, at),
            p.login, p.readAt)))
    case Insert(_, _, _) => None
    case BeginRefresh(_, m, _) => Some(RefreshFound(m, t.tokens[m.token.claims.jti]))
    case ReadRefresh(pid) =>
      var p := w.procs[pid];
      var did := p.m.token.claims.did;
      if did in t.accounts && RefreshAllowed(t.accounts[did], ParsedOf(p.m), p.row)
      then Some(RefreshRead(p.m, t.accounts[did], time)) else None
    case Consume(pid, now) =>
      var p := w.procs[pid];
      var c := p.m.token.claims;
      if Consumable(t, c.jti, c.did, c.version, now)
      then Some(Issuing(p.acct, Credential(c.kind, c.app), p.m.login, p.readAt)) else None
    case BeginRequest(_, m, gate, _) => Some(Request(m, gate, time))
    case ReadRequest(pid) =>
      var p := w.procs[pid];
      var did := p.m.token.claims.did;
      if did in t.accounts && StatusPermitted(t.accounts[did].status, p.gate.allowDeactivated)
        && t.accounts[did].version == p.m.token.claims.version
      then Some(RequestRead(p.m, p.gate, p.began, t.accounts[did], time)) else None
    case Decide(_) => None
  }

  /** A verified password adds a login. */
  function LoginsAfter(cfg: Config, w: World, a: Act): seq<Login>
    requires Enabled(cfg, w, a)
  {
    if !a.VerifyLogin? then w.logins else
      var p := w.procs[a.pid];
      match ProcAfter(cfg, w, a)
      case None => w.logins
      case Some(next) =>
        w.logins
          + [Login(p.acct.did, next.credential, AppUsed(cfg, p.acct, Now(w).apps, p.password), |w.hist| - 1, p.readAt)]
  }

  /** Tokens reach the client once the refresh row is in. */
  function IssuedAfter(cfg: Config, w: World, a: Act): set<Minted>
    requires Enabled(cfg, w, a)
  {
    if !a.Insert? then w.issued else
      var p := w.procs[a.pid];
      var c := p.refresh.token.claims;
      if c.jti in Pruned(Now(w).tokens, c.did, a.now) then w.issued else w.issued + {p.access, p.refresh}
  }

  function GrantedAfter(cfg: Config, w: World, a: Act): set<Grant>
    requires Enabled(cfg, w, a)
  {
    if !a.Decide? then w.granted else
      var p := w.procs[a.pid];
      if Admit(Some(p.acct), AppsOf(Now(w).apps, p.m.token.claims.did), ParsedOf(p.m), p.gate).Err? then w.granted
      else w.granted + {Grant(p.m, p.gate, p.began, p.acct, p.readAt, |w.hist| - 1)}
  }

  function ExchangedAfter(cfg: Config, w: World, a: Act): seq<string>
    requires Enabled(cfg, w, a)
  {
    if a.Consume? && ProcAfter(cfg, w, a).Some? then w.exchanged + [w.procs[a.pid].m.token.claims.jti] else w.exchanged
  }

  function ProcsAfter(cfg: Config, w: World, a: Act): map<nat, Proc>
    requires Enabled(cfg, w, a)
  {
    if a.Alter? then w.procs else
      match ProcAfter(cfg, w, a)
      case None => w.procs - {a.pid}
      case Some(p) => w.procs[a.pid := p]
  }

  function Next(cfg: Config, w: World, a: Act): World
    requires Enabled(cfg, w, a)
  {
    World(w.hist + [TablesAfter(w, a)], ProcsAfter(cfg, w, a), LoginsAfter(cfg, w, a), IssuedAfter(cfg, w, a),
      GrantedAfter(cfg, w, a), if a.Mint? then w.used + {a.jti} else w.used, ExchangedAfter(cfg, w, a))
  }

  const START := World([Tables(map[], map[], [])], map[], [], {}, {}, {}, [])

  ghost predicate Possible(cfg: Config, acts: seq<Act>)
    decreases |acts|, 0
  {
    acts == [] || (Possible(cfg, acts[..|acts| - 1]) && Enabled(cfg, After(cfg, acts[..|acts| - 1]), acts[|acts| - 1]))
  }

  ghost function After(cfg: Config, acts: seq<Act>): World
    requires Possible(cfg, acts)
    decreases |acts|, 1
  {
    if acts == [] then START else Next(cfg, After(cfg, acts[..|acts| - 1]), acts[|acts| - 1])
  }

  // ----- versions only rise -----

  function Version(t: Tables, did: string): int {
    if did in t.accounts then t.accounts[did].version else 0
  }

  /** Accounts are keyed by identifier, their versions positive; app passwords are named, once each. */
  ghost predicate TablesOk(t: Tables) {
    && (forall d :: d in t.accounts ==> t.accounts[d].did == d && t.accounts[d].version >= 1)
    && (forall ap :: ap in t.apps ==> ap.name != "")
    && AppsDistinct(t.apps)
  }

  ghost predicate HistoryOk(hist: seq<Tables>) {
    && hist != [] && (forall i :: 0 <= i < |hist| ==> TablesOk(hist[i]))
    && (forall i, j, did :: 0 <= i <= j < |hist| ==> Version(hist[i], did) <= Version(hist[j], did))
  }

  lemma ChangeKeepsTablesOk(t: Tables, ch: Change)
    requires TablesOk(t)
    ensures TablesOk(Changed(t, ch))
    ensures forall did :: Version(t, did) <= Version(Changed(t, ch), did)
  {
    match ch
    case RevokeApp(did, name) =>
      WithoutAppSelects(t.apps, did, name);
      WithoutAppDistinct(t.apps, did, name);
    case AddApp(ap) =>
      assert forall i :: 0 <= i < |t.apps| && t.apps[i].did == ap.did && t.apps[i].name == ap.name ==>
          HasApp(t.apps, ap.did, ap.name);
    case _ =>
  }

  /** A password or status change raises the version. */
  lemma BumpRaises(t: Tables, ch: Change)
    requires ch.SetPassword? || ch.SetStatus?
    requires ch.did in t.accounts
    ensures Version(Changed(t, ch), ch.did) == Version(t, ch.did) + 1
  {
  }

  lemma NextKeepsHistoryOk(cfg: Config, w: World, a: Act)
    requires HistoryOk(w.hist) && Enabled(cfg, w, a)
    ensures HistoryOk(Next(cfg, w, a).hist)
  {
    var t, t' := Now(w), TablesAfter(w, a);
    if a.Alter? {
      ChangeKeepsTablesOk(t, a.change);
    } else {
      assert t'.accounts == t.accounts && t'.apps == t.apps;
    }
    HistoryGrows(w.hist, t');
  }

  lemma HistoryGrows(hist: seq<Tables>, t: Tables)
    requires HistoryOk(hist) && TablesOk(t)
    requires forall did :: Version(hist[|hist| - 1], did) <= Version(t, did)
    ensures HistoryOk(hist + [t])
  {
    forall i, j, did | 0 <= i <= j < |hist + [t]|
        ensures Version((hist + [t])[i], did) <= Version((hist + [t])[j], did) {
      if i < |hist| == j {
        assert Version(hist[i], did) <= Version(hist[|hist| - 1], did);
      }
    }
  }

  // ----- where tokens and grants come from -----

  /** An account as it was read. */
  ghost predicate ReadOk(hist: seq<Tables>, acct: Account, at: nat) {
    at < |hist| && acct.did in hist[at].accounts && hist[at].accounts[acct.did] == acct
  }

  /** A login's credential is the main one, or that of an app password stored at the time. */
  ghost predicate LoginOk(hist: seq<Tables>, l: Login) {
    && l.at < |hist| && l.credential == CredentialOf(l.app)
    && (l.app.Some? ==> l.app.value.did == l.did && l.app.value in hist[l.at].apps)
  }

  /** The account was read in this version and not taken down. */
  ghost predicate VersionRead(hist: seq<Tables>, did: string, version: int, at: nat) {
    at < |hist| && did in hist[at].accounts && version == Version(hist[at], did)
        && hist[at].accounts[did].status != TAKEN_DOWN
  }

  /** A token carries its login's account, credential and version, and that is also the version
      the handler that minted it read. */
  ghost predicate MintOk(hist: seq<Tables>, logins: seq<Login>, m: Minted) {
    var c := m.token.claims;
    && m.login < |logins| && logins[m.login].did == c.did && logins[m.login].credential == Credential(c.kind, c.app)
    && VersionRead(hist, c.did, c.version, logins[m.login].readAt) && VersionRead(hist, c.did, c.version, m.readAt)
  }

  ghost predicate ProcOk(hist: seq<Tables>, logins: seq<Login>, p: Proc) {
    match p
    case LoginRead(acct, _, at) => ReadOk(hist, acct, at)
    case RefreshFound(m, _) => MintOk(hist, logins, m)
    case RefreshRead(m, acct, at) =>
      && MintOk(hist, logins, m) && ReadOk(hist, acct, at) && acct.did == m.token.claims.did
      && acct.version == m.token.claims.version && acct.status == ACTIVE
    case Issuing(acct, c, login, at) =>
      && ReadOk(hist, acct, at) && login < |logins| && logins[login].did == acct.did && logins[login].credential == c
      && acct.status != TAKEN_DOWN && VersionRead(hist, acct.did, acct.version, logins[login].readAt)
    case Inserting(access, refresh) => MintOk(hist, logins, access) && MintOk(hist, logins, refresh)
    case Request(m, _, began) => MintOk(hist, logins, m) && began < |hist|
    case RequestRead(m, _, began, acct, at) =>
      MintOk(hist, logins, m) && ReadOk(hist, acct, at) && acct.did == m.token.claims.did && began <= at
  }

  ghost predicate GrantOk(hist: seq<Tables>, logins: seq<Login>, g: Grant) {
    && MintOk(hist, logins, g.m) && ReadOk(hist, g.acct, g.readAt) && g.acct.did == g.m.token.claims.did
    && g.began <= g.readAt && g.appsAt < |hist| && g.readAt <= g.appsAt
    && Admit(Some(g.acct), AppsOf(hist[g.appsAt].apps, g.acct.did), ParsedOf(g.m), g.gate).Ok?
  }

  ghost predicate Traced(w: World) {
    && (forall i :: 0 <= i < |w.logins| ==> LoginOk(w.hist, w.logins[i]))
    && (forall m :: m in w.issued ==> MintOk(w.hist, w.logins, m))
    && (forall pid :: pid in w.procs ==> ProcOk(w.hist, w.logins, w.procs[pid]))
    && (forall g :: g in w.granted ==> GrantOk(w.hist, w.logins, g))
  }

  lemma MintStays(hist: seq<Tables>, logins: seq<Login>, t: Tables, more: seq<Login>, m: Minted)
    requires MintOk(hist, logins, m)
    ensures MintOk(hist + [t], logins + more, m)
  {
  }

  lemma ProcStays(hist: seq<Tables>, logins: seq<Login>, t: Tables, more: seq<Login>, p: Proc)
    requires ProcOk(hist, logins, p)
    ensures ProcOk(hist + [t], logins + more, p)
  {
  }

  lemma GrantStays(hist: seq<Tables>, logins: seq<Login>, t: Tables, more: seq<Login>, g: Grant)
    requires GrantOk(hist, logins, g)
    ensures GrantOk(hist + [t], logins + more, g)
  {
    assert (hist + [t])[g.appsAt] == hist[g.appsAt];
  }

  lemma {:induction false} VerifyFinds(aps: seq<AppPassword>, password: string, verify: (string, string) -> bool)
    ensures var r := VerifyAppPassword(aps, password, verify); r.Some? ==> r.value in aps
  {
    if aps != [] {
      VerifyFinds(aps[1..], password, verify);
    }
  }

  /** A verified login's credential is that of the app password used, and that one is stored. */
  lemma VerifiedLogin(cfg: Config, hist: seq<Tables>, acct: Account, password: string, readAt: nat)
    requires hist != []
    requires Verified(acct, AppsOf(hist[|hist| - 1].apps, acct.did), password, cfg.verify).Some?
    ensures var apps := hist[|hist| - 1].apps;
      LoginOk(hist, Login(acct.did, Verified(acct, AppsOf(apps, acct.did), password, cfg.verify).value,
        AppUsed(cfg, acct, apps, password), |hist| - 1, readAt))
  {
    var apps := hist[|hist| - 1].apps;
    VerifyFinds(AppsOf(apps, acct.did), password, cfg.verify);
    AppsOfSelects(apps, acct.did);
  }

  lemma LoginsStayOk(cfg: Config, w: World, a: Act)
    requires Traced(w) && Enabled(cfg, w, a)
    ensures forall i :: 0 <= i < |LoginsAfter(cfg, w, a)| ==> LoginOk(w.hist, LoginsAfter(cfg, w, a)[i])
  {
    if a.VerifyLogin? {
      var p := w.procs[a.pid];
      if Verified(p.acct, AppsOf(Now(w).apps, p.acct.did), p.password, cfg.verify).Some? {
        VerifiedLogin(cfg, w.hist, p.acct, p.password, p.readAt);
      }
    }
  }

  lemma MintedOk(hist: seq<Tables>, logins: seq<Login>, acct: Account, c: Credential, login: nat, at: nat, token: Token)
    requires ProcOk(hist, logins, Issuing(acct, c, login, at))
    requires token.claims.did == acct.did && token.claims.version == acct.version
    requires token.claims.kind == c.kind && token.claims.app == c.app
    ensures MintOk(hist, logins, Minted(token, login, at))
  {
  }

  lemma ProcAfterOk(cfg: Config, w: World, a: Act)
    requires Enabled(cfg, w, a) && TablesOk(Now(w)) && !a.Alter?
    requires !a.BeginLogin? && a.pid in w.procs ==> ProcOk(w.hist, w.logins, w.procs[a.pid])
    requires a.BeginRefresh? || a.BeginRequest? ==> MintOk(w.hist, w.logins, a.m)
    requires ProcAfter(cfg, w, a).Some?
    ensures ProcOk(w.hist, LoginsAfter(cfg, w, a), ProcAfter(cfg, w, a).value)
  {
    match a
    case Mint(pid, jti, at) =>
      var p, next := w.procs[pid], ProcAfter(cfg, w, a).value;
      MintedOk(w.hist, w.logins, p.acct, p.credential, p.login, p.readAt, next.access.token);
      MintedOk(w.hist, w.logins, p.acct, p.credential, p.login, p.readAt, next.refresh.token);
    case _ =>
  }

  lemma ProcsStayOk(cfg: Config, w: World, a: Act)
    requires Enabled(cfg, w, a) && TablesOk(Now(w)) && Traced(w)
    ensures var w' := Next(cfg, w, a);
      forall pid :: pid in w'.procs ==> ProcOk(w'.hist, w'.logins, w'.procs[pid])
  {
    hide ProcOk, MintOk, LoginOk, GrantOk, TablesOk;
    var w' := Next(cfg, w, a);
    var more := w'.logins[|w.logins|..];
    assert w'.logins == w.logins + more;
    forall pid | pid in w'.procs ensures ProcOk(w'.hist, w'.logins, w'.procs[pid]) {
      if !a.Alter? && pid == a.pid {
        ProcAfterOk(cfg, w, a);
        ProcStays(w.hist, w'.logins, TablesAfter(w, a), [], w'.procs[pid]);
        assert w'.logins + [] == w'.logins;
      } else {
        ProcStays(w.hist, w.logins, TablesAfter(w, a), more, w.procs[pid]);
      }
    }
  }

  lemma IssuedStayOk(cfg: Config, w: World, a: Act)
    requires Enabled(cfg, w, a) && Traced(w)
    ensures forall m :: m in IssuedAfter(cfg, w, a) ==> MintOk(w.hist, w.logins, m)
  {
    if a.Insert? {
      assert ProcOk(w.hist, w.logins, w.procs[a.pid]);
    }
  }

  lemma GrantedStayOk(cfg: Config, w: World, a: Act)
    requires Enabled(cfg, w, a) && Traced(w)
    ensures forall g :: g in GrantedAfter(cfg, w, a) ==> GrantOk(w.hist, w.logins, g)
  {
    if a.Decide? {
      assert ProcOk(w.hist, w.logins, w.procs[a.pid]);
    }
  }

  lemma NextStaysTraced(cfg: Config, w: World, a: Act)
    requires Enabled(cfg, w, a) && TablesOk(Now(w)) && Traced(w)
    ensures Traced(Next(cfg, w, a))
  {
    LoginsStayOk(cfg, w, a);
    ProcsStayOk(cfg, w, a);
    IssuedStayOk(cfg, w, a);
    GrantedStayOk(cfg, w, a);
    LoginsGrow(cfg, w, a);
    hide ProcOk, MintOk, GrantOk, TablesOk, IssuedAfter, GrantedAfter, ProcsAfter, LoginsAfter, TablesAfter;
    var w', t := Next(cfg, w, a), TablesAfter(w, a);
    var more := w'.logins[|w.logins|..];
    assert w'.logins == w.logins + more;
    forall m | m in w'.issued ensures MintOk(w'.hist, w'.logins, m) {
      MintStays(w.hist, w.logins, t, more, m);
    }
    forall g | g in w'.granted ensures GrantOk(w'.hist, w'.logins, g) {
      GrantStays(w.hist, w.logins, t, more, g);
    }
    forall i | 0 <= i < |w'.logins| ensures LoginOk(w'.hist, w'.logins[i]) {
      assert LoginOk(w.hist, w'.logins[i]);
    }
  }

  lemma LoginsGrow(cfg: Config, w: World, a: Act)
    requires Enabled(cfg, w, a)
    ensures w.logins <= LoginsAfter(cfg, w, a)
  {
  }

  lemma {:induction false} RunStaysTraced(cfg: Config, acts: seq<Act>)
    requires Possible(cfg, acts)
    ensures HistoryOk(After(cfg, acts).hist) && |After(cfg, acts).hist| == |acts| + 1
    ensures Traced(After(cfg, acts))
  {
    if acts != [] {
      var prior, a := acts[..|acts| - 1], acts[|acts| - 1];
      RunStaysTraced(cfg, prior);
      var w := After(cfg, prior);
      NextKeepsHistoryOk(cfg, w, a);
      NextStaysTraced(cfg, w, a);
    }
  }

  lemma {:induction false} AlterChanges(cfg: Config, acts: seq<Act>, k: nat)
    requires Possible(cfg, acts) && k < |acts| && acts[k].Alter?
    ensures |After(cfg, acts).hist| == |acts| + 1
    ensures After(cfg, acts).hist[k + 1] == Changed(After(cfg, acts).hist[k], acts[k].change)
  {
    hide Traced, HistoryOk, Changed;
    RunStaysTraced(cfg, acts);
    var prior := acts[..|acts| - 1];
    RunStaysTraced(cfg, prior);
    if k < |prior| {
      AlterChanges(cfg, prior, k);
    }
  }

  /** A request's token has the version the account has when the request reads it, which is
      never lower than when the request began. */
  lemma GrantsAreCurrent(cfg: Config, acts: seq<Act>, g: Grant)
    requires Possible(cfg, acts) && g in After(cfg, acts).granted
    ensures var hist, c := After(cfg, acts).hist, g.m.token.claims;
      && g.began <= g.readAt < |hist|
      && c.version == Version(hist[g.readAt], c.did) >= Version(hist[g.began], c.did)
  {
    RunStaysTraced(cfg, acts);
  }

  /** No session survives a change of the account's password or status, the k-th act here: a
      request that begins later is let through only by a token of a later version, minted by a
      handler that read the account after the change, and descending from a login that itself
      read the account after the change, whatever was in flight during it. */
  lemma BumpRevokes(cfg: Config, acts: seq<Act>, k: nat, g: Grant)
    requires Possible(cfg, acts) && g in After(cfg, acts).granted
    requires k < |acts| && acts[k].Alter? && (acts[k].change.SetPassword? || acts[k].change.SetStatus?)
    requires acts[k].change.did == g.m.token.claims.did && k < g.began
    ensures var w := After(cfg, acts);
      && k < |w.hist| && g.m.token.claims.version > Version(w.hist[k], g.m.token.claims.did)
      && g.m.readAt > k && g.m.login < |w.logins| && w.logins[g.m.login].readAt > k
  {
    RunStaysTraced(cfg, acts);
    AlterChanges(cfg, acts, k);
    var hist, did := After(cfg, acts).hist, g.m.token.claims.did;
    var login := After(cfg, acts).logins[g.m.login];
    assert Version(hist[k + 1], did) <= Version(hist[g.readAt], did);
    assert g.m.readAt <= k ==> Version(hist[g.m.readAt], did) <= Version(hist[k], did);
    assert login.readAt <= k ==> Version(hist[login.readAt], did) <= Version(hist[k], did);
    if did in hist[k].accounts {
      BumpRaises(hist[k], acts[k].change);
    }
  }

  /** Nobody acts for an account that is taken down, or deactivated where the gate does not
      allow it, when the request reads it; and no token was minted from a taken-down account. */
  lemma GrantsArePermitted(cfg: Config, acts: seq<Act>, g: Grant)
    requires Possible(cfg, acts) && g in After(cfg, acts).granted
    ensures var hist, did := After(cfg, acts).hist, g.m.token.claims.did;
      && g.readAt < |hist| && did in hist[g.readAt].accounts
      && hist[g.readAt].accounts[did].status in {ACTIVE, DEACTIVATED}
      && (hist[g.readAt].accounts[did].status == DEACTIVATED ==> g.gate.allowDeactivated)
      && g.m.readAt < |hist| && did in hist[g.m.readAt].accounts && hist[g.m.readAt].accounts[did].status != TAKEN_DOWN
  {
    RunStaysTraced(cfg, acts);
  }

  /** Along any chain of one login and any number of refreshes, the account, the credential
      kind and the app password's name are the login's. */
  lemma ChainKeepsCredential(cfg: Config, acts: seq<Act>, m: Minted)
    requires Possible(cfg, acts) && m in After(cfg, acts).issued
    ensures var logins, c := After(cfg, acts).logins, m.token.claims;
      && m.login < |logins| && logins[m.login].did == c.did
      && Credential(c.kind, c.app) == CredentialOf(logins[m.login].app)
  {
    RunStaysTraced(cfg, acts);
    assert LoginOk(After(cfg, acts).hist, After(cfg, acts).logins[m.login]);
  }

  /** Whatever is revoked and created again under the same name, a session that came from an
      unprivileged app password never passes a privileged gate. */
  lemma UnprivilegedStaysOut(cfg: Config, acts: seq<Act>, g: Grant)
    requires Possible(cfg, acts) && g in After(cfg, acts).granted && g.gate.privileged
    ensures var logins := After(cfg, acts).logins;
      && g.m.login < |logins|
      && (logins[g.m.login].app.Some? ==> logins[g.m.login].app.value.privileged)
  {
    RunStaysTraced(cfg, acts);
    assert LoginOk(After(cfg, acts).hist, After(cfg, acts).logins[g.m.login]);
  }

  lemma AppsUnique(t: Tables, did: string)
    requires TablesOk(t)
    ensures NamesUnique(AppsOf(t.apps, did))
  {
    AppsOfUnique(t.apps, did);
  }

  /** A request let through on a session that came from an app password had, after it began, a
      current app password of that account, name and privilege. */
  lemma AppPasswordIsCurrent(cfg: Config, acts: seq<Act>, g: Grant)
    requires Possible(cfg, acts) && g in After(cfg, acts).granted
    requires g.m.login < |After(cfg, acts).logins| && After(cfg, acts).logins[g.m.login].app.Some?
    ensures var w := After(cfg, acts);
      var used := w.logins[g.m.login].app.value;
      && g.began <= g.appsAt < |w.hist|
      && exists ap :: ap in w.hist[g.appsAt].apps
          && ap.did == used.did && ap.name == used.name && ap.privileged == used.privileged
  {
    RunStaysTraced(cfg, acts);
    var w := After(cfg, acts);
    var l := w.logins[g.m.login];
    var t := w.hist[g.appsAt];
    assert LoginOk(w.hist, l);
    assert TablesOk(w.hist[l.at]) && TablesOk(t);
    assert l.app.value.name != "";
    AppsUnique(t, l.did);
    MatchingMeansCurrent(AppsOf(t.apps, l.did), l.app.value.name, KindOf(l.app.value.privileged));
    AppsOfSelects(t.apps, l.did);
  }

  // ----- each refresh token is exchanged at most once -----

  /** A refresh token's identifier is in at most one place: held by the handler that minted it,
      in the table, or among those exchanged. */
  ghost predicate Once(tokens: set<string>, procs: map<nat, Proc>, used: set<string>, exchanged: seq<string>) {
    && (forall k :: k in tokens ==> k in used && k !in exchanged)
    && (forall k :: k in exchanged ==> k in used)
    && (forall i, j :: 0 <= i < j < |exchanged| ==> exchanged[i] != exchanged[j])
    && (forall pid :: pid in procs && procs[pid].Inserting? ==>
      var k := procs[pid].refresh.token.claims.jti; k in used && k !in tokens && k !in exchanged)
    && (forall p, q :: p in procs && q in procs && p != q && procs[p].Inserting? && procs[q].Inserting? ==>
      procs[p].refresh.token.claims.jti != procs[q].refresh.token.claims.jti)
  }

  ghost predicate OnceIn(w: World) {
    w.hist != [] && Once(Now(w).tokens.Keys, w.procs, w.used, w.exchanged)
  }

  /** Statements of other handlers, and pruning, only remove refresh rows. */
  lemma ChangeRemovesTokens(t: Tables, ch: Change)
    ensures Changed(t, ch).tokens.Keys <= t.tokens.Keys
  {
  }

  lemma NextStaysOnce(cfg: Config, w: World, a: Act)
    requires Enabled(cfg, w, a) && OnceIn(w)
    ensures OnceIn(Next(cfg, w, a))
  {
    if a.Alter? {
      ChangeRemovesTokens(Now(w), a.change);
    }
  }

  lemma {:induction false} RunStaysOnce(cfg: Config, acts: seq<Act>)
    requires Possible(cfg, acts)
    ensures OnceIn(After(cfg, acts))
  {
    if acts != [] {
      RunStaysOnce(cfg, acts[..|acts| - 1]);
      NextStaysOnce(cfg, After(cfg, acts[..|acts| - 1]), acts[|acts| - 1]);
    }
  }

  /** No refresh token is exchanged twice, in any interleaving. */
  lemma ExchangedOnce(cfg: Config, acts: seq<Act>)
    requires Possible(cfg, acts)
    ensures var exchanged := After(cfg, acts).exchanged;
      forall i, j :: 0 <= i < j < |exchanged| ==> exchanged[i] != exchanged[j]
  {
    RunStaysOnce(cfg, acts);
  }
}
