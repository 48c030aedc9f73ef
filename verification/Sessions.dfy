/** Login, refresh, logout and the request gate, each run on its own. */
module Sessions {
  import opened Common
  import opened Order
  import opened Timestamps
  import opened Auth
  import opened Accounts

  /** What an endpoint demands. */
  datatype Gate = Gate(privileged: bool, allowDeactivated: bool)

  datatype Denial = Invalid | Unauthenticated | TakenDown | Revoked | Forbidden | Internal

  datatype Session = Session(access: Token, refresh: Token, handle: string, did: string, active: bool, status: string)

  /** A taken-down account may never act; a deactivated one only where migration needs it. */
  predicate StatusPermitted(status: string, allowDeactivated: bool) {
    status == ACTIVE || (allowDeactivated && status == DEACTIVATED)
  }

  function KindOf(privileged: bool): string {
    if privileged then PRIVILEGED_APP_PASSWORD else APP_PASSWORD
  }

  /** The credential of a login with the account's password, or with an app password. */
  function CredentialOf(ap: Option<AppPassword>): Credential {
    match ap
    case None => Credential(PRIMARY, "")
    case Some(a) => Credential(KindOf(a.privileged), a.name)
  }

  /** The first app password of the name decides. */
  predicate MatchingAppCredential(aps: seq<AppPassword>, app: string, kind: string) {
    aps != [] &&
    if aps[0].name == app then kind == KindOf(aps[0].privileged) else MatchingAppCredential(aps[1..], app, kind)
  }

  ghost predicate NamesUnique(aps: seq<AppPassword>) {
    forall i, j :: 0 <= i < j < |aps| ==> aps[i].name != aps[j].name
  }

  /** With one row a name, the session's app password must exist with the session's privilege. */
  lemma {:induction false} MatchingMeansCurrent(aps: seq<AppPassword>, app: string, kind: string)
    requires NamesUnique(aps)
    ensures MatchingAppCredential(aps, app, kind) <==>
      exists ap :: ap in aps && ap.name == app && kind == KindOf(ap.privileged)
  {
    if aps != [] {
      MatchingMeansCurrent(aps[1..], app, kind);
      assert aps == [aps[0]] + aps[1..];
      if aps[0].name == app && kind == KindOf(aps[0].privileged) {
        assert aps[0] in aps;
      }
    }
  }

  lemma {:induction false} InsertUnique(aps: seq<AppPassword>, ap: AppPassword)
    requires NamesUnique(aps) && forall x :: x in aps ==> x.name != ap.name
    ensures NamesUnique(InsertByCreated(aps, ap))
  {
    if aps != [] && Less(ap.created, aps[|aps| - 1].created) {
      var prior, last := aps[..|aps| - 1], aps[|aps| - 1];
      InsertUnique(prior, ap);
      InsertSelects(prior, ap);
      var grown := InsertByCreated(prior, ap);
      forall i | 0 <= i < |grown| ensures grown[i].name != last.name {
        assert grown[i] in grown;
        assert last in aps;
      }
    }
  }

  lemma {:induction false} AppsOfUnique(apps: seq<AppPassword>, did: string)
    requires AppsDistinct(apps)
    ensures NamesUnique(AppsOf(apps, did))
  {
    if apps != [] {
      var prior := apps[..|apps| - 1];
      AppsOfUnique(prior, did);
      AppsOfSelects(prior, did);
      if apps[|apps| - 1].did == did {
        InsertUnique(AppsOf(prior, did), apps[|apps| - 1]);
      }
    }
  }

  /** The gate's checks on what it reads: the account, and the app passwords if the token names one. */
  function Admit(acct: Option<Account>, aps: seq<AppPassword>, p: Parsed, g: Gate): Result<(), Denial> {
    if acct.None? || !StatusPermitted(acct.value.status, g.allowDeactivated)
        || acct.value.version != p.version then Err(Revoked)
    else if p.app != "" && !MatchingAppCredential(aps, p.app, p.kind) then Err(Revoked)
    else if g.privileged && p.kind != PRIMARY && p.kind != PRIVILEGED_APP_PASSWORD then Err(Forbidden)
    else Ok(())
  }

  predicate RefreshAllowed(acct: Account, p: Parsed, row: RefreshRow) {
    && acct.status == ACTIVE && p.version == acct.version && row.version == p.version
    && row.kind == p.kind && row.app == p.app
  }

  /** The first app password that verifies. */
  function VerifyAppPassword(aps: seq<AppPassword>, password: string,
      verify: (string, string) -> bool): Option<AppPassword> {
    if aps == [] then None
    else if verify(password, aps[0].passwordHash) then Some(aps[0])
    else VerifyAppPassword(aps[1..], password, verify)
  }

  /** The credential a password earns against these reads. */
  function Verified(acct: Account, aps: seq<AppPassword>, password: string,
      verify: (string, string) -> bool): Option<Credential> {
    if verify(password, acct.passwordHash) then Some(CredentialOf(None))
    else match VerifyAppPassword(aps, password, verify)
      case None => None
      case Some(ap) => Some(CredentialOf(Some(ap)))
  }

  /** The identifier as typed, without the scheme. */
  function Identifier(typed: string): string {
    if |typed| >= 5 && typed[..5] == "at://" then typed[5..] else typed
  }

  function RowFor(acct: Account, c: Credential, expires: Instant): RefreshRow {
    RefreshRow(acct.did, Rfc3339(expires), acct.version, c.kind, c.app)
  }

  /** The tables after a session has been issued; the identifier must be new. */
  function WithSession(t: Tables, acct: Account, c: Credential, jti: string, now: Instant, expires: Instant): Tables {
    var kept := Pruned(t.tokens, acct.did, Rfc3339(now));
    t.(tokens := if jti in kept then kept else kept[jti := RowFor(acct, c, expires)])
  }

  predicate CanExchange(t: Tables, p: Parsed, now: Instant) {
    && p.jti in t.tokens && p.did in t.accounts
    && RefreshAllowed(t.accounts[p.did], p, t.tokens[p.jti])
    && Consumable(t, p.jti, p.did, p.version, Rfc3339(now))
  }

  /** The tables after an exchange. */
  function Exchanged(t: Tables, p: Parsed, jti: string, now: Instant, expires: Instant): Tables
    requires CanExchange(t, p, now)
  {
    WithSession(WithoutToken(t, p.jti), t.accounts[p.did], Credential(p.kind, p.app), jti, now, expires)
  }

  // ----- who is let through, in terms of token and tables -----

  /** The token is the server's own, of this kind, not expired, and carries version and credential. */
  ghost predicate Good(token: Token, secret: string, scope: string, now: int) {
    var c := token.claims;
    token.secret == secret && now < c.expires && c.scope == scope && c.version >= 1 && c.kind != ""
  }

  /** The account has an app password of this name, with the privilege the kind says. */
  ghost predicate HasCredential(apps: seq<AppPassword>, did: string, name: string, kind: string) {
    exists ap :: ap in apps && ap.did == did && ap.name == name &&
      kind == if ap.privileged then "privileged_app_password" else "app_password"
  }

  ghost predicate LetThrough(t: Tables, secret: string, token: Token, g: Gate, now: int) {
    var c := token.claims;
    && Good(token, secret, "com.atproto.access", now)
    && c.did in t.accounts && t.accounts[c.did].version == c.version
    && (t.accounts[c.did].status == "active" || (g.allowDeactivated && t.accounts[c.did].status == "deactivated"))
    && (c.app != "" ==> HasCredential(t.apps, c.did, c.app, c.kind))
    && (g.privileged ==> c.kind == "primary" || c.kind == "privileged_app_password")
  }

  /** Only the privilege is lacking. */
  ghost predicate Forbids(t: Tables, secret: string, token: Token, g: Gate, now: int) {
    g.privileged && LetThrough(t, secret, token, g.(privileged := false), now) && !LetThrough(t, secret, token, g, now)
  }

  lemma GateIff(t: Tables, secret: string, token: Token, g: Gate, now: int)
    requires AppsDistinct(t.apps)
    ensures var parsed := Parse(secret, token, ACCESS_SCOPE, now);
      var admitted := if parsed.Err? then Err(Revoked)
        else Admit(ByDid(t.accounts, parsed.value.did), AppsOf(t.apps, parsed.value.did), parsed.value, g);
      && (admitted.Ok? <==> LetThrough(t, secret, token, g, now))
      && (admitted == Err(Forbidden) <==> Forbids(t, secret, token, g, now))
      && (admitted.Err? ==> admitted.error in {Revoked, Forbidden})
  {
    var c := token.claims;
    if c.app != "" {
      AppsOfUnique(t.apps, c.did);
      AppsOfSelects(t.apps, c.did);
      MatchingMeansCurrent(AppsOf(t.apps, c.did), c.app, c.kind);
    }
  }

  /** The refresh token can be exchanged: it is good, its row is stored as it says and not expired
      by text, and the account is active in its version. */
  ghost predicate Redeemable(t: Tables, secret: string, token: Token, now: Instant) {
    var c := token.claims;
    && Good(token, secret, "com.atproto.refresh", Seconds(now))
    && c.did in t.accounts && t.accounts[c.did].version == c.version && t.accounts[c.did].status == "active"
    && c.jti in t.tokens && t.tokens[c.jti] == RefreshRow(c.did, t.tokens[c.jti].expires, c.version, c.kind, c.app)
    && Less(Rfc3339(now), t.tokens[c.jti].expires)
  }

  lemma RedeemableIff(t: Tables, secret: string, token: Token, now: Instant)
    ensures var parsed := Parse(secret, token, REFRESH_SCOPE, Seconds(now));
      (parsed.Ok? && CanExchange(t, parsed.value, now)) <==> Redeemable(t, secret, token, now)
  {
    hide Rfc3339, Seconds, Less;
  }

  /** A row under this key for the account and credential, expiring then, is all that is new, and
      of the old rows exactly those go that are the account's and expired, and the one given. */
  ghost predicate Rotated(t: Tables, t': Tables, gone: Option<string>, key: string, row: RefreshRow, now: string) {
    && t'.accounts == t.accounts && t'.apps == t.apps
    && key in t'.tokens && t'.tokens[key] == row
    && forall k :: k != key ==>
      && (k in t'.tokens <==>
          k in t.tokens && gone != Some(k) && (t.tokens[k].did == row.did ==> Less(now, t.tokens[k].expires)))
      && (k in t'.tokens ==> t'.tokens[k] == t.tokens[k])
  }

  lemma SessionRotates(t: Tables, acct: Account, c: Credential, jti: string, now: Instant, expires: Instant)
    requires jti !in t.tokens
    ensures Rotated(t, WithSession(t, acct, c, jti, now, expires), None, jti,
      RefreshRow(acct.did, Rfc3339(expires), acct.version, c.kind, c.app), Rfc3339(now))
  {
    hide Rfc3339, Less;
  }

  lemma ExchangeRotates(t: Tables, p: Parsed, jti: string, now: Instant, expires: Instant)
    requires CanExchange(t, p, now) && jti !in t.tokens && t.accounts[p.did].did == p.did
    ensures Rotated(t, Exchanged(t, p, jti, now, expires), Some(p.jti), jti,
      RefreshRow(p.did, Rfc3339(expires), p.version, p.kind, p.app), Rfc3339(now))
  {
    hide Rfc3339, Less;
  }

  /** Both tokens of a session, in full, and what it says of the account. */
  ghost predicate Opens(s: Session, secret: string, service: string, acct: Account, kind: string, app: string,
      jti: string, now: int)
  {
    && s.access == Token(secret, Claims("com.atproto.access", acct.did, service, now, now + 7200, "", acct.version,
                                        kind, app))
    && s.refresh == Token(secret, Claims("com.atproto.refresh", acct.did, service, now, now + 7776000, jti,
                                         acct.version, kind, app))
    && s.did == acct.did && s.handle == acct.handle && s.active == (acct.status == "active")
    && s.status == (if s.active then "" else acct.status)
  }

  /** The account a typed identifier names. */
  ghost predicate Names(t: Tables, typed: string, acct: Account) {
    var id := if "at://" <= typed then typed[5..] else typed;
    if |id| > 4 && "did:" <= id then id in t.accounts && acct == t.accounts[id]
    else exists d :: d in t.accounts && t.accounts[d] == acct && acct.handle == id
  }

  /** The password is the account's, or that of one of its app passwords, the first created that fits. */
  ghost predicate Earns(t: Tables, verify: (string, string) -> bool, acct: Account, password: string, kind: string,
      app: string)
  {
    if verify(password, acct.passwordHash) then kind == "primary" && app == ""
    else
      var aps := AppsOf(t.apps, acct.did);
      exists i :: 0 <= i < |aps| && First(aps, i, password, verify) && app == aps[i].name &&
        kind == if aps[i].privileged then "privileged_app_password" else "app_password"
  }

  /** The first app password that the password fits. */
  ghost predicate First(aps: seq<AppPassword>, i: nat, password: string, verify: (string, string) -> bool) {
    && i < |aps| && verify(password, aps[i].passwordHash)
    && forall j :: 0 <= j < i ==> !verify(password, aps[j].passwordHash)
  }

  lemma {:induction false} VerifyFindsFirst(aps: seq<AppPassword>, password: string, verify: (string, string) -> bool)
    ensures match VerifyAppPassword(aps, password, verify)
      case None => forall i :: 0 <= i < |aps| ==> !verify(password, aps[i].passwordHash)
      case Some(ap) => exists i :: 0 <= i < |aps| && aps[i] == ap && First(aps, i, password, verify)
  {
    if aps != [] && !verify(password, aps[0].passwordHash) {
      VerifyFindsFirst(aps[1..], password, verify);
      assert forall i :: 0 < i < |aps| ==> aps[i] == aps[1..][i - 1];
      if VerifyAppPassword(aps[1..], password, verify).Some? {
        var ap := VerifyAppPassword(aps[1..], password, verify).value;
        var i :| 0 <= i < |aps[1..]| && aps[1..][i] == ap && First(aps[1..], i, password, verify);
        assert aps[i + 1] == ap && First(aps, i + 1, password, verify);
      }
    }
  }

  lemma EarnsIff(t: Tables, verify: (string, string) -> bool, acct: Account, password: string, kind: string,
      app: string)
    ensures Verified(acct, AppsOf(t.apps, acct.did), password, verify) == Some(Credential(kind, app)) <==>
      Earns(t, verify, acct, password, kind, app)
  {
    VerifyFindsFirst(AppsOf(t.apps, acct.did), password, verify);
  }

  lemma NamesIff(t: Tables, typed: string, acct: Account)
    requires HandlesUnique(t.accounts)
    ensures ByIdentifier(t.accounts, Identifier(typed)) == Some(acct) <==> Names(t, typed, acct)
  {
  }

  /** Signing secret, service identity and password verification are given. */
  class Server {
    const secret: string
    const service: string
    const verify: (string, string) -> bool
    const store: Store

    constructor (secret: string, service: string, verify: (string, string) -> bool, store: Store)
      ensures this.secret == secret && this.service == service && this.verify == verify && this.store == store
    {
      this.secret, this.service, this.verify, this.store := secret, service, verify, store;
    }

    function SessionFor(acct: Account, c: Credential, jti: string, now: Instant): Session {
      Session(
        IssueAccess(secret, acct.did, service, acct.version, c, Seconds(now)),
        IssueRefresh(secret, acct.did, service, acct.version, c, jti, Seconds(now)),
        acct.handle, acct.did, acct.status == ACTIVE, if acct.status == ACTIVE then "" else acct.status)
    }

    method IssueSession(acct: Account, c: Credential, jti: string, now: Instant, expires: Instant)
      returns (res: Result<Session, Denial>)
      modifies store
      ensures store.View() == WithSession(old(store.View()), acct, c, jti, now, expires)
      ensures res ==
          if jti in Pruned(old(store.tokens), acct.did, Rfc3339(now)) then Err(Internal)
          else Ok(SessionFor(acct, c, jti, now))
    {
      var access := IssueAccess(secret, acct.did, service, acct.version, c, Seconds(now));
      var refresh := IssueRefresh(secret, acct.did, service, acct.version, c, jti, Seconds(now));
      var created := store.CreateRefreshToken(jti,
          RefreshRow(acct.did, Rfc3339(expires), acct.version, c.kind, c.app), now);
      if created.Err? {
        return Err(Internal);
      }
      var status := acct.status;
      if status == ACTIVE {
        status := "";
      }
      return Ok(Session(access, refresh, acct.handle, acct.did, acct.status == ACTIVE, status));
    }

    method FindAppPassword(did: string, password: string) returns (found: Option<AppPassword>)
      ensures found == VerifyAppPassword(AppsOf(store.apps, did), password, verify)
    {
      var aps := store.ListAppPasswords(did);
      var i := 0;
      while i < |aps|
        invariant i <= |aps|
        invariant VerifyAppPassword(aps, password, verify) == VerifyAppPassword(aps[i..], password, verify)
      {
        if verify(password, aps[i].passwordHash) {
          return Some(aps[i]);
        }
        i := i + 1;
      }
      return None;
    }

    /** What a login leaves and answers. The takedown check comes after the password check. */
    predicate LoggedIn(t: Tables, typed: string, password: string, jti: string, now: Instant, expires: Instant,
        t': Tables, res: Result<Session, Denial>)
      requires HandlesUnique(t.accounts)
    {
      if typed == "" || password == "" then res == Err(Invalid) && t' == t
      else match ByIdentifier(t.accounts, Identifier(typed))
        case None => res == Err(Unauthenticated) && t' == t
        case Some(acct) =>
          match Verified(acct, AppsOf(t.apps, acct.did), password, verify)
          case None => res == Err(Unauthenticated) && t' == t
          case Some(c) =>
            && (acct.status == TAKEN_DOWN ==> res == Err(TakenDown) && t' == t)
            && (acct.status != TAKEN_DOWN ==> t' == WithSession(t, acct, c, jti, now, expires))
            && (acct.status != TAKEN_DOWN && jti !in t.tokens ==> res == Ok(SessionFor(acct, c, jti, now)))
    }

    method CreateSession(typed: string, password: string, jti: string, now: Instant, expires: Instant)
      returns (res: Result<Session, Denial>)
      requires HandlesUnique(store.accounts)
      modifies store
      ensures LoggedIn(old(store.View()), typed, password, jti, now, expires, store.View(), res)
    {
      if typed == "" || password == "" {
        return Err(Invalid);
      }
      var found := store.GetAccountByIdentifier(Identifier(typed));
      if found.None? {
        return Err(Unauthenticated);
      }
      var acct := found.value;
      var c := Credential(PRIMARY, "");
      if !verify(password, acct.passwordHash) {
        var ap := FindAppPassword(acct.did, password);
        if ap.None? {
          return Err(Unauthenticated);
        }
        c := Credential(APP_PASSWORD, ap.value.name);
        if ap.value.privileged {
          c := c.(kind := PRIVILEGED_APP_PASSWORD);
        }
      }
      if acct.status == TAKEN_DOWN {
        return Err(TakenDown);
      }
      res := IssueSession(acct, c, jti, now, expires);
    }

    /** A login with a new identifier opens a session if and only if the typed text names an
        account that is not taken down and the password earns it a credential; the session is that
        account's with that credential, and a row for it is what changes. Otherwise nothing does. */
    lemma LoginOpensIff(t: Tables, typed: string, password: string, jti: string, now: Instant, expires: Instant,
        t': Tables, res: Result<Session, Denial>)
      requires HandlesUnique(t.accounts) && jti !in t.tokens
      requires LoggedIn(t, typed, password, jti, now, expires, t', res)
      ensures res.Ok? <==> typed != "" && password != "" && exists acct, kind, app ::
        Names(t, typed, acct) && acct.status != "taken-down" && Earns(t, verify, acct, password, kind, app)
      ensures forall acct, kind, app {:trigger Earns(t, verify, acct, password, kind, app)} ::
        res.Ok? && Names(t, typed, acct) && Earns(t, verify, acct, password, kind, app) ==>
          && Opens(res.value, secret, service, acct, kind, app, jti, Seconds(now))
          && Rotated(t, t', None, jti, RefreshRow(acct.did, Rfc3339(expires), acct.version, kind, app), Rfc3339(now))
      ensures res.Err? ==> t' == t
    {
      LoginIff(t, typed, password);
      hide Names, Earns, Rotated, Opens, Rfc3339, Seconds, Verified, AppsOf, WithSession, SessionFor;
      var found := ByIdentifier(t.accounts, Identifier(typed));
      if typed != "" && password != "" && found.Some? {
        var acct := found.value;
        var earned := Verified(acct, AppsOf(t.apps, acct.did), password, verify);
        if earned.Some? {
          var c := earned.value;
          assert c == Credential(c.kind, c.app);
          SessionRotates(t, acct, c, jti, now, expires);
          SessionOpens(acct, c, jti, now);
        }
      }
    }

    lemma SessionOpens(acct: Account, c: Credential, jti: string, now: Instant)
      ensures Opens(SessionFor(acct, c, jti, now), secret, service, acct, c.kind, c.app, jti, Seconds(now))
    {
    }

    /** A typed identifier names at most one account, and a password earns it at most one credential. */
    lemma LoginIff(t: Tables, typed: string, password: string)
      requires HandlesUnique(t.accounts)
      ensures forall acct :: Names(t, typed, acct) <==> ByIdentifier(t.accounts, Identifier(typed)) == Some(acct)
      ensures forall acct, kind, app ::
        Earns(t, verify, acct, password, kind, app) <==>
        Verified(acct, AppsOf(t.apps, acct.did), password, verify) == Some(Credential(kind, app))
    {
      forall acct ensures Names(t, typed, acct) <==> ByIdentifier(t.accounts, Identifier(typed)) == Some(acct) {
        NamesIff(t, typed, acct);
      }
      forall acct, kind, app
        ensures Earns(t, verify, acct, password, kind, app) <==>
          Verified(acct, AppsOf(t.apps, acct.did), password, verify) == Some(Credential(kind, app))
      {
        EarnsIff(t, verify, acct, password, kind, app);
      }
    }

    method RefreshSession(token: Token, jti: string, now: Instant, expires: Instant)
      returns (res: Result<Session, Denial>)
      modifies store
      ensures var t := old(store.View());
        match Parse(secret, token, REFRESH_SCOPE, Seconds(now))
        case Err(_) => res == Err(Revoked) && store.View() == t
        case Ok(p) =>
          && (!CanExchange(t, p, now) ==> res.Err? && store.View() == t)
          && (CanExchange(t, p, now) ==> store.View() == Exchanged(t, p, jti, now, expires))
          && (CanExchange(t, p, now) && jti !in t.tokens ==>
            res == Ok(SessionFor(t.accounts[p.did], Credential(p.kind, p.app), jti, now)))
      ensures var t, c := old(store.View()), token.claims;
        jti !in t.tokens && (c.did in t.accounts ==> t.accounts[c.did].did == c.did) ==>
          && (res.Ok? <==> Redeemable(t, secret, token, now))
          && (res.Ok? ==>
            && Opens(res.value, secret, service, t.accounts[c.did], c.kind, c.app, jti, Seconds(now))
            && Rotated(t, store.View(), Some(c.jti), jti,
                       RefreshRow(c.did, Rfc3339(expires), c.version, c.kind, c.app), Rfc3339(now)))
    {
      ghost var t := store.View();
      RedeemableIff(t, secret, token, now);
      var parsed := Parse(secret, token, REFRESH_SCOPE, Seconds(now));
      if parsed.Err? {
        return Err(Revoked);
      }
      var p := parsed.value;
      if p.jti !in store.tokens {
        return Err(Revoked);
      }
      if p.did !in store.accounts {
        return Err(Unauthenticated);
      }
      var row, acct := store.tokens[p.jti], store.accounts[p.did];
      if acct.status != ACTIVE || p.version != acct.version || row.version != p.version || row.kind != p.kind
          || row.app != p.app {
        return Err(Revoked);
      }
      if CanExchange(t, p, now) && jti !in t.tokens && acct.did == p.did {
        ExchangeRotates(t, p, jti, now, expires);
      }
      var consumed := store.ConsumeRefreshToken(p.jti, p.did, p.version, now);
      if consumed.Err? {
        return Err(Revoked);
      }
      res := IssueSession(acct, Credential(p.kind, p.app), jti, now, expires);
    }

    /** Logging out with an unusable token succeeds and changes nothing. */
    method DeleteSession(token: Token, now: Instant)
      modifies store
      ensures match Parse(secret, token, REFRESH_SCOPE, Seconds(now))
        case Err(_) => store.View() == old(store.View())
        case Ok(p) => store.View() == WithoutToken(old(store.View()), p.jti)
      ensures store.accounts == old(store.accounts) && store.apps == old(store.apps)
      ensures store.tokens ==
          if Good(token, secret, "com.atproto.refresh", Seconds(now)) then old(store.tokens) - {token.claims.jti}
          else old(store.tokens)
    {
      var parsed := Parse(secret, token, REFRESH_SCOPE, Seconds(now));
      if parsed.Ok? {
        store.DeleteRefreshToken(parsed.value.jti);
      }
    }

    method Matches(aps: seq<AppPassword>, p: Parsed) returns (ok: bool)
      ensures ok <==> MatchingAppCredential(aps, p.app, p.kind)
    {
      for i := 0 to |aps|
        invariant MatchingAppCredential(aps, p.app, p.kind) <==> MatchingAppCredential(aps[i..], p.app, p.kind)
      {
        if aps[i].name != p.app {
          continue;
        }
        return (aps[i].privileged && p.kind == PRIVILEGED_APP_PASSWORD)
            || (!aps[i].privileged && p.kind == APP_PASSWORD);
      }
      return false;
    }

    method RequirePrincipal(token: Token, g: Gate, now: Instant) returns (res: Result<Parsed, Denial>)
      ensures match Parse(secret, token, ACCESS_SCOPE, Seconds(now))
        case Err(_) => res == Err(Revoked)
        case Ok(p) =>
          match Admit(ByDid(store.accounts, p.did), AppsOf(store.apps, p.did), p, g)
          case Ok(_) => res == Ok(p)
          case Err(e) => res == Err(e)
      ensures AppsDistinct(store.apps) ==>
        && (res.Ok? <==> LetThrough(store.View(), secret, token, g, Seconds(now)))
        && (res == Err(Forbidden) <==> Forbids(store.View(), secret, token, g, Seconds(now)))
      ensures var c := token.claims;
        res.Ok? ==> res.value == Parsed(c.did, c.jti, c.scope, c.version, c.kind, c.app)
    {
      if AppsDistinct(store.apps) { GateIff(store.View(), secret, token, g, Seconds(now)); }
      var parsed := Parse(secret, token, ACCESS_SCOPE, Seconds(now));
      if parsed.Err? {
        return Err(Revoked);
      }
      var p := parsed.value;
      if p.did !in store.accounts {
        return Err(Revoked);
      }
      var acct := store.accounts[p.did];
      if !StatusPermitted(acct.status, g.allowDeactivated) || acct.version != p.version {
        return Err(Revoked);
      }
      if p.app != "" {
        var aps := store.ListAppPasswords(p.did);
        var ok := Matches(aps, p);
        if !ok {
          return Err(Revoked);
        }
      }
      if g.privileged && p.kind != PRIMARY && p.kind != PRIVILEGED_APP_PASSWORD {
        return Err(Forbidden);
      }
      return Ok(p);
    }
  }

  /** Without an app password of the name no request on a session of it is let through. */
  lemma NoAppDenies(apps: seq<AppPassword>, did: string, name: string, acct: Option<Account>, p: Parsed, g: Gate)
    requires !HasApp(apps, did, name) && p.app == name && name != ""
    ensures Admit(acct, AppsOf(apps, did), p, g).Err?
  {
    AppsOfSelects(apps, did);
    NoNameNoMatch(AppsOf(apps, did), name, p.kind);
  }

  lemma {:induction false} NoNameNoMatch(aps: seq<AppPassword>, app: string, kind: string)
    requires forall ap :: ap in aps ==> ap.name != app
    ensures !MatchingAppCredential(aps, app, kind)
  {
    if aps != [] {
      assert aps[0] in aps;
      NoNameNoMatch(aps[1..], app, kind);
    }
  }
}
