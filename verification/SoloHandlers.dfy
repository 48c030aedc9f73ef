/** The interleaved handlers refine the ones that run alone: from any reachable state, a login, a
    refresh or a request left to itself does what the server's own methods do. */
module SoloHandlers {
  import opened Timestamps
  import opened Auth
  import opened Accounts
  import opened Sessions
  import opened SessionRuns
  import opened Revocation

  /** The tokens a handler mints. */
  function MintedBy(cfg: Config, acct: Account, c: Credential, jti: string, at: int): (Token, Token) {
    (IssueAccess(cfg.secret, acct.did, cfg.service, acct.version, c, at),
     IssueRefresh(cfg.secret, acct.did, cfg.service, acct.version, c, jti, at))
  }

  /** These tokens are in clients' hands. */
  ghost predicate Delivers(w: World, tokens: (Token, Token)) {
    && (exists m :: m in w.issued && m.token == tokens.0)
    && exists m :: m in w.issued && m.token == tokens.1
  }

  /** A handler past its checks, from minting on. */
  lemma IssuingIssues(cfg: Config, acts: seq<Act>, pid: nat, jti: string, now: Instant, expires: Instant)
    requires Possible(cfg, acts) && pid in After(cfg, acts).procs && After(cfg, acts).procs[pid].Issuing?
    requires jti !in After(cfg, acts).used
    ensures var w := After(cfg, acts);
      var p := w.procs[pid];
      var more := acts + [Mint(pid, jti, Seconds(now)), Insert(pid, Rfc3339(now), Rfc3339(expires))];
      && w.hist != [] && Possible(cfg, more)
      && var w' := After(cfg, more);
      && w'.hist != [] && Now(w') == WithSession(Now(w), p.acct, p.credential, jti, now, expires)
      && Delivers(w', MintedBy(cfg, p.acct, p.credential, jti, Seconds(now))) && w'.procs == w.procs - {pid}
  {
    var mint, insert := Mint(pid, jti, Seconds(now)), Insert(pid, Rfc3339(now), Rfc3339(expires));
    RunStaysOnce(cfg, acts);
    MintInserts(cfg, After(cfg, acts), pid, jti, now, expires);
    hide *;
    OneMoreAct(cfg, acts, mint);
    OneMoreAct(cfg, acts + [mint], insert);
    assert acts + [mint, insert] == acts + [mint] + [insert];
  }

  lemma MintInserts(cfg: Config, w: World, pid: nat, jti: string, now: Instant, expires: Instant)
    requires OnceIn(w) && pid in w.procs && w.procs[pid].Issuing? && jti !in w.used
    ensures var mint, insert := Mint(pid, jti, Seconds(now)), Insert(pid, Rfc3339(now), Rfc3339(expires));
      && Enabled(cfg, w, mint) && Enabled(cfg, Next(cfg, w, mint), insert)
      && var w' := Next(cfg, Next(cfg, w, mint), insert);
      var p := w.procs[pid];
      && w'.hist != [] && Now(w') == WithSession(Now(w), p.acct, p.credential, jti, now, expires)
      && Delivers(w', MintedBy(cfg, p.acct, p.credential, jti, Seconds(now))) && w'.procs == w.procs - {pid}
  {
    hide Rfc3339, Seconds, Pruned;
    PrunedKeys(Now(w).tokens, w.procs[pid].acct.did, Rfc3339(now));
    var mint, insert := Mint(pid, jti, Seconds(now)), Insert(pid, Rfc3339(now), Rfc3339(expires));
    var p := w.procs[pid];
    var tokens := MintedBy(cfg, p.acct, p.credential, jti, Seconds(now));
    var w1 := Next(cfg, w, mint);
    assert w1.procs[pid] == Inserting(Minted(tokens.0, p.login, p.readAt), Minted(tokens.1, p.login, p.readAt));
    assert Now(w1) == Now(w);
    var w' := Next(cfg, w1, insert);
    assert Minted(tokens.0, p.login, p.readAt) in w'.issued && Minted(tokens.1, p.login, p.readAt) in w'.issued;
  }

  lemma PrunedKeys(tokens: map<string, RefreshRow>, did: string, now: string)
    ensures Pruned(tokens, did, now).Keys <= tokens.Keys
  {
  }

  /** A login left to itself, with a new identifier. */
  lemma LoginAlone(cfg: Config, acts: seq<Act>, pid: nat, did: string, password: string, jti: string, now: Instant,
      expires: Instant)
    requires Possible(cfg, acts) && After(cfg, acts).hist != [] && did in Now(After(cfg, acts)).accounts
    requires pid !in After(cfg, acts).procs && jti !in After(cfg, acts).used
    ensures var w := After(cfg, acts);
      var acct := Now(w).accounts[did];
      var earned := Verified(acct, AppsOf(Now(w).apps, acct.did), password, cfg.verify);
      var checked := acts + [BeginLogin(pid, did, password), VerifyLogin(pid)];
      && Possible(cfg, checked)
      && (earned.None? || acct.status == TAKEN_DOWN ==>
        After(cfg, checked).hist != [] && Now(After(cfg, checked)) == Now(w)
          && After(cfg, checked).procs == w.procs && After(cfg, checked).issued == w.issued)
      && (earned.Some? && acct.status != TAKEN_DOWN ==>
        var done := checked + [Mint(pid, jti, Seconds(now)), Insert(pid, Rfc3339(now), Rfc3339(expires))];
        && Possible(cfg, done) && After(cfg, done).hist != []
        && Now(After(cfg, done)) == WithSession(Now(w), acct, earned.value, jti, now, expires)
        && Delivers(After(cfg, done), MintedBy(cfg, acct, earned.value, jti, Seconds(now))))
  {
    hide *;
    LoginReaches(cfg, acts, pid, did, password);
    var checked := acts + [BeginLogin(pid, did, password), VerifyLogin(pid)];
    if pid in After(cfg, checked).procs {
      IssuingIssues(cfg, checked, pid, jti, now, expires);
    }
  }

  lemma LoginReaches(cfg: Config, acts: seq<Act>, pid: nat, did: string, password: string)
    requires Possible(cfg, acts) && After(cfg, acts).hist != [] && did in Now(After(cfg, acts)).accounts
    requires pid !in After(cfg, acts).procs
    ensures var w := After(cfg, acts);
      var acct := Now(w).accounts[did];
      var earned := Verified(acct, AppsOf(Now(w).apps, acct.did), password, cfg.verify);
      var checked := acts + [BeginLogin(pid, did, password), VerifyLogin(pid)];
      && Possible(cfg, checked)
      && var w' := After(cfg, checked);
      && w'.hist != [] && Now(w') == Now(w) && w'.used == w.used && w'.issued == w.issued
      && (earned.None? || acct.status == TAKEN_DOWN ==> w'.procs == w.procs && pid !in w'.procs)
      && (earned.Some? && acct.status != TAKEN_DOWN ==>
        pid in w'.procs && w'.procs[pid].Issuing? && w'.procs[pid].acct == acct
          && w'.procs[pid].credential == earned.value)
  {
    var begin, verify := BeginLogin(pid, did, password), VerifyLogin(pid);
    hide *;
    LoginChecks(cfg, After(cfg, acts), pid, did, password);
    OneMoreAct(cfg, acts, begin);
    OneMoreAct(cfg, acts + [begin], verify);
    assert acts + [begin, verify] == acts + [begin] + [verify];
  }

  /** The login handler's checks, one after the other. */
  lemma LoginChecks(cfg: Config, w: World, pid: nat, did: string, password: string)
    requires w.hist != [] && did in Now(w).accounts && pid !in w.procs
    ensures var begin, verify := BeginLogin(pid, did, password), VerifyLogin(pid);
      var acct := Now(w).accounts[did];
      var earned := Verified(acct, AppsOf(Now(w).apps, acct.did), password, cfg.verify);
      && Enabled(cfg, w, begin) && Enabled(cfg, Next(cfg, w, begin), verify)
      && var w' := Next(cfg, Next(cfg, w, begin), verify);
      && w'.hist != [] && Now(w') == Now(w) && w'.used == w.used && w'.issued == w.issued
      && (earned.None? || acct.status == TAKEN_DOWN ==> w'.procs == w.procs && pid !in w'.procs)
      && (earned.Some? && acct.status != TAKEN_DOWN ==>
        pid in w'.procs && w'.procs[pid].Issuing? && w'.procs[pid].acct == acct
          && w'.procs[pid].credential == earned.value)
  {
    hide Verified;
    var w1 := Next(cfg, w, BeginLogin(pid, did, password));
    assert w1.procs[pid] == LoginRead(Now(w).accounts[did], password, |w.hist| - 1) && Now(w1) == Now(w);
    assert w1.procs - {pid} == w.procs;
  }

  /** A refresh left to itself, with a new identifier, of a token in a client's hands. */
  lemma RefreshAlone(cfg: Config, acts: seq<Act>, pid: nat, m: Minted, jti: string, now: Instant, expires: Instant)
    requires Possible(cfg, acts) && After(cfg, acts).hist != [] && m in After(cfg, acts).issued
    requires pid !in After(cfg, acts).procs && jti !in After(cfg, acts).used
    requires Redeemable(Now(After(cfg, acts)), cfg.secret, m.token, now)
    ensures var w, p := After(cfg, acts), ParsedOf(m);
      var done := acts + [BeginRefresh(pid, m, Seconds(now)), ReadRefresh(pid), Consume(pid, Rfc3339(now)),
                          Mint(pid, jti, Seconds(now)), Insert(pid, Rfc3339(now), Rfc3339(expires))];
      && CanExchange(Now(w), p, now)
      && Possible(cfg, done) && After(cfg, done).hist != []
      && Now(After(cfg, done)) == Exchanged(Now(w), p, jti, now, expires)
      && Delivers(After(cfg, done),
                  MintedBy(cfg, Now(w).accounts[p.did], Credential(p.kind, p.app), jti, Seconds(now)))
  {
    var begin, read, consume := BeginRefresh(pid, m, Seconds(now)), ReadRefresh(pid), Consume(pid, Rfc3339(now));
    hide *;
    RefreshReaches(cfg, acts, pid, m, now);
    var checked := acts + [begin] + [read] + [consume];
    IssuingIssues(cfg, checked, pid, jti, now, expires);
    ExchangeIs(Now(After(cfg, acts)), m, jti, now, expires);
    assert acts + [begin, read, consume, Mint(pid, jti, Seconds(now)), Insert(pid, Rfc3339(now), Rfc3339(expires))] ==
           checked + [Mint(pid, jti, Seconds(now)), Insert(pid, Rfc3339(now), Rfc3339(expires))];
  }

  lemma ExchangeIs(t: Tables, m: Minted, jti: string, now: Instant, expires: Instant)
    requires CanExchange(t, ParsedOf(m), now)
    ensures var c := m.token.claims;
      && ParsedOf(m).did == c.did && ParsedOf(m).kind == c.kind && ParsedOf(m).app == c.app
      && Exchanged(t, ParsedOf(m), jti, now, expires) ==
        WithSession(WithoutToken(t, c.jti), t.accounts[c.did], Credential(c.kind, c.app), jti, now, expires)
  {
    hide WithSession;
  }

  lemma RefreshReaches(cfg: Config, acts: seq<Act>, pid: nat, m: Minted, now: Instant)
    requires Possible(cfg, acts) && After(cfg, acts).hist != [] && m in After(cfg, acts).issued
    requires pid !in After(cfg, acts).procs && Redeemable(Now(After(cfg, acts)), cfg.secret, m.token, now)
    ensures var w, c := After(cfg, acts), m.token.claims;
      var checked := acts + [BeginRefresh(pid, m, Seconds(now))] + [ReadRefresh(pid)] + [Consume(pid, Rfc3339(now))];
      && CanExchange(Now(w), ParsedOf(m), now) && c.did in Now(w).accounts && Possible(cfg, checked)
      && var w' := After(cfg, checked);
      && w'.hist != [] && Now(w') == WithoutToken(Now(w), c.jti) && w'.used == w.used
      && pid in w'.procs && w'.procs[pid].Issuing? && w'.procs[pid].acct == Now(w).accounts[c.did]
      && w'.procs[pid].credential == Credential(c.kind, c.app)
  {
    var begin, read, consume := BeginRefresh(pid, m, Seconds(now)), ReadRefresh(pid), Consume(pid, Rfc3339(now));
    RefreshChecks(cfg, After(cfg, acts), pid, m, now);
    hide *;
    OneMoreAct(cfg, acts, begin);
    OneMoreAct(cfg, acts + [begin], read);
    OneMoreAct(cfg, acts + [begin] + [read], consume);
  }

  /** The refresh handler's checks, one after the other. */
  lemma RefreshChecks(cfg: Config, w: World, pid: nat, m: Minted, now: Instant)
    requires w.hist != [] && m in w.issued && pid !in w.procs && Redeemable(Now(w), cfg.secret, m.token, now)
    ensures var begin, read := BeginRefresh(pid, m, Seconds(now)), ReadRefresh(pid);
      var consume := Consume(pid, Rfc3339(now));
      && CanExchange(Now(w), ParsedOf(m), now) && m.token.claims.did in Now(w).accounts
      && Enabled(cfg, w, begin)
      && Enabled(cfg, Next(cfg, w, begin), read)
      && Enabled(cfg, Next(cfg, Next(cfg, w, begin), read), consume)
      && var w' := Next(cfg, Next(cfg, Next(cfg, w, begin), read), consume);
      && w'.hist != [] && Now(w') == WithoutToken(Now(w), m.token.claims.jti) && w'.used == w.used
      && pid in w'.procs && w'.procs[pid].Issuing? && w'.procs[pid].acct == Now(w).accounts[m.token.claims.did]
      && w'.procs[pid].credential == Credential(m.token.claims.kind, m.token.claims.app)
  {
    RedeemableIff(Now(w), cfg.secret, m.token, now);
    hide Rfc3339, Seconds, Redeemable;
    var c := m.token.claims;
    var begin, read, consume := BeginRefresh(pid, m, Seconds(now)), ReadRefresh(pid), Consume(pid, Rfc3339(now));
    var w1 := Next(cfg, w, begin);
    assert w1.procs[pid] == RefreshFound(m, Now(w).tokens[c.jti]) && Now(w1) == Now(w);
    var w2 := Next(cfg, w1, read);
    assert w2.procs[pid] == RefreshRead(m, Now(w).accounts[c.did], |w1.hist| - 1) && Now(w2) == Now(w);
  }

  /** The three statements of a request. */
  function Asking(pid: nat, m: Minted, g: Gate, now: Instant): seq<Act> {
    [BeginRequest(pid, m, g, Seconds(now)), ReadRequest(pid), Decide(pid)]
  }

  /** A request left to itself is let through exactly if the server's gate would let it through. */
  lemma RequestAlone(cfg: Config, acts: seq<Act>, pid: nat, m: Minted, g: Gate, now: Instant)
    requires Possible(cfg, acts) && After(cfg, acts).hist != [] && m in After(cfg, acts).issued
    requires pid !in After(cfg, acts).procs
    ensures var w, more := After(cfg, acts), acts + Asking(pid, m, g, now);
      LetThrough(Now(w), cfg.secret, m.token, g, Seconds(now)) <==>
        Possible(cfg, more) && exists grant :: grant in After(cfg, more).granted && grant !in w.granted
  {
    RunStaysTraced(cfg, acts);
    var w := After(cfg, acts);
    assert AppsDistinct(Now(w).apps);
    GateIff(Now(w), cfg.secret, m.token, g, Seconds(now));
    var more := acts + Asking(pid, m, g, now);
    if Admitted(cfg, Now(w), m, g, Seconds(now)) {
      AdmittedGoesThrough(cfg, acts, pid, m, g, now);
    }
    if Possible(cfg, more) && exists grant :: grant in After(cfg, more).granted && grant !in w.granted {
      GrantedWasAdmitted(cfg, acts, pid, m, g, now);
    }
  }

  /** The gate's answer to this request. */
  predicate Admitted(cfg: Config, t: Tables, m: Minted, g: Gate, now: int) {
    && Parse(cfg.secret, m.token, ACCESS_SCOPE, now).Ok?
    && Admit(ByDid(t.accounts, m.token.claims.did), AppsOf(t.apps, m.token.claims.did), ParsedOf(m), g).Ok?
  }

  lemma AdmittedGoesThrough(cfg: Config, acts: seq<Act>, pid: nat, m: Minted, g: Gate, now: Instant)
    requires Possible(cfg, acts) && After(cfg, acts).hist != [] && m in After(cfg, acts).issued
    requires pid !in After(cfg, acts).procs && Admitted(cfg, Now(After(cfg, acts)), m, g, Seconds(now))
    ensures var w, more := After(cfg, acts), acts + Asking(pid, m, g, now);
      Possible(cfg, more) && exists grant :: grant in After(cfg, more).granted && grant !in w.granted
  {
    RunStaysTraced(cfg, acts);
    var w := After(cfg, acts);
    var acct, n := Now(w).accounts[m.token.claims.did], |w.hist|;
    var begin, read, decide := BeginRequest(pid, m, g, Seconds(now)), ReadRequest(pid), Decide(pid);
    var grant := Grant(m, g, n - 1, acct, n, n + 1);
    assert forall x :: x in w.granted ==> x.appsAt < n by {
      assert forall x :: x in w.granted ==> GrantOk(w.hist, w.logins, x);
    }
    RequestSteps(cfg, w, pid, m, g, now);
    hide *;
    OneMoreAct(cfg, acts, begin);
    OneMoreAct(cfg, acts + [begin], read);
    OneMoreAct(cfg, acts + [begin] + [read], decide);
    AskingIs(acts, pid, m, g, now);
  }

  lemma AskingIs(acts: seq<Act>, pid: nat, m: Minted, g: Gate, now: Instant)
    ensures acts + Asking(pid, m, g, now) ==
      acts + [BeginRequest(pid, m, g, Seconds(now))] + [ReadRequest(pid)] + [Decide(pid)]
  {
  }

  /** The request's statements, one after the other. */
  lemma RequestSteps(cfg: Config, w: World, pid: nat, m: Minted, g: Gate, now: Instant)
    requires w.hist != [] && m in w.issued && pid !in w.procs && Admitted(cfg, Now(w), m, g, Seconds(now))
    ensures var begin, read, decide := BeginRequest(pid, m, g, Seconds(now)), ReadRequest(pid), Decide(pid);
      && m.token.claims.did in Now(w).accounts
      && Enabled(cfg, w, begin)
      && Enabled(cfg, Next(cfg, w, begin), read)
      && Enabled(cfg, Next(cfg, Next(cfg, w, begin), read), decide)
      && Grant(m, g, |w.hist| - 1, Now(w).accounts[m.token.claims.did], |w.hist|, |w.hist| + 1)
        in Next(cfg, Next(cfg, Next(cfg, w, begin), read), decide).granted
  {
    hide Seconds, MatchingAppCredential, AppsOf;
    var begin, read := BeginRequest(pid, m, g, Seconds(now)), ReadRequest(pid);
    var w1 := Next(cfg, w, begin);
    assert w1.procs[pid] == Request(m, g, |w.hist| - 1) && Now(w1) == Now(w) && |w1.hist| == |w.hist| + 1;
    var w2 := Next(cfg, w1, read);
    assert w2.procs[pid] == RequestRead(m, g, |w.hist| - 1, Now(w).accounts[m.token.claims.did], |w.hist|);
    assert Now(w2) == Now(w) && |w2.hist| == |w.hist| + 2;
  }

  lemma LastAct(cfg: Config, acts: seq<Act>, a: Act)
    requires Possible(cfg, acts + [a])
    ensures Possible(cfg, acts) && Enabled(cfg, After(cfg, acts), a)
    ensures After(cfg, acts + [a]) == Next(cfg, After(cfg, acts), a)
  {
    assert (acts + [a])[..|acts|] == acts;
  }

  lemma GrantedWasAdmitted(cfg: Config, acts: seq<Act>, pid: nat, m: Minted, g: Gate, now: Instant)
    requires Possible(cfg, acts) && After(cfg, acts).hist != []
    requires Possible(cfg, acts + Asking(pid, m, g, now))
    requires exists grant ::
      grant in After(cfg, acts + Asking(pid, m, g, now)).granted && grant !in After(cfg, acts).granted
    ensures Admitted(cfg, Now(After(cfg, acts)), m, g, Seconds(now))
  {
    var begin, read, decide := BeginRequest(pid, m, g, Seconds(now)), ReadRequest(pid), Decide(pid);
    AskingIs(acts, pid, m, g, now);
    hide Possible, After, Next, Enabled, Admitted;
    LastAct(cfg, acts + [begin] + [read], decide);
    LastAct(cfg, acts + [begin], read);
    LastAct(cfg, acts, begin);
    StepsGranted(cfg, After(cfg, acts), pid, m, g, now);
  }

  lemma StepsGranted(cfg: Config, w: World, pid: nat, m: Minted, g: Gate, now: Instant)
    requires var begin, read, decide := BeginRequest(pid, m, g, Seconds(now)), ReadRequest(pid), Decide(pid);
      && Enabled(cfg, w, begin) && Enabled(cfg, Next(cfg, w, begin), read)
      && Enabled(cfg, Next(cfg, Next(cfg, w, begin), read), decide)
      && exists grant ::
        grant in Next(cfg, Next(cfg, Next(cfg, w, begin), read), decide).granted && grant !in w.granted
    ensures Admitted(cfg, Now(w), m, g, Seconds(now))
  {
    hide Seconds, MatchingAppCredential, AppsOf;
    var begin, read := BeginRequest(pid, m, g, Seconds(now)), ReadRequest(pid);
    var w1 := Next(cfg, w, begin);
    assert w1.procs[pid] == Request(m, g, |w.hist| - 1) && Now(w1) == Now(w) && w1.granted == w.granted;
    var w2 := Next(cfg, w1, read);
    assert Now(w2) == Now(w) && w2.granted == w.granted;
  }
}
