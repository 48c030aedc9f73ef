/** Accounts, refresh tokens and app passwords, and the statements that change them. */
module Accounts {
  import opened Common
  import opened Order
  import opened Timestamps

  const ACTIVE := "active"
  const DEACTIVATED := "deactivated"
  const TAKEN_DOWN := "taken-down"

  datatype Account = Account(did: string, handle: string, passwordHash: string, status: string, version: int)

  datatype RefreshRow = RefreshRow(did: string, expires: string, version: int, kind: string, app: string)

  datatype AppPassword = AppPassword(did: string, name: string, passwordHash: string, privileged: bool, created: string)

  /** Refresh rows are keyed by the hash of the token's identifier, taken here to be the
      identifier itself. App passwords are in the order they were stored. */
  datatype Tables = Tables(accounts: map<string, Account>, tokens: map<string, RefreshRow>, apps: seq<AppPassword>)

  datatype Error = NotFound | Conflict

  // ----- looking an account up -----

  ghost predicate HandlesUnique(accounts: map<string, Account>) {
    forall d, e :: d in accounts && e in accounts && accounts[d].handle == accounts[e].handle ==> d == e
  }

  predicate IsDid(identifier: string) {
    |identifier| > 4 && identifier[..4] == "did:"
  }

  function ByDid(accounts: map<string, Account>, did: string): Option<Account> {
    if did in accounts then Some(accounts[did]) else None
  }

  function ByHandle(accounts: map<string, Account>, handle: string): Option<Account>
    requires HandlesUnique(accounts)
  {
    if exists d :: d in accounts && accounts[d].handle == handle then
      var d :| d in accounts && accounts[d].handle == handle;
      Some(accounts[d])
    else None
  }

  function ByIdentifier(accounts: map<string, Account>, identifier: string): Option<Account>
    requires HandlesUnique(accounts)
  {
    if IsDid(identifier) then ByDid(accounts, identifier) else ByHandle(accounts, identifier)
  }

  // ----- the new table of each statement -----

  /** A version below one is raised to one. */
  function Added(t: Tables, a: Account): Tables {
    t.(accounts := t.accounts[a.did := a.(version := if a.version < 1 then 1 else a.version)])
  }

  function Bumped(t: Tables, did: string, hash: string, status: string): Tables
    requires did in t.accounts
  {
    var a := t.accounts[did];
    t.(accounts := t.accounts[did := a.(passwordHash := hash, status := status, version := a.version + 1)])
  }

  function Activated(t: Tables, did: string): Tables
    requires did in t.accounts
  {
    t.(accounts := t.accounts[did := t.accounts[did].(status := ACTIVE)])
  }

  /** Rows of this account that the text comparison takes for expired are gone. */
  function Pruned(tokens: map<string, RefreshRow>, did: string, now: string): map<string, RefreshRow> {
    map k | k in tokens && !(tokens[k].did == did && !Less(now, tokens[k].expires)) :: tokens[k]
  }

  predicate Consumable(t: Tables, key: string, did: string, version: int, now: string) {
    key in t.tokens && t.tokens[key].did == did && t.tokens[key].version == version && Less(now, t.tokens[key].expires)
  }

  function WithoutToken(t: Tables, key: string): Tables {
    t.(tokens := t.tokens - {key})
  }

  function WithoutTokensOf(t: Tables, did: string): Tables {
    t.(tokens := map k | k in t.tokens && t.tokens[k].did != did :: t.tokens[k])
  }

  /** After the ones created no later. */
  function InsertByCreated(aps: seq<AppPassword>, ap: AppPassword): seq<AppPassword> {
    if aps == [] || !Less(ap.created, aps[|aps| - 1].created) then aps + [ap]
    else InsertByCreated(aps[..|aps| - 1], ap) + [aps[|aps| - 1]]
  }

  /** An account's app passwords by creation time; equal times keep the order of storing. */
  function AppsOf(apps: seq<AppPassword>, did: string): seq<AppPassword> {
    if apps == [] then [] else
      var prior, last := AppsOf(apps[..|apps| - 1], did), apps[|apps| - 1];
      if last.did == did then InsertByCreated(prior, last) else prior
  }

  predicate HasApp(apps: seq<AppPassword>, did: string, name: string) {
    exists i :: 0 <= i < |apps| && apps[i].did == did && apps[i].name == name
  }

  /** Each account has an app password of a name at most once. */
  ghost predicate AppsDistinct(apps: seq<AppPassword>) {
    forall i, j :: 0 <= i < j < |apps| ==> !(apps[i].did == apps[j].did && apps[i].name == apps[j].name)
  }

  function WithoutApp(apps: seq<AppPassword>, did: string, name: string): seq<AppPassword> {
    if apps == [] then [] else
      WithoutApp(apps[..|apps| - 1], did, name) +
      if apps[|apps| - 1].did == did && apps[|apps| - 1].name == name then [] else [apps[|apps| - 1]]
  }

  /** An app password goes together with the refresh rows of its sessions. */
  function Revoked(t: Tables, did: string, name: string): Tables {
    Tables(t.accounts,
      map k | k in t.tokens && !(t.tokens[k].did == did && t.tokens[k].app == name) :: t.tokens[k],
      WithoutApp(t.apps, did, name))
  }

  lemma {:induction false} InsertSelects(aps: seq<AppPassword>, ap: AppPassword)
    ensures forall x :: x in InsertByCreated(aps, ap) <==> x in aps || x == ap
    ensures |InsertByCreated(aps, ap)| == |aps| + 1
  {
    if aps != [] && Less(ap.created, aps[|aps| - 1].created) {
      InsertSelects(aps[..|aps| - 1], ap);
      assert aps == aps[..|aps| - 1] + [aps[|aps| - 1]];
    }
  }

  ghost predicate ByCreated(aps: seq<AppPassword>) {
    forall i, j :: 0 <= i < j < |aps| ==> !Less(aps[j].created, aps[i].created)
  }

  lemma {:induction false} InsertKeepsOrder(aps: seq<AppPassword>, ap: AppPassword)
    requires ByCreated(aps)
    ensures ByCreated(InsertByCreated(aps, ap))
  {
    if aps == [] {
    } else if Less(ap.created, aps[|aps| - 1].created) {
      var prior, last := aps[..|aps| - 1], aps[|aps| - 1];
      InsertKeepsOrder(prior, ap);
      InsertSelects(prior, ap);
      var grown := InsertByCreated(prior, ap);
      forall i | 0 <= i < |grown| ensures !Less(last.created, grown[i].created) {
        assert grown[i] in grown;
        LessTotal(ap.created, last.created);
      }
    } else {
      forall i | 0 <= i < |aps| ensures !Less(ap.created, aps[i].created) {
        NotLater(aps[i].created, aps[|aps| - 1].created, ap.created);
      }
    }
  }

  lemma NotLater(a: string, b: string, c: string)
    requires !Less(c, b) && (a == b || !Less(b, a))
    ensures !Less(c, a)
  {
    LessTotal(a, b);
    LessTotal(b, c);
    if Less(c, a) && Less(a, b) {
      LessTransitive(c, a, b);
    }
  }

  lemma {:induction false} AppsOfSelects(apps: seq<AppPassword>, did: string)
    ensures forall ap :: ap in AppsOf(apps, did) <==> ap in apps && ap.did == did
  {
    if apps != [] {
      AppsOfSelects(apps[..|apps| - 1], did);
      InsertSelects(AppsOf(apps[..|apps| - 1], did), apps[|apps| - 1]);
      assert apps == apps[..|apps| - 1] + [apps[|apps| - 1]];
    }
  }

  lemma {:induction false} AppsOfInOrder(apps: seq<AppPassword>, did: string)
    ensures ByCreated(AppsOf(apps, did))
  {
    if apps != [] {
      AppsOfInOrder(apps[..|apps| - 1], did);
      InsertKeepsOrder(AppsOf(apps[..|apps| - 1], did), apps[|apps| - 1]);
    }
  }

  lemma {:induction false} WithoutAppSelects(apps: seq<AppPassword>, did: string, name: string)
    ensures forall ap :: ap in WithoutApp(apps, did, name) <==> ap in apps && !(ap.did == did && ap.name == name)
    ensures !HasApp(WithoutApp(apps, did, name), did, name)
  {
    if apps != [] {
      WithoutAppSelects(apps[..|apps| - 1], did, name);
      assert apps == apps[..|apps| - 1] + [apps[|apps| - 1]];
    }
  }

  lemma {:induction false} WithoutAppDistinct(apps: seq<AppPassword>, did: string, name: string)
    requires AppsDistinct(apps)
    ensures AppsDistinct(WithoutApp(apps, did, name))
  {
    if apps != [] {
      var prior := apps[..|apps| - 1];
      WithoutAppDistinct(prior, did, name);
      WithoutAppSelects(prior, did, name);
      var kept := WithoutApp(prior, did, name);
      forall i | 0 <= i < |kept|
          ensures !(kept[i].did == apps[|apps| - 1].did && kept[i].name == apps[|apps| - 1].name) {
        assert kept[i] in prior;
      }
    }
  }

  /** A consumed row had not expired, by whole seconds. */
  lemma ConsumableUnexpired(t: Tables, key: string, did: string, version: int, now: Instant, expires: Instant)
    requires Valid(now) && Valid(expires)
    requires key in t.tokens && t.tokens[key].expires == Rfc3339(expires)
    ensures Consumable(t, key, did, version, Rfc3339(now)) <==>
      t.tokens[key].did == did && t.tokens[key].version == version && Seconds(now) < Seconds(expires)
  {
    ExpiryTextOrder(now, expires);
  }

  /** Pruning removes exactly the rows of the account that can no longer be consumed. */
  lemma PrunedIffUnconsumable(t: Tables, key: string, did: string, now: string)
    requires key in t.tokens && t.tokens[key].did == did
    ensures key in Pruned(t.tokens, did, now) <==> Consumable(t, key, did, t.tokens[key].version, now)
    ensures key in Pruned(t.tokens, did, now) ==> Pruned(t.tokens, did, now)[key] == t.tokens[key]
  {
  }

  class Store {
    var accounts: map<string, Account>
    var tokens: map<string, RefreshRow>
    var apps: seq<AppPassword>

    function View(): Tables
      reads this
    {
      Tables(accounts, tokens, apps)
    }

    constructor ()
      ensures View() == Tables(map[], map[], [])
    {
      accounts, tokens, apps := map[], map[], [];
    }

    /** Identifier and handle are unique. */
    method CreateAccount(a: Account) returns (res: Result<(), Error>)
      modifies this
      ensures var taken :=
          a.did in old(accounts) || exists d :: d in old(accounts) && old(accounts)[d].handle == a.handle;
        && (taken ==> res == Err(Conflict) && View() == old(View()))
        && (!taken ==> res == Ok(()) && View() == Added(old(View()), a))
      ensures old(HandlesUnique(accounts)) ==> HandlesUnique(accounts)
    {
      if a.did in accounts || exists d :: d in accounts && accounts[d].handle == a.handle {
        return Err(Conflict);
      }
      accounts := accounts[a.did := a.(version := if a.version < 1 then 1 else a.version)];
      return Ok(());
    }

    method GetAccountByIdentifier(identifier: string) returns (found: Option<Account>)
      requires HandlesUnique(accounts)
      ensures found == ByIdentifier(accounts, identifier)
    {
      if IsDid(identifier) {
        return if identifier in accounts then Some(accounts[identifier]) else None;
      }
      var left := accounts.Keys;
      while left != {}
        invariant left <= accounts.Keys
        invariant forall d :: d in accounts && accounts[d].handle == identifier ==> d in left
        decreases left
      {
        var d :| d in left;
        if accounts[d].handle == identifier {
          return Some(accounts[d]);
        }
        left := left - {d};
      }
      return None;
    }

    method SetPasswordHash(did: string, hash: string) returns (res: Result<(), Error>)
      modifies this
      ensures did in old(accounts) ==>
        res == Ok(()) && View() == Bumped(old(View()), did, hash, old(accounts)[did].status)
      ensures did !in old(accounts) ==> res == Err(NotFound) && View() == old(View())
    {
      if did !in accounts {
        return Err(NotFound);
      }
      var a := accounts[did];
      accounts := accounts[did := a.(passwordHash := hash, version := a.version + 1)];
      return Ok(());
    }

    method SetStatus(did: string, status: string) returns (res: Result<(), Error>)
      modifies this
      ensures did in old(accounts) ==>
        res == Ok(()) && View() == Bumped(old(View()), did, old(accounts)[did].passwordHash, status)
      ensures did !in old(accounts) ==> res == Err(NotFound) && View() == old(View())
    {
      if did !in accounts {
        return Err(NotFound);
      }
      var a := accounts[did];
      accounts := accounts[did := a.(status := status, version := a.version + 1)];
      return Ok(());
    }

    /** Unlike the other changes of status this keeps the version, and so the sessions. */
    method ActivateAccount(did: string) returns (res: Result<(), Error>)
      modifies this
      ensures did in old(accounts) ==> res == Ok(()) && View() == Activated(old(View()), did)
      ensures did !in old(accounts) ==> res == Err(NotFound) && View() == old(View())
    {
      if did !in accounts {
        return Err(NotFound);
      }
      accounts := accounts[did := accounts[did].(status := ACTIVE)];
      return Ok(());
    }

    /** Pruning and inserting are separate statements: a conflict leaves the pruning done. */
    method CreateRefreshToken(key: string, row: RefreshRow, now: Instant) returns (res: Result<(), Error>)
      modifies this
      ensures var kept := Pruned(old(tokens), row.did, Rfc3339(now));
        && (key in kept ==> res == Err(Conflict) && View() == old(View()).(tokens := kept))
        && (key !in kept ==> res == Ok(()) && View() == old(View()).(tokens := kept[key := row]))
    {
      tokens := Pruned(tokens, row.did, Rfc3339(now));
      if key in tokens {
        return Err(Conflict);
      }
      tokens := tokens[key := row];
      return Ok(());
    }

    method ConsumeRefreshToken(key: string, did: string, version: int, now: Instant) returns (res: Result<(), Error>)
      modifies this
      ensures if Consumable(old(View()), key, did, version, Rfc3339(now))
        then res == Ok(()) && View() == WithoutToken(old(View()), key)
        else res == Err(NotFound) && View() == old(View())
    {
      if key !in tokens {
        return Err(NotFound);
      }
      var row := tokens[key];
      if row.did != did || row.version != version || !Less(Rfc3339(now), row.expires) {
        return Err(NotFound);
      }
      tokens := tokens - {key};
      return Ok(());
    }

    method DeleteRefreshToken(key: string)
      modifies this
      ensures View() == WithoutToken(old(View()), key)
    {
      tokens := tokens - {key};
    }

    method DeleteRefreshTokensForDid(did: string)
      modifies this
      ensures View() == WithoutTokensOf(old(View()), did)
    {
      tokens := map k | k in tokens && tokens[k].did != did :: tokens[k];
    }

    method CreateAppPassword(ap: AppPassword) returns (res: Result<(), Error>)
      modifies this
      ensures if HasApp(old(apps), ap.did, ap.name) then res == Err(Conflict) && View() == old(View())
        else res == Ok(()) && View() == old(View()).(apps := old(apps) + [ap])
      ensures old(AppsDistinct(apps)) ==> AppsDistinct(apps)
    {
      if HasApp(apps, ap.did, ap.name) {
        return Err(Conflict);
      }
      apps := apps + [ap];
      return Ok(());
    }

    method ListAppPasswords(did: string) returns (out: seq<AppPassword>)
      ensures out == AppsOf(apps, did)
      ensures ByCreated(out) && forall ap :: ap in out <==> ap in apps && ap.did == did
    {
      out := [];
      for i := 0 to |apps|
        invariant out == AppsOf(apps[..i], did)
      {
        if apps[i].did == did {
          out := InsertByCreated(out, apps[i]);
        }
        assert apps[..i + 1][..i] == apps[..i];
      }
      assert apps[..|apps|] == apps;
      AppsOfInOrder(apps, did);
      AppsOfSelects(apps, did);
    }

    /** One transaction: nothing changes when there is no such app password. */
    method RevokeAppPassword(did: string, name: string) returns (res: Result<(), Error>)
      modifies this
      ensures if HasApp(old(apps), did, name) then res == Ok(()) && View() == Revoked(old(View()), did, name)
        else res == Err(NotFound) && View() == old(View())
      ensures old(AppsDistinct(apps)) ==> AppsDistinct(apps)
    {
      if !HasApp(apps, did, name) {
        return Err(NotFound);
      }
      if AppsDistinct(apps) { WithoutAppDistinct(apps, did, name); }
      tokens := map k | k in tokens && !(tokens[k].did == did && tokens[k].app == name) :: tokens[k];
      apps := WithoutApp(apps, did, name);
      return Ok(());
    }
  }
}
