/** Listing the hosted repos in pages: rows come in creation order, cursors compare DIDs. */
module RepoList {
  import opened Common
  import opened Order
  import opened Paging

  /** An account, in creation order, and whether it has a repo. */
  datatype Hosted = Hosted(did: string, hasRepo: bool)

  function WithRepo(accounts: seq<Hosted>): seq<string> {
    if accounts == [] then [] else
      (if accounts[0].hasRepo then [accounts[0].did] else []) + WithRepo(accounts[1..])
  }

  method ListRepos(accounts: seq<Hosted>, cursor: string, limit: nat)
    returns (page: seq<string>, next: Option<string>)
    requires limit > 0
    ensures page == PageOf(false, WithRepo(accounts), cursor, limit) && next == NextCursor(page, limit)
  {
    hide Beyond, WithRepo, Less;
    page := [];
    var i := 0;
    assert accounts[0..] == accounts;
    while i < |accounts| && |page| < limit
      invariant i <= |accounts| && |page| <= limit
      invariant page + Beyond(false, WithRepo(accounts[i..]), cursor) == Beyond(false, WithRepo(accounts), cursor)
    {
      WithRepoStep(accounts, i, cursor);
      if accounts[i].hasRepo {
        if cursor == "" || Less(cursor, accounts[i].did) {
          page := page + [accounts[i].did];
        }
      }
      i := i + 1;
    }
    if i == |accounts| {
      assert accounts[i..] == [];
      NoneLeft(cursor);
    }
    assert page == Beyond(false, WithRepo(accounts), cursor)[..|page|];
    next := if |page| == limit then Some(page[|page| - 1]) else None;
  }

  lemma NoneLeft(cursor: string)
    ensures Beyond(false, WithRepo([]), cursor) == []
  {
  }

  lemma WithRepoStep(accounts: seq<Hosted>, i: nat, cursor: string)
    requires i < |accounts|
    ensures var a, rest := accounts[i], Beyond(false, WithRepo(accounts[i + 1..]), cursor);
      Beyond(false, WithRepo(accounts[i..]), cursor) ==
        if a.hasRepo && (cursor == "" || Less(cursor, a.did)) then [a.did] + rest else rest
  {
    assert accounts[i..][1..] == accounts[i + 1..];
    var rest := WithRepo(accounts[i + 1..]);
    if accounts[i].hasRepo {
      assert ([accounts[i].did] + rest)[1..] == rest;
    } else {
      assert [] + rest == rest;
    }
  }

  /** Every full page ends with its greatest DID, and all created later are greater. */
  ghost predicate Aligned(dids: seq<string>, limit: nat)
    requires limit > 0
    decreases |dids|
  {
    |dids| < limit || (Boundary(dids, limit) && Aligned(dids[limit..], limit))
  }

  ghost predicate Boundary(dids: seq<string>, limit: nat)
    requires 0 < limit <= |dids|
  {
    && (forall x :: x in dids[..limit] ==> !Less(dids[limit - 1], x))
    && forall x :: x in dids[limit..] ==> Less(dids[limit - 1], x)
  }

  ghost predicate Distinct(dids: seq<string>) {
    forall i, j :: 0 <= i < j < |dids| ==> dids[i] != dids[j]
  }

  lemma Associate(x: seq<string>, y: seq<string>, z: seq<string>)
    ensures x + (y + z) == (x + y) + z
  {
  }

  lemma {:induction false} BeyondConcat(a: seq<string>, b: seq<string>, c: string)
    ensures Beyond(false, a + b, c) == Beyond(false, a, c) + Beyond(false, b, c)
  {
    hide Before;
    if a == [] {
      assert a + b == b;
    } else {
      BeyondConcat(a[1..], b, c);
      assert (a + b)[1..] == a[1..] + b && (a + b)[0] == a[0];
      Associate(if c == "" || Before(false, c, a[0]) then [a[0]] else [],
        Beyond(false, a[1..], c), Beyond(false, b, c));
    }
  }

  lemma {:induction false} BeyondAgain(dids: seq<string>, c: string, d: string)
    requires d != "" && (c == "" || Less(c, d))
    ensures Beyond(false, Beyond(false, dids, c), d) == Beyond(false, dids, d)
  {
    if dids != [] {
      BeyondAgain(dids[1..], c, d);
      var rest := Beyond(false, dids[1..], c);
      if c == "" || Less(c, dids[0]) {
        assert ([dids[0]] + rest)[1..] == rest;
      } else if Less(d, dids[0]) {
        LessTransitive(c, d, dids[0]);
        assert false;
      } else {
        assert Beyond(false, dids, c) == rest;
      }
    }
  }

  /** Beyond one of them there are fewer, still distinct. */
  lemma {:induction false} BeyondShorter(dids: seq<string>, c: string)
    requires c != "" && c in dids
    ensures |Beyond(false, dids, c)| < |dids|
  {
    LessTotal(c, c);
    if dids[0] == c {
      BeyondNoLonger(dids[1..], c);
    } else {
      BeyondShorter(dids[1..], c);
    }
  }

  lemma {:induction false} BeyondNoLonger(dids: seq<string>, c: string)
    ensures |Beyond(false, dids, c)| <= |dids|
  {
    if dids != [] {
      BeyondNoLonger(dids[1..], c);
    }
  }

  lemma {:induction false} BeyondDistinct(dids: seq<string>, c: string)
    requires Distinct(dids)
    ensures Distinct(Beyond(false, dids, c))
  {
    if dids != [] {
      BeyondDistinct(dids[1..], c);
      BeyondSelects(false, dids[1..], c);
      var rest := Beyond(false, dids[1..], c);
      forall i | 0 <= i < |rest| ensures rest[i] != dids[0] {
        assert rest[i] in rest;
      }
    }
  }

  lemma {:induction false} BeyondNone(dids: seq<string>, c: string)
    requires c != "" && forall x :: x in dids ==> !Less(c, x)
    ensures Beyond(false, dids, c) == []
  {
    if dids != [] {
      BeyondNone(dids[1..], c);
    }
  }

  /** What comes after a full page. */
  function After(dids: seq<string>, limit: nat): seq<string>
    requires 0 < limit <= |dids|
  {
    Beyond(false, dids, dids[limit - 1])
  }

  lemma BoundaryRests(dids: seq<string>, limit: nat)
    requires 0 < limit <= |dids| && Boundary(dids, limit) && dids[limit - 1] != ""
    ensures After(dids, limit) == dids[limit..]
  {
    var last := dids[limit - 1];
    assert dids == dids[..limit] + dids[limit..];
    BeyondConcat(dids[..limit], dids[limit..], last);
    BeyondNone(dids[..limit], last);
    assert forall i :: 0 <= i < |dids[limit..]| ==> dids[limit..][i] in dids[limit..];
    BeyondAll(false, dids[limit..], last);
  }

  /** A DID on the page past its last one puts a DID of the page first on the next. */
  lemma RepeatedFirst(dids: seq<string>, limit: nat, x: string)
    requires 0 < limit <= |dids| && x in dids[..limit] && Less(dids[limit - 1], x)
    ensures After(dids, limit) != [] && After(dids, limit)[0] in dids[..limit]
  {
    var last := dids[limit - 1];
    assert dids == dids[..limit] + dids[limit..];
    BeyondConcat(dids[..limit], dids[limit..], last);
    BeyondSelects(false, dids[..limit], last);
    var again := Beyond(false, dids[..limit], last);
    assert x in again;
    assert again[0] in again;
  }

  /** Each exactly once. */
  ghost predicate Once(listed: seq<string>, dids: seq<string>) {
    multiset(listed) == multiset(dids)
  }

  lemma {:induction false} CountOne(dids: seq<string>, x: string)
    requires Distinct(dids)
    ensures multiset(dids)[x] <= 1
  {
    if dids != [] {
      CountOne(dids[1..], x);
      assert dids == [dids[0]] + dids[1..];
      if x == dids[0] {
        assert x !in dids[1..];
        assert x !in multiset(dids[1..]);
      }
    }
  }

  /** A page that does not end at a boundary: something comes twice or never. */
  lemma MisalignedPage(dids: seq<string>, limit: nat, later: seq<string>)
    requires 0 < limit <= |dids| && Distinct(dids) && dids[limit - 1] != "" && !Boundary(dids, limit)
    requires forall x :: x in later ==> x in After(dids, limit)
    requires After(dids, limit) != [] ==> After(dids, limit)[0] in later
    ensures !Once(dids[..limit] + later, dids)
  {
    var page, tail, last := dids[..limit], dids[limit..], dids[limit - 1];
    assert dids == page + tail;
    BeyondSelects(false, dids, last);
    if x :| x in page && Less(last, x) {
      RepeatedFirst(dids, limit, x);
      var y := After(dids, limit)[0];
      CountOne(dids, y);
      assert y in multiset(page) && y in multiset(later);
      assert multiset(page + later)[y] == multiset(page)[y] + multiset(later)[y] >= 2;
    } else {
      var x :| x in tail && !Less(last, x);
      var j :| 0 <= j < |tail| && tail[j] == x;
      assert dids[limit + j] == x;
      assert x !in page && x !in later;
      assert x in multiset(dids) && x !in multiset(page + later);
    }
  }

  lemma OnceAfterPage(page: seq<string>, later: seq<string>, tail: seq<string>)
    ensures Once(page + later, page + tail) <==> Once(later, tail)
  {
    assert multiset(page + later) == multiset(page) + multiset(later);
    assert multiset(page + tail) == multiset(page) + multiset(tail);
    if Once(page + later, page + tail) {
      assert multiset(later) == multiset(page + later) - multiset(page);
      assert multiset(tail) == multiset(page + tail) - multiset(page);
    }
  }

  /** What the rest of a walk lists, when it starts from a cursor. */
  ghost predicate Lists(pages: Option<seq<seq<string>>>, rest: seq<string>, limit: nat)
    requires limit > 0
  {
    && pages.Some? && (forall x :: x in Flatten(pages.value) ==> x in rest)
    && (rest != [] ==> rest[0] in Flatten(pages.value))
    && (Once(Flatten(pages.value), rest) <==> Aligned(rest, limit))
    && (Aligned(rest, limit) ==> Flatten(pages.value) == rest)
  }

  lemma ShortPage(rest: seq<string>, limit: nat)
    requires |rest| < limit
    ensures Lists(Some([rest]), rest, limit)
  {
    assert Flatten([rest]) == rest + Flatten([]);
    assert rest + [] == rest;
  }

  lemma FullPage(rest: seq<string>, limit: nat, pages: seq<seq<string>>)
    requires 0 < limit <= |rest| && Distinct(rest) && rest[limit - 1] != ""
    requires Lists(Some(pages), After(rest, limit), limit)
    ensures Lists(Some([rest[..limit]] + pages), rest, limit)
  {
    FlattenOne(rest[..limit], pages);
    FirstPage(rest, limit);
    BeyondSelects(false, rest, rest[limit - 1]);
    hide Boundary, Once, Distinct, Flatten, Beyond;
    var page, later := rest[..limit], Flatten(pages);
    if Boundary(rest, limit) {
      BoundaryRests(rest, limit);
      OnceAfterPage(page, later, rest[limit..]);
    } else {
      MisalignedPage(rest, limit, later);
    }
  }

  lemma FirstPage(rest: seq<string>, limit: nat)
    requires 0 < limit <= |rest|
    ensures var page := rest[..limit];
      page + rest[limit..] == rest && rest[0] in page && forall x :: x in page ==> x in rest
  {
    assert rest[..limit][0] == rest[0];
  }

  lemma {:induction false} WalkLists(dids: seq<string>, cursor: string, limit: nat, requests: nat)
    requires limit > 0 && Distinct(dids) && "" !in dids
    requires requests > |Beyond(false, dids, cursor)|
    ensures Lists(Walk(false, dids, cursor, limit, requests), Beyond(false, dids, cursor), limit)
    decreases requests
  {
    hide Lists, Distinct, Beyond;
    var rest := Beyond(false, dids, cursor);
    BeyondDistinct(dids, cursor);
    BeyondSelects(false, dids, cursor);
    if |rest| < limit {
      ShortPage(rest, limit);
    } else {
      var last := rest[limit - 1];
      assert last in rest && last != "";
      BeyondAgain(dids, cursor, last);
      BeyondShorter(rest, last);
      WalkLists(dids, last, limit, requests - 1);
      IsSome(Walk(false, dids, last, limit, requests - 1), After(rest, limit), limit);
      WalkStep(dids, cursor, limit, requests);
      FullPage(rest, limit, Walk(false, dids, last, limit, requests - 1).value);
    }
  }

  lemma WalkStep(dids: seq<string>, cursor: string, limit: nat, requests: nat)
    requires limit > 0 && requests > 0 && |Beyond(false, dids, cursor)| >= limit
    requires Walk(false, dids, Beyond(false, dids, cursor)[limit - 1], limit, requests - 1).Some?
    ensures var rest := Beyond(false, dids, cursor);
      Walk(false, dids, cursor, limit, requests) ==
        Some([rest[..limit]] + Walk(false, dids, rest[limit - 1], limit, requests - 1).value)
  {
    var rest := Beyond(false, dids, cursor);
    assert Take(rest, limit) == rest[..limit] && rest[..limit][limit - 1] == rest[limit - 1];
  }

  lemma IsSome(pages: Option<seq<seq<string>>>, rest: seq<string>, limit: nat)
    requires limit > 0 && Lists(pages, rest, limit)
    ensures pages.Some?
  {
  }

  lemma {:induction false} WithRepoIff(accounts: seq<Hosted>, did: string)
    ensures did in WithRepo(accounts) <==> Hosted(did, true) in accounts
  {
    if accounts != [] {
      WithRepoIff(accounts[1..], did);
      assert accounts == [accounts[0]] + accounts[1..];
    }
  }

  /** Following cursors ends, and lists every repo exactly once if and only if every full page
      ends with its greatest DID and all repos created later have greater ones. */
  lemma ReposListedIff(accounts: seq<Hosted>, limit: nat, requests: nat)
    requires limit > 0 && Distinct(WithRepo(accounts)) && "" !in WithRepo(accounts)
    requires requests > |WithRepo(accounts)|
    ensures var dids, pages := WithRepo(accounts), Walk(false, WithRepo(accounts), "", limit, requests);
      && pages.Some?
      && (Once(Flatten(pages.value), dids) <==> Aligned(dids, limit))
      && (Aligned(dids, limit) ==> Flatten(pages.value) == dids)
    ensures forall did :: did in WithRepo(accounts) <==> Hosted(did, true) in accounts
  {
    forall did ensures did in WithRepo(accounts) <==> Hosted(did, true) in accounts {
      WithRepoIff(accounts, did);
    }
    var dids := WithRepo(accounts);
    BeyondAll(false, dids, "");
    WalkLists(dids, "", limit, requests);
  }

  /** Of two repos the one created later, with the smaller DID, is never listed in pages of one. */
  lemma RepoDropped(first: string, second: string)
    requires Less(second, first) && second != ""
    ensures Walk(false, [first, second], "", 1, 3) == Some([[first], []])
  {
    var dids := [first, second];
    BeyondAll(false, dids, "");
    LessTotal(first, second);
    LessTotal(first, first);
    BeyondNone(dids, first);
    hide Beyond, Less;
    LastPage(dids, first);
    WalkStep(dids, "", 1, 3);
    assert dids[..1] == [first] && [[first]] + [[]] == [[first], []];
  }

  lemma LastPage(dids: seq<string>, cursor: string)
    requires Beyond(false, dids, cursor) == []
    ensures Walk(false, dids, cursor, 1, 2) == Some([[]])
  {
    hide Beyond;
  }
}
