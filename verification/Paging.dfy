/** Listing in pages: what a client that follows the cursors gets to see. */
module Paging {
  import opened Common
  import opened Order
  import opened Content
  import opened ActorStore
  import opened RepoInvariant

  /** Page order: ascending keys, or descending when reversed. */
  predicate Before(reverse: bool, s: string, t: string) {
    if reverse then Less(t, s) else Less(s, t)
  }

  ghost predicate Ordered(reverse: bool, keys: seq<string>) {
    forall i, j :: 0 <= i < j < |keys| ==> Before(reverse, keys[i], keys[j])
  }

  /** Keys strictly after the cursor; the empty cursor is the beginning. */
  function Beyond(reverse: bool, keys: seq<string>, cursor: string): seq<string> {
    if keys == [] then [] else
      (if cursor == "" || Before(reverse, cursor, keys[0]) then [keys[0]] else []) + Beyond(reverse, keys[1..], cursor)
  }

  function Take<T>(s: seq<T>, n: nat): seq<T> {
    if |s| <= n then s else s[..n]
  }

  function PageOf(reverse: bool, keys: seq<string>, cursor: string, limit: nat): seq<string> {
    Take(Beyond(reverse, keys, cursor), limit)
  }

  /** A full page names its last key as the next cursor. */
  function NextCursor(page: seq<string>, limit: nat): Option<string> {
    if |page| == limit && page != [] then Some(page[|page| - 1]) else None
  }

  /** The pages a client gets by following cursors, if it is done within so many requests. */
  function Walk(reverse: bool, keys: seq<string>, cursor: string, limit: nat, requests: nat): Option<seq<seq<string>>>
    decreases requests
  {
    if requests == 0 then None else
      var page := PageOf(reverse, keys, cursor, limit);
      match NextCursor(page, limit)
      case None => Some([page])
      case Some(next) =>
        match Walk(reverse, keys, next, limit, requests - 1)
        case None => None
        case Some(pages) => Some([page] + pages)
  }

  function Flatten<T>(pages: seq<seq<T>>): seq<T> {
    if pages == [] then [] else pages[0] + Flatten(pages[1..])
  }

  // ----- one page is a slice of the ordered keys -----

  lemma BeforeTotal(reverse: bool, s: string, t: string)
    ensures Before(reverse, s, t) || s == t || Before(reverse, t, s)
    ensures !(Before(reverse, s, t) && Before(reverse, t, s)) && !Before(reverse, s, s)
  {
    LessTotal(s, t);
    LessTotal(t, s);
  }

  lemma {:induction false} BeyondAll(reverse: bool, keys: seq<string>, cursor: string)
    requires cursor == "" || forall i :: 0 <= i < |keys| ==> Before(reverse, cursor, keys[i])
    ensures Beyond(reverse, keys, cursor) == keys
  {
    if keys != [] {
      BeyondAll(reverse, keys[1..], cursor);
    }
  }

  lemma {:induction false} BeyondKth(reverse: bool, keys: seq<string>, k: nat)
    requires Ordered(reverse, keys) && k < |keys| && keys[k] != ""
    ensures Beyond(reverse, keys, keys[k]) == keys[k + 1..]
  {
    BeforeTotal(reverse, keys[0], keys[k]);
    if k == 0 {
      BeyondAll(reverse, keys[1..], keys[0]);
    } else {
      BeyondKth(reverse, keys[1..], k - 1);
    }
  }

  /** A cursor that has reached the k-th key. */
  ghost predicate Reached(reverse: bool, keys: seq<string>, cursor: string, k: nat) {
    k <= |keys| && Beyond(reverse, keys, cursor) == keys[k..]
  }

  // ----- following the cursors -----

  /** Slices of full length, and a last one that is shorter, maybe empty. */
  function Chunks(keys: seq<string>, limit: nat): seq<seq<string>>
    requires limit > 0
  {
    if |keys| < limit then [keys] else [keys[..limit]] + Chunks(keys[limit..], limit)
  }

  /** n / d, and whether d divides n, by subtraction. */
  function Quotient(n: nat, d: nat): nat
    requires d > 0
  {
    if n < d then 0 else 1 + Quotient(n - d, d)
  }

  predicate Divides(n: nat, d: nat)
    requires d > 0
  {
    n == 0 || (n >= d && Divides(n - d, d))
  }

  function Remainder(n: nat, d: nat): nat
    requires d > 0
  {
    if n < d then n else Remainder(n - d, d)
  }

  lemma {:induction false} Subtracting(n: nat, d: nat)
    requires d > 0
    ensures Remainder(n, d) < d && n == d * Quotient(n, d) + Remainder(n, d)
    ensures Remainder(n, d) == 0 <==> Divides(n, d)
  {
    if n < d {
      assert n == d * 0 + n;
    } else {
      Subtracting(n - d, d);
      var q := Quotient(n - d, d);
      assert d * (q + 1) == d * q + d;
    }
  }

  lemma SmallMultiple(d: int, x: int)
    requires d > 0 && -d < d * x < d
    ensures x == 0
  {
    assert x >= 1 ==> d * x >= d;
    assert x <= -1 ==> d * x <= -d;
  }

  lemma DivisionUnique(d: int, q: int, r: int, q': int, r': int)
    requires 0 <= r < d && 0 <= r' < d && d * q + r == d * q' + r'
    ensures q == q' && r == r'
  {
    assert d * (q - q') == d * q - d * q';
    SmallMultiple(d, q - q');
  }

  lemma Dividing(n: nat, d: nat)
    requires d > 0
    ensures Quotient(n, d) == n / d
    ensures Divides(n, d) <==> n % d == 0
  {
    hide Quotient, Remainder, Divides;
    Subtracting(n, d);
    Euclid(n, d);
    DivisionUnique(d, Quotient(n, d), Remainder(n, d), n / d, n % d);
  }

  lemma Euclid(n: nat, d: nat)
    requires d > 0
    ensures n == d * (n / d) + n % d && 0 <= n % d < d
  {
  }

  lemma {:induction false} ChunksCount(keys: seq<string>, limit: nat)
    requires limit > 0
    ensures |Chunks(keys, limit)| == Quotient(|keys|, limit) + 1
    ensures Flatten(Chunks(keys, limit)) == keys
  {
    if |keys| < limit {
      assert Flatten([keys]) == keys + Flatten([]);
    } else {
      ChunksCount(keys[limit..], limit);
      assert Chunks(keys, limit)[1..] == Chunks(keys[limit..], limit);
      assert keys[..limit] + keys[limit..] == keys;
    }
  }

  /** The empty key would be taken for the beginning: ascending it is the first key, and ends a
      page of one; descending it is the last, and ends a full page when the limit divides. */
  predicate Loops(reverse: bool, keys: seq<string>, limit: nat)
    requires limit > 0
  {
    "" in keys && if reverse then |keys| % limit == 0 else limit == 1
  }

  lemma EmptyKeyPlace(reverse: bool, keys: seq<string>, k: nat)
    requires Ordered(reverse, keys) && k < |keys|
    ensures keys[k] == "" <==> "" in keys && k == if reverse then |keys| - 1 else 0
  {
    if "" in keys {
      var place := if reverse then |keys| - 1 else 0;
      var i :| 0 <= i < |keys| && keys[i] == "";
      assert i < place ==> Before(reverse, keys[i], keys[place]);
      assert place < i ==> Before(reverse, keys[place], keys[i]);
      assert i == place;
      assert k < place ==> Before(reverse, keys[k], keys[place]);
      assert place < k ==> Before(reverse, keys[place], keys[k]);
      BeforeTotal(reverse, "", "");
    }
  }

  /** A page of full length from the k-th key on. */
  lemma FullPage(reverse: bool, keys: seq<string>, cursor: string, k: nat, limit: nat)
    requires limit > 0 && Ordered(reverse, keys) && Reached(reverse, keys, cursor, k) && k + limit <= |keys|
    ensures var page := PageOf(reverse, keys, cursor, limit);
      page == keys[k..k + limit] && NextCursor(page, limit) == Some(keys[k + limit - 1])
    ensures keys[k + limit - 1] != "" ==> Reached(reverse, keys, keys[k + limit - 1], k + limit)
  {
    hide Ordered, Beyond;
    assert keys[k..][..limit] == keys[k..k + limit];
    if keys[k + limit - 1] != "" {
      BeyondKth(reverse, keys, k + limit - 1);
    }
  }

  /** Without a loop, following cursors from the k-th key gives the rest in chunks. */
  lemma {:induction false} WalkChunks(reverse: bool, keys: seq<string>, cursor: string, k: nat, limit: nat,
      requests: nat)
    requires limit > 0 && Ordered(reverse, keys) && Reached(reverse, keys, cursor, k)
    requires "" in keys ==> if reverse then |keys| == k || !Divides(|keys| - k, limit) else k + limit != 1
    requires requests > Quotient(|keys| - k, limit)
    ensures Walk(reverse, keys, cursor, limit, requests) == Some(Chunks(keys[k..], limit))
    decreases |keys| - k
  {
    hide Beyond, Ordered;
    if |keys| - k < limit {
      assert NextCursor(PageOf(reverse, keys, cursor, limit), limit) == None;
    } else {
      var last := keys[k + limit - 1];
      EmptyKeyPlace(reverse, keys, k + limit - 1);
      assert k + limit == |keys| ==> Divides(0, limit) && Divides(limit, limit);
      FullPage(reverse, keys, cursor, k, limit);
      WalkChunks(reverse, keys, last, k + limit, limit, requests - 1);
      assert keys[k..][..limit] == keys[k..k + limit] && keys[k..][limit..] == keys[k + limit..];
    }
  }

  /** With a loop, it never ends. */
  lemma {:induction false} WalkLoops(reverse: bool, keys: seq<string>, cursor: string, k: nat, limit: nat,
      requests: nat)
    requires limit > 0 && Ordered(reverse, keys) && Reached(reverse, keys, cursor, k) && k < |keys|
    requires "" in keys
    requires if reverse then Divides(|keys| - k, limit) && Divides(|keys|, limit) else k == 0 && limit == 1
    ensures Walk(reverse, keys, cursor, limit, requests) == None
    decreases requests
  {
    hide Beyond, Ordered;
    if requests > 0 {
      var last := keys[k + limit - 1];
      FullPage(reverse, keys, cursor, k, limit);
      EmptyKeyPlace(reverse, keys, k + limit - 1);
      if last == "" {
        BeyondAll(reverse, keys, "");
        WalkLoops(reverse, keys, "", 0, limit, requests - 1);
      } else {
        WalkLoops(reverse, keys, last, k + limit, limit, requests - 1);
      }
    }
  }

  /** Following the cursors visits every key exactly once, in page order, in floor(n / limit) + 1
      requests, if and only if no empty key ends a page; otherwise it never ends. */
  lemma PagesVisitAll(reverse: bool, keys: seq<string>, limit: nat, requests: nat)
    requires limit > 0 && Ordered(reverse, keys) && requests > |keys| / limit
    ensures var pages := Walk(reverse, keys, "", limit, requests);
      && (pages.Some? <==> !Loops(reverse, keys, limit))
      && (pages.Some? ==> Flatten(pages.value) == keys && |pages.value| == |keys| / limit + 1)
  {
    BeyondAll(reverse, keys, "");
    Dividing(|keys|, limit);
    if Loops(reverse, keys, limit) {
      WalkLoops(reverse, keys, "", 0, limit, requests);
    } else {
      WalkChunks(reverse, keys, "", 0, limit, requests);
      ChunksCount(keys, limit);
      assert keys[0..] == keys;
    }
  }

  // ----- the record listing -----

  datatype Entry = Entry(row: Row, cid: Cid)

  datatype ListError = MissingBlock

  datatype Page = Page(records: seq<(Row, Record)>, cursor: Option<string>)

  /** The record keys of a collection. */
  function KeysOf(records: map<Row, Cid>, collection: string): set<string> {
    set row | row in records && row.0 == collection :: row.1
  }

  /** A set of keys in page order. */
  ghost function Listing(reverse: bool, keys: set<string>): seq<string> {
    if reverse then Reversed(Sort(keys)) else Sort(keys)
  }

  lemma ListingLists(reverse: bool, keys: set<string>)
    ensures Ordered(reverse, Listing(reverse, keys))
    ensures forall k :: k in Listing(reverse, keys) <==> k in keys
    ensures |Listing(reverse, keys)| == |keys|
  {
    var s := Sort(keys);
    SortSorts(keys);
    ReversedAt(s);
    hide Sort, Less;
    forall k | k in s ensures k in Reversed(s) {
      var i :| 0 <= i < |s| && s[i] == k;
      assert Reversed(s)[|s| - 1 - i] == k;
    }
  }

  lemma {:induction false} OrderedUnique(reverse: bool, a: seq<string>, b: seq<string>)
    requires Ordered(reverse, a) && Ordered(reverse, b) && forall k :: k in a <==> k in b
    ensures a == b
  {
    assert a != [] ==> a[0] in b;
    assert b != [] ==> b[0] in a;
    if a != [] {
      BeforeTotal(reverse, a[0], b[0]);
      BeforeTotal(reverse, a[0], a[0]);
      assert a[0] == b[0];
      forall k ensures k in a[1..] <==> k in b[1..] {
        assert k in a <==> k == a[0] || k in a[1..];
        assert k in b <==> k == b[0] || k in b[1..];
      }
      OrderedUnique(reverse, a[1..], b[1..]);
    }
  }

  lemma {:induction false} BeyondSelects(reverse: bool, keys: seq<string>, cursor: string)
    ensures forall k :: k in Beyond(reverse, keys, cursor) <==>
        k in keys && (cursor == "" || Before(reverse, cursor, k))
  {
    if keys != [] {
      BeyondSelects(reverse, keys[1..], cursor);
      assert keys == [keys[0]] + keys[1..];
    }
  }

  lemma {:induction false} BeyondOrdered(reverse: bool, keys: seq<string>, cursor: string)
    requires Ordered(reverse, keys)
    ensures Ordered(reverse, Beyond(reverse, keys, cursor))
  {
    if keys != [] {
      var rest := Beyond(reverse, keys[1..], cursor);
      BeyondOrdered(reverse, keys[1..], cursor);
      BeyondSelects(reverse, keys[1..], cursor);
      FirstBefore(reverse, keys);
      hide Before, Beyond;
      OrderedConcat(reverse, [keys[0]], rest);
      assert [] + rest == rest;
    }
  }

  lemma FirstBefore(reverse: bool, keys: seq<string>)
    requires Ordered(reverse, keys) && keys != []
    ensures forall k :: k in keys[1..] ==> Before(reverse, keys[0], k)
    ensures Ordered(reverse, [keys[0]])
  {
  }

  lemma OrderedConcat(reverse: bool, a: seq<string>, b: seq<string>)
    requires Ordered(reverse, a) && Ordered(reverse, b)
    requires forall i, k :: 0 <= i < |a| && k in b ==> Before(reverse, a[i], k)
    ensures Ordered(reverse, a + b)
  {
    forall i, j | 0 <= i < j < |a + b| ensures Before(reverse, (a + b)[i], (a + b)[j]) {
      if i < |a| <= j {
        assert b[j - |a|] in b;
      }
    }
  }

  /** Keys picked first to last, with the rest still to come, are the head of the listing. */
  lemma PickedAreFirst(reverse: bool, all: set<string>, out: seq<string>, left: set<string>)
    requires Ordered(reverse, out) && forall k :: k in all <==> k in out || k in left
    requires forall i, k :: 0 <= i < |out| && k in left ==> Before(reverse, out[i], k)
    ensures out + Listing(reverse, left) == Listing(reverse, all)
  {
    var rest := Listing(reverse, left);
    ListingLists(reverse, left);
    ListingLists(reverse, all);
    OrderedConcat(reverse, out, rest);
    OrderedUnique(reverse, out + rest, Listing(reverse, all));
  }

  lemma FirstExists(reverse: bool, keys: set<string>)
    requires keys != {}
    ensures exists k :: k in keys && forall x :: x in keys ==> x == k || Before(reverse, k, x)
  {
    ListingLists(reverse, keys);
    var l := Listing(reverse, keys);
    assert l != [];
    assert forall x :: x in keys ==> x in l;
    assert l[0] in keys && forall x :: x in keys ==> x == l[0] || Before(reverse, l[0], x);
  }

  /** The query: keys beyond the cursor in page order, at most so many. */
  method SelectKeys(keys: set<string>, cursor: string, limit: nat, reverse: bool) returns (out: seq<string>)
    ensures out == PageOf(reverse, Listing(reverse, keys), cursor, limit)
  {
    out := [];
    var wanted := set k | k in keys && (cursor == "" || Before(reverse, cursor, k));
    var left := wanted;
    while |out| < limit && left != {}
      invariant |out| <= limit && left <= wanted
      invariant Ordered(reverse, out) && forall k :: k in wanted <==> k in out || k in left
      invariant forall i, k :: 0 <= i < |out| && k in left ==> Before(reverse, out[i], k)
      decreases |left|
    {
      FirstExists(reverse, left);
      var k :| k in left && forall x :: x in left ==> x == k || Before(reverse, k, x);
      out := out + [k];
      left := left - {k};
    }
    PickedIsPage(reverse, keys, cursor, wanted, out, left, limit);
  }

  lemma PickedIsPage(reverse: bool, keys: set<string>, cursor: string, wanted: set<string>, out: seq<string>,
      left: set<string>, limit: nat)
    requires forall k :: k in wanted <==> k in keys && (cursor == "" || Before(reverse, cursor, k))
    requires |out| <= limit && (|out| == limit || left == {})
    requires Ordered(reverse, out) && forall k :: k in wanted <==> k in out || k in left
    requires forall i, k :: 0 <= i < |out| && k in left ==> Before(reverse, out[i], k)
    ensures out == PageOf(reverse, Listing(reverse, keys), cursor, limit)
  {
    var all := Listing(reverse, keys);
    PickedAreFirst(reverse, wanted, out, left);
    ListingLists(reverse, keys);
    ListingLists(reverse, wanted);
    ListingLists(reverse, left);
    BeyondSelects(reverse, all, cursor);
    BeyondOrdered(reverse, all, cursor);
    hide Ordered, Before, Listing, Beyond;
    OrderedUnique(reverse, Listing(reverse, wanted), Beyond(reverse, all, cursor));
  }

  method ListRecords(t: Tables, collection: string, cursor: string, limit: nat, reverse: bool) returns (out: seq<Entry>)
    ensures var page := PageOf(reverse, Listing(reverse, KeysOf(t.records, collection)), cursor, limit);
      && |out| == |page|
      && forall i :: 0 <= i < |out| ==>
        out[i].row == (collection, page[i]) && out[i].row in t.records && out[i].cid == t.records[out[i].row]
  {
    var keys := SelectKeys(KeysOf(t.records, collection), cursor, limit, reverse);
    ListingLists(reverse, KeysOf(t.records, collection));
    BeyondSelects(reverse, Listing(reverse, KeysOf(t.records, collection)), cursor);
    out := [];
    for i := 0 to |keys|
      invariant |out| == i
      invariant forall j :: 0 <= j < i ==>
        out[j].row == (collection, keys[j]) && out[j].row in t.records && out[j].cid == t.records[out[j].row]
    {
      assert keys[i] in Beyond(reverse, Listing(reverse, KeysOf(t.records, collection)), cursor);
      out := out + [Entry((collection, keys[i]), t.records[(collection, keys[i])])];
    }
  }

  /** The page of the endpoint: it fails when the block of any record on it cannot be read. */
  method RecordsPage(t: Tables, collection: string, cursor: string, limit: nat, reverse: bool)
    returns (res: Result<Page, ListError>)
    ensures var page := PageOf(reverse, Listing(reverse, KeysOf(t.records, collection)), cursor, limit);
      && (forall k :: k in page ==> (collection, k) in t.records)
      && (res.Ok? <==> forall k :: k in page ==>
            var c := t.records[(collection, k)]; c in t.blocks && c.content.RecordBlock?)
      && (res.Ok? ==>
        && res.value.cursor == NextCursor(page, limit) && |res.value.records| == |page|
        && forall i :: 0 <= i < |page| ==>
          && res.value.records[i].0 == (collection, page[i])
          && t.records[(collection, page[i])] == CidOf(RecordBlock(res.value.records[i].1)))
  {
    var entries := ListRecords(t, collection, cursor, limit, reverse);
    ghost var page := PageOf(reverse, Listing(reverse, KeysOf(t.records, collection)), cursor, limit);
    var records: seq<(Row, Record)> := [];
    var next := "";
    for i := 0 to |entries|
      invariant |records| == i && (i > 0 ==> next == page[i - 1])
      invariant forall j :: 0 <= j < i ==>
        && records[j].0 == (collection, page[j]) && t.records[(collection, page[j])] in t.blocks
        && t.records[(collection, page[j])] == CidOf(RecordBlock(records[j].1))
    {
      var c := entries[i].cid;
      if c !in t.blocks || !c.content.RecordBlock? {
        assert page[i] in page;
        return Err(MissingBlock);
      }
      records, next := records + [(entries[i].row, c.content.record)], entries[i].row.1;
    }
    return Ok(Page(records, if |entries| == limit && entries != [] then Some(next) else None));
  }

  /** Listing a collection by following cursors lists each of its records exactly once, when no
      record key is empty. */
  lemma RecordPages(t: Tables, collection: string, reverse: bool, limit: nat, requests: nat)
    requires limit > 0 && requests > |KeysOf(t.records, collection)| / limit && "" !in KeysOf(t.records, collection)
    ensures var keys := KeysOf(t.records, collection);
      var pages := Walk(reverse, Listing(reverse, keys), "", limit, requests);
      && pages.Some? && |pages.value| == |keys| / limit + 1
      && Ordered(reverse, Flatten(pages.value))
      && forall k :: k in Flatten(pages.value) <==> (collection, k) in t.records
  {
    var keys := KeysOf(t.records, collection);
    ListingLists(reverse, keys);
    PagesVisitAll(reverse, Listing(reverse, keys), limit, requests);
  }

  /** In a consistent store every page can be read. */
  lemma ConsistentIsReadable(lib: Library, did: string, t: Tables, row: Row)
    requires Consistent(lib, did, t) && row in t.records
    ensures t.records[row] in t.blocks && t.records[row].content.RecordBlock?
  {
    var p := Join(row);
    assert p in CurrentTree(t);
    CutJoin(row);
    assert Cut(p).value == row;
  }

  /** The texts of CIDs: never empty, and different CIDs have different ones. */
  ghost predicate IsText(text: Cid -> string) {
    (forall c :: text(c) != "") && forall c, d :: text(c) == text(d) ==> c == d
  }

  function Texts(cids: set<Cid>, text: Cid -> string): set<string> {
    set c | c in cids :: text(c)
  }

  lemma {:induction false} TextsCount(cids: set<Cid>, text: Cid -> string)
    requires IsText(text)
    ensures |Texts(cids, text)| == |cids|
  {
    if cids != {} {
      var c :| c in cids;
      TextsCount(cids - {c}, text);
      assert Texts(cids, text) == Texts(cids - {c}, text) + {text(c)};
      assert text(c) !in Texts(cids - {c}, text);
    }
  }

  /** The query: CIDs of the blob table beyond the cursor, in text order. */
  method ListBlobs(t: Tables, text: Cid -> string, cursor: string, limit: nat)
    returns (out: seq<string>, next: Option<string>)
    ensures out == PageOf(false, Listing(false, Texts(t.blobs.Keys, text)), cursor, limit)
    ensures next == NextCursor(out, limit)
  {
    out := SelectKeys(Texts(t.blobs.Keys, text), cursor, limit, false);
    next := if |out| == limit && out != [] then Some(out[|out| - 1]) else None;
  }

  /** Listing the blob table by following cursors lists each blob exactly once. */
  lemma BlobPages(t: Tables, text: Cid -> string, limit: nat, requests: nat)
    requires IsText(text) && limit > 0 && requests > |t.blobs| / limit
    ensures var pages := Walk(false, Listing(false, Texts(t.blobs.Keys, text)), "", limit, requests);
      && pages.Some? && |pages.value| == |t.blobs| / limit + 1 && Ordered(false, Flatten(pages.value))
      && |Flatten(pages.value)| == |t.blobs| && forall c :: text(c) in Flatten(pages.value) <==> c in t.blobs
  {
    var blobs := Texts(t.blobs.Keys, text);
    TextsCount(t.blobs.Keys, text);
    assert |t.blobs.Keys| == |t.blobs|;
    ListingLists(false, blobs);
    PagesVisitAll(false, Listing(false, blobs), limit, requests);
  }

  // ----- missing blobs -----

  /** A CID's text and a row that refers to it. */
  type Ref = (string, Row)

  ghost predicate ByCid(refs: seq<Ref>) {
    forall i, j :: 0 <= i < j < |refs| ==> !Less(refs[j].0, refs[i].0)
  }

  function RefsBeyond(refs: seq<Ref>, cursor: string): seq<Ref> {
    if refs == [] then [] else
      (if cursor != "" && !Less(cursor, refs[0].0) then [] else [refs[0]]) + RefsBeyond(refs[1..], cursor)
  }

  function RefText(x: (Cid, Row), text: Cid -> string): Ref {
    (text(x.0), x.1)
  }

  /** The rows of the reference table whose blob has not been uploaded. */
  ghost function Missing(t: Tables, present: set<Cid>): set<(Cid, Row)> {
    set x | x in t.refs && x.0 !in present
  }

  lemma FirstRefExists(left: set<(Cid, Row)>, text: Cid -> string)
    requires left != {}
    ensures exists x :: x in left && forall y :: y in left ==> !Less(text(y.0), text(x.0))
  {
    var texts := set x | x in left :: text(x.0);
    var some :| some in left;
    assert text(some.0) in texts;
    var m := Min(texts);
    var x :| x in left && text(x.0) == m;
    forall y | y in left ensures !Less(text(y.0), text(x.0)) {
      assert text(y.0) in texts;
      assert IsMin(m, texts);
      LessTotal(text(y.0), m);
      LessTotal(m, m);
    }
  }

  /** These references and no others, each once, in text order of their CIDs. */
  ghost predicate Reports(out: seq<Ref>, refs: set<(Cid, Row)>, text: Cid -> string) {
    && ByCid(out) && |out| == |refs|
    && (forall x :: x in refs ==> RefText(x, text) in out)
    && forall r :: r in out ==> exists x :: x in refs && r == RefText(x, text)
  }

  lemma NothingReported(text: Cid -> string)
    ensures Reports([], {}, text)
  {
  }

  lemma ReportOne(out: seq<Ref>, refs: set<(Cid, Row)>, text: Cid -> string, x: (Cid, Row))
    requires Reports(out, refs, text) && x !in refs
    requires forall r :: r in out ==> !Less(text(x.0), r.0)
    ensures Reports(out + [RefText(x, text)], refs + {x}, text)
  {
    var out' := out + [RefText(x, text)];
    forall r | r in out' ensures exists y :: y in refs + {x} && r == RefText(y, text) {
      if r in out {
        var y :| y in refs && r == RefText(y, text);
        assert y in refs + {x};
      } else {
        assert x in refs + {x};
      }
    }
  }

  /** References in text order of their CIDs, keeping those whose blob is absent. */
  method MissingBlobRefs(t: Tables, text: Cid -> string, present: set<Cid>) returns (out: seq<Ref>)
    ensures Reports(out, Missing(t, present), text)
  {
    hide Reports, Less;
    NothingReported(text);
    out := [];
    var left := t.refs;
    ghost var done: set<(Cid, Row)> := {};
    while left != {}
      invariant left <= t.refs && done == set x | x in t.refs - left && x.0 !in present
      invariant Reports(out, done, text)
      invariant forall r, y :: r in out && y in left ==> !Less(text(y.0), r.0)
      decreases left
    {
      FirstRefExists(left, text);
      var x :| x in left && forall y :: y in left ==> !Less(text(y.0), text(x.0));
      left := left - {x};
      if x.0 !in present {
        ReportOne(out, done, text, x);
        out := out + [RefText(x, text)];
        done := done + {x};
      }
    }
    assert done == Missing(t, present);
  }

  method MissingPage(refs: seq<Ref>, cursor: string, limit: nat) returns (page: seq<Ref>, next: Option<string>)
    requires limit > 0
    ensures page == Take(RefsBeyond(refs, cursor), limit)
    ensures next == if |page| == limit then Some(page[limit - 1].0) else None
  {
    page := [];
    var i := 0;
    while i < |refs| && |page| < limit
      invariant i <= |refs| && |page| <= limit
      invariant page + RefsBeyond(refs[i..], cursor) == RefsBeyond(refs, cursor)
    {
      assert refs[i..][1..] == refs[i + 1..];
      if cursor == "" || Less(cursor, refs[i].0) {
        page := page + [refs[i]];
      }
      i := i + 1;
    }
    assert page == RefsBeyond(refs, cursor)[..|page|];
    next := if |page| == limit then Some(page[|page| - 1].0) else None;
  }

  function MissingWalk(refs: seq<Ref>, cursor: string, limit: nat, requests: nat): Option<seq<seq<Ref>>>
    requires limit > 0
    decreases requests
  {
    if requests == 0 then None else
      var page := Take(RefsBeyond(refs, cursor), limit);
      if |page| < limit then Some([page]) else
        match MissingWalk(refs, page[limit - 1].0, limit, requests - 1)
        case None => None
        case Some(pages) => Some([page] + pages)
  }

  ghost predicate On(c: string, page: seq<Ref>) {
    exists r :: r in page && r.0 == c
  }

  ghost predicate PagesSplit(pages: seq<seq<Ref>>, refs: seq<Ref>) {
    && (forall c :: On(c, refs) ==> exists p :: 0 <= p < |pages| && On(c, pages[p]))
    && (forall p, r :: 0 <= p < |pages| && r in pages[p] ==> r in refs)
    && (forall c, p, q :: 0 <= p < q < |pages| && On(c, pages[p]) ==> !On(c, pages[q]))
  }

  lemma {:induction false} RefsBeyondSelects(refs: seq<Ref>, cursor: string)
    ensures forall r :: r in RefsBeyond(refs, cursor) <==> r in refs && (cursor == "" || Less(cursor, r.0))
  {
    if refs != [] {
      RefsBeyondSelects(refs[1..], cursor);
      assert refs == [refs[0]] + refs[1..];
    }
  }

  /** A later cursor may as well start from what an earlier one left. */
  lemma {:induction false} RefsBeyondAgain(refs: seq<Ref>, c: string, d: string)
    requires d != "" && (c == "" || c == d || Less(c, d))
    ensures RefsBeyond(RefsBeyond(refs, c), d) == RefsBeyond(refs, d)
  {
    if refs != [] {
      RefsBeyondAgain(refs[1..], c, d);
      var rest := RefsBeyond(refs[1..], c);
      if c == "" || Less(c, refs[0].0) {
        assert RefsBeyond(refs, c) == [refs[0]] + rest;
        assert ([refs[0]] + rest)[1..] == rest;
      } else {
        assert RefsBeyond(refs, c) == rest;
        assert !Less(d, refs[0].0) by {
          if Less(d, refs[0].0) && c != d {
            LessTransitive(c, d, refs[0].0);
          }
        }
      }
    }
  }

  lemma {:induction false} RefsBeyondShorter(refs: seq<Ref>, cursor: string, n: nat)
    requires n <= |refs| && cursor != "" && forall i :: 0 <= i < n ==> !Less(cursor, refs[i].0)
    ensures |RefsBeyond(refs, cursor)| <= |refs| - n
  {
    if refs != [] {
      RefsBeyondShorter(refs[1..], cursor, if n == 0 then 0 else n - 1);
    }
  }

  lemma {:induction false} RefsBeyondByCid(refs: seq<Ref>, cursor: string)
    requires ByCid(refs)
    ensures ByCid(RefsBeyond(refs, cursor))
  {
    if refs != [] {
      var rest := RefsBeyond(refs[1..], cursor);
      RefsBeyondByCid(refs[1..], cursor);
      RefsBeyondSelects(refs[1..], cursor);
      forall r | r in rest ensures !Less(r.0, refs[0].0) {
        var i :| 0 <= i < |refs[1..]| && refs[1..][i] == r;
        assert refs[i + 1] == r;
      }
      LessTotal(refs[0].0, refs[0].0);
    }
  }

  lemma {:induction false} QuotientRises(m: nat, n: nat, d: nat)
    requires d > 0 && m <= n
    ensures Quotient(m, d) <= Quotient(n, d)
  {
    if m >= d {
      QuotientRises(m - d, n - d, d);
    }
  }

  lemma PageThenRest(page: seq<Ref>, rest: seq<Ref>, last: string, pages: seq<seq<Ref>>)
    requires page <= rest && forall r :: r in page ==> !Less(last, r.0)
    requires forall r :: r in rest ==> r in page || Less(last, r.0) || On(r.0, page)
    requires PagesSplit(pages, RefsBeyond(rest, last)) && last != ""
    ensures PagesSplit([page] + pages, rest)
  {
    var all := [page] + pages;
    RefsBeyondSelects(rest, last);
    forall c | On(c, rest) ensures exists p :: 0 <= p < |all| && On(c, all[p]) {
      var r :| r in rest && r.0 == c;
      if Less(last, c) {
        assert On(c, RefsBeyond(rest, last));
        var p :| 0 <= p < |pages| && On(c, pages[p]);
        assert On(c, all[p + 1]);
      } else {
        assert On(c, all[0]);
      }
    }
    forall c, p, q | 0 <= p < q < |all| && On(c, all[p]) ensures !On(c, all[q]) {
      if p == 0 {
        var r :| r in page && r.0 == c;
        assert !Less(last, c);
      }
    }
  }

  /** A full page holds every CID up to its last. */
  lemma FullPageHoldsUpToLast(rest: seq<Ref>, limit: nat)
    requires 0 < limit <= |rest| && ByCid(rest)
    ensures var page, last := rest[..limit], rest[limit - 1].0;
      && (forall i :: 0 <= i < limit ==> !Less(last, rest[i].0)) && page <= rest
      && (forall r :: r in page ==> !Less(last, r.0))
      && (forall r :: r in rest ==> r in page || Less(last, r.0) || On(r.0, page))
  {
    var page, last := rest[..limit], rest[limit - 1].0;
    LessTotal(last, last);
    forall r | r in rest ensures r in page || Less(last, r.0) || On(r.0, page) {
      var i :| 0 <= i < |rest| && rest[i] == r;
      if i < limit {
        assert page[i] == r;
      } else {
        LessTotal(last, r.0);
        assert page[limit - 1] in page;
      }
    }
  }

  lemma {:induction false} MissingWalkSplits(refs: seq<Ref>, cursor: string, limit: nat, requests: nat)
    requires limit > 0 && ByCid(refs) && forall r :: r in refs ==> r.0 != ""
    requires requests > Quotient(|RefsBeyond(refs, cursor)|, limit)
    ensures var pages := MissingWalk(refs, cursor, limit, requests);
      pages.Some? && PagesSplit(pages.value, RefsBeyond(refs, cursor))
      && |pages.value| <= Quotient(|RefsBeyond(refs, cursor)|, limit) + 1
    decreases requests
  {
    hide PagesSplit, On, RefsBeyond, ByCid, Quotient, MissingWalk;
    var rest := RefsBeyond(refs, cursor);
    RefsBeyondByCid(refs, cursor);
    MissingStep(refs, cursor, limit, requests);
    if |rest| < limit {
      OnePageSplits(rest);
    } else {
      var last := rest[limit - 1].0;
      FullPageHoldsUpToLast(rest, limit);
      assert last != "" && (cursor == "" || Less(cursor, last)) by {
        RefsBeyondSelects(refs, cursor);
        assert rest[limit - 1] in rest;
      }
      RefsBeyondAgain(refs, cursor, last);
      RefsBeyondShorter(rest, last, limit);
      assert Quotient(|RefsBeyond(rest, last)|, limit) <= Quotient(|rest| - limit, limit) by {
        QuotientRises(|RefsBeyond(rest, last)|, |rest| - limit, limit);
      }
      QuotientStep(|rest|, limit);
      MissingWalkSplits(refs, last, limit, requests - 1);
      PageThenRest(rest[..limit], rest, last, MissingWalk(refs, last, limit, requests - 1).value);
    }
  }

  lemma MissingStep(refs: seq<Ref>, cursor: string, limit: nat, requests: nat)
    requires limit > 0 && requests > 0
    ensures var rest := RefsBeyond(refs, cursor);
      && (|rest| < limit ==> MissingWalk(refs, cursor, limit, requests) == Some([rest]))
      && (|rest| >= limit ==>
        var more := MissingWalk(refs, rest[limit - 1].0, limit, requests - 1);
        more.Some? ==> MissingWalk(refs, cursor, limit, requests) == Some([rest[..limit]] + more.value))
  {
    var rest := RefsBeyond(refs, cursor);
    if |rest| >= limit {
      assert Take(rest, limit) == rest[..limit];
      assert Take(rest, limit)[limit - 1] == rest[limit - 1];
    }
  }

  lemma QuotientStep(n: nat, d: nat)
    requires 0 < d <= n
    ensures Quotient(n, d) == 1 + Quotient(n - d, d)
  {
  }

  lemma OnePageSplits(rest: seq<Ref>)
    ensures PagesSplit([rest], rest)
  {
    assert forall c :: On(c, rest) ==> On(c, [rest][0]);
  }

  /** Following the cursors reports each missing CID on exactly one page, in at most
      floor(n / limit) + 1 requests. */
  lemma MissingOnOnePage(refs: seq<Ref>, limit: nat, requests: nat)
    requires limit > 0 && ByCid(refs) && (forall r :: r in refs ==> r.0 != "") && requests > |refs| / limit
    ensures var pages := MissingWalk(refs, "", limit, requests);
      pages.Some? && PagesSplit(pages.value, refs) && |pages.value| <= |refs| / limit + 1
  {
    AllBeyondStart(refs);
    Dividing(|refs|, limit);
    MissingWalkSplits(refs, "", limit, requests);
  }

  lemma {:induction false} AllBeyondStart(refs: seq<Ref>)
    ensures RefsBeyond(refs, "") == refs
  {
    if refs != [] {
      AllBeyondStart(refs[1..]);
    }
  }

  /** No page ends between two references to one CID. */
  predicate Clean(refs: seq<Ref>, limit: nat)
    requires limit > 0
    decreases |refs|
  {
    |refs| <= limit || (refs[limit - 1].0 != refs[limit].0 && Clean(refs[limit..], limit))
  }

  lemma {:induction false} AllBeyond(refs: seq<Ref>, cursor: string)
    requires forall i :: 0 <= i < |refs| ==> Less(cursor, refs[i].0)
    ensures RefsBeyond(refs, cursor) == refs
  {
    if refs != [] {
      AllBeyond(refs[1..], cursor);
    }
  }

  lemma {:induction false} NoneBeyond(refs: seq<Ref>, cursor: string, n: nat)
    requires cursor != "" && n <= |refs| && forall i :: 0 <= i < n ==> !Less(cursor, refs[i].0)
    ensures RefsBeyond(refs, cursor) == RefsBeyond(refs[n..], cursor)
  {
    if n > 0 {
      NoneBeyond(refs[1..], cursor, n - 1);
      assert refs[1..][n - 1..] == refs[n..];
    }
  }

  /** After a full page that ends between two CIDs the rest is all there. */
  lemma CleanBoundary(rest: seq<Ref>, limit: nat)
    requires 0 < limit < |rest| && ByCid(rest) && rest[limit - 1].0 != "" && rest[limit - 1].0 != rest[limit].0
    ensures RefsBeyond(rest, rest[limit - 1].0) == rest[limit..]
  {
    var last := rest[limit - 1].0;
    FullPageHoldsUpToLast(rest, limit);
    NoneBeyond(rest, last, limit);
    forall i | 0 <= i < |rest[limit..]| ensures Less(last, rest[limit..][i].0) {
      LessTotal(last, rest[limit].0);
      LessTotal(last, rest[limit + i].0);
      if i > 0 && rest[limit + i].0 == last {
        assert !Less(rest[limit + i].0, rest[limit].0);
      }
    }
    AllBeyond(rest[limit..], last);
  }

  /** After one that ends within a CID at least one reference is dropped. */
  lemma DirtyBoundary(rest: seq<Ref>, limit: nat)
    requires 0 < limit < |rest| && ByCid(rest) && rest[limit - 1].0 != "" && rest[limit - 1].0 == rest[limit].0
    ensures |RefsBeyond(rest, rest[limit - 1].0)| < |rest| - limit
  {
    var last := rest[limit - 1].0;
    FullPageHoldsUpToLast(rest, limit);
    LessTotal(last, last);
    RefsBeyondShorter(rest, last, limit + 1);
  }

  lemma {:induction false} WalkReports(refs: seq<Ref>, cursor: string, limit: nat, requests: nat)
    requires limit > 0 && ByCid(refs) && forall r :: r in refs ==> r.0 != ""
    requires requests > Quotient(|RefsBeyond(refs, cursor)|, limit)
    ensures var pages, rest := MissingWalk(refs, cursor, limit, requests), RefsBeyond(refs, cursor);
      && pages.Some? && |Flatten(pages.value)| <= |rest|
      && (Clean(rest, limit) ==> Flatten(pages.value) == rest)
      && (!Clean(rest, limit) ==> |Flatten(pages.value)| < |rest|)
    decreases requests
  {
    hide RefsBeyond, ByCid, Quotient, MissingWalk;
    var rest := RefsBeyond(refs, cursor);
    RefsBeyondByCid(refs, cursor);
    MissingStep(refs, cursor, limit, requests);
    if |rest| < limit {
      assert Flatten([rest]) == rest + Flatten([]);
    } else {
      var last := rest[limit - 1].0;
      LastBeyond(refs, cursor, limit);
      RefsBeyondAgain(refs, cursor, last);
      FullPageHoldsUpToLast(rest, limit);
      assert |RefsBeyond(refs, last)| <= |rest| - limit by {
        RefsBeyondShorter(rest, last, limit);
      }
      QuotientRises(|RefsBeyond(refs, last)|, |rest| - limit, limit);
      QuotientStep(|rest|, limit);
      WalkReports(refs, last, limit, requests - 1);
      FlattenOne(rest[..limit], MissingWalk(refs, last, limit, requests - 1).value);
      BoundaryDecides(rest, limit);
    }
  }

  lemma LastBeyond(refs: seq<Ref>, cursor: string, limit: nat)
    requires 0 < limit <= |RefsBeyond(refs, cursor)| && forall r :: r in refs ==> r.0 != ""
    ensures var last := RefsBeyond(refs, cursor)[limit - 1].0; last != "" && (cursor == "" || Less(cursor, last))
  {
    RefsBeyondSelects(refs, cursor);
    assert RefsBeyond(refs, cursor)[limit - 1] in RefsBeyond(refs, cursor);
  }

  lemma FlattenOne<T>(page: seq<T>, pages: seq<seq<T>>)
    ensures Flatten([page] + pages) == page + Flatten(pages)
  {
  }

  lemma BoundaryDecides(rest: seq<Ref>, limit: nat)
    requires 0 < limit <= |rest| && ByCid(rest) && rest[limit - 1].0 != ""
    ensures var next := RefsBeyond(rest, rest[limit - 1].0);
      && rest[..limit] + rest[limit..] == rest
      && (Clean(rest, limit) ==> next == rest[limit..] && Clean(next, limit))
      && (!Clean(rest, limit) ==> (next == rest[limit..] && !Clean(next, limit)) || |next| < |rest| - limit)
  {
    if |rest| == limit {
      FullPageHoldsUpToLast(rest, limit);
      RefsBeyondShorter(rest, rest[limit - 1].0, limit);
    } else if rest[limit - 1].0 != rest[limit].0 {
      CleanBoundary(rest, limit);
    } else {
      DirtyBoundary(rest, limit);
    }
  }

  /** Following the cursors reports every missing reference, once and in order, if and only if no
      page ends between two references to one CID; otherwise it reports fewer. */
  lemma EveryReferenceIff(refs: seq<Ref>, limit: nat, requests: nat)
    requires limit > 0 && ByCid(refs) && (forall r :: r in refs ==> r.0 != "") && requests > |refs| / limit
    ensures var pages := MissingWalk(refs, "", limit, requests);
      && pages.Some?
      && (Flatten(pages.value) == refs <==> Clean(refs, limit))
      && (!Clean(refs, limit) ==> |Flatten(pages.value)| < |refs|)
  {
    AllBeyondStart(refs);
    Dividing(|refs|, limit);
    WalkReports(refs, "", limit, requests);
  }

  /** So of the reference table: each missing blob is on exactly one page, and every reference to
      a missing blob is reported if and only if no page ends within one blob's. */
  lemma MissingTablePages(t: Tables, text: Cid -> string, present: set<Cid>, refs: seq<Ref>, limit: nat, requests: nat)
    requires IsText(text) && Reports(refs, Missing(t, present), text)
    requires limit > 0 && requests > |Missing(t, present)| / limit
    ensures var pages := MissingWalk(refs, "", limit, requests);
      && pages.Some? && PagesSplit(pages.value, refs)
      && (Flatten(pages.value) == refs <==> Clean(refs, limit))
    ensures forall c, row :: (c, row) in t.refs && c !in present ==>
      exists p :: 0 <= p < |MissingWalk(refs, "", limit, requests).value| &&
        On(text(c), MissingWalk(refs, "", limit, requests).value[p])
  {
    MissingOnOnePage(refs, limit, requests);
    EveryReferenceIff(refs, limit, requests);
    forall c, row | (c, row) in t.refs && c !in present ensures On(text(c), refs) {
      assert (c, row) in Missing(t, present);
      assert RefText((c, row), text) in refs;
    }
  }

  /** Not every reference: of two references to one blob, a page of one drops the second. */
  lemma ReferenceDropped(c: string, first: Row, second: Row)
    requires c != "" && first != second
    ensures MissingWalk([(c, first), (c, second)], "", 1, 2) == Some([[(c, first)], []])
  {
    var refs := [(c, first), (c, second)];
    AllBeyondStart(refs);
    LessTotal(c, c);
    assert refs[1..] == [(c, second)] && [(c, second)][1..] == [];
    assert RefsBeyond([(c, second)], c) == [];
    assert RefsBeyond(refs, c) == [];
    assert MissingWalk(refs, c, 1, 1) == Some([[]]);
    assert refs[..1] == [(c, first)];
    assert [[(c, first)]] + [[]] == [[(c, first)], []];
    assert MissingWalk(refs, "", 1, 2) == Some([refs[..1]] + [[]]);
  }
}
