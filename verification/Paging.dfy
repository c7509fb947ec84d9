/** Keyset paging: cursors, pages, and a client's walk through a table that changes between pages. */
module Paging {
  import opened Common

  /** The ordering key of a row: when it was created, then its id. A cursor is one of these. */
  datatype Key = Key(created: int, id: int)

  predicate Less(a: Key, b: Key) {
    a.created < b.created || (a.created == b.created && a.id < b.id)
  }

  // ---- Cursors -----------------------------------------------------------------------------------------

  /** What a field of a token's JSON body reads as: an ISO time for `created_at`, a UUID for `id`. */
  datatype Field = Missing | Unreadable | Reads(value: int)

  /** The JSON body of a token: an object with these fields, or something else. */
  datatype Body = Object(version: Option<int>, created: Field, id: Field) | NotObject

  /** The libraries a cursor goes through: JSON text in base64, and back, if it is that at all. */
  type Wrap = Body -> string
  type Unwrap = string -> Option<Body>

  const CURSOR_VERSION := 1

  function BodyOf(k: Key): Body {
    Object(Some(CURSOR_VERSION), Reads(k.created), Reads(k.id))
  }

  ghost predicate Inverts(wrap: Wrap, unwrap: Unwrap) {
    forall k: Key :: unwrap(wrap(BodyOf(k))) == Some(BodyOf(k)) && wrap(BodyOf(k)) != ""
  }

  function EncodeCursor(wrap: Wrap, k: Key): string {
    wrap(BodyOf(k))
  }

  /** None is the validation error every bad token ends in. */
  function DecodeCursor(unwrap: Unwrap, token: string): Option<Key> {
    match unwrap(token)
    case Some(Object(Some(version), Reads(created), Reads(id))) =>
      if version == CURSOR_VERSION then Some(Key(created, id)) else None
    case _ => None
  }

  /** A cursor comes back from its token, so different cursors have different tokens. */
  lemma CursorRoundTrip(wrap: Wrap, unwrap: Unwrap, k: Key, other: Key)
    requires Inverts(wrap, unwrap)
    ensures DecodeCursor(unwrap, EncodeCursor(wrap, k)) == Some(k) && EncodeCursor(wrap, k) != ""
    ensures EncodeCursor(wrap, k) == EncodeCursor(wrap, other) <==> k == other
  {
    assert unwrap(wrap(BodyOf(k))) == Some(BodyOf(k)) && unwrap(wrap(BodyOf(other))) == Some(BodyOf(other));
  }

  /** A token is good exactly when its body is an object of version 1 whose fields both read, and then it
      stands for just those. */
  lemma GoodTokenIff(unwrap: Unwrap, token: string, k: Key)
    ensures DecodeCursor(unwrap, token) == Some(k) <==> unwrap(token) == Some(Object(Some(1), Reads(k.created), Reads(k.id)))
    ensures DecodeCursor(unwrap, token) == None <==>
              forall created, id :: unwrap(token) != Some(Object(Some(1), Reads(created), Reads(id)))
  {
    if DecodeCursor(unwrap, token).Some? {
      var found := DecodeCursor(unwrap, token).value;
      assert unwrap(token) == Some(Object(Some(1), Reads(found.created), Reads(found.id)));
    }
  }

  // ---- One page ----------------------------------------------------------------------------------------

  datatype Project = Project(tenant: string, owner: string, created: int, deleted: bool)

  /** The keys of an owner's live projects. */
  function Found(db: map<int, Project>, tenant: string, owner: string): set<Key> {
    set id | id in db && db[id].tenant == tenant && db[id].owner == owner && !db[id].deleted :: Key(db[id].created, id)
  }

  predicate Past(k: Key, after: Option<Key>) {
    after.Some? ==> Less(k, after.value)
  }

  predicate Descending(rows: seq<Key>) {
    forall i, j :: 0 <= i < j < |rows| ==> Less(rows[j], rows[i])
  }

  /** ORDER BY created_at DESC, id DESC LIMIT: the greatest keys past the cursor, in order. */
  ghost predicate Answer(rows: seq<Key>, found: set<Key>, limit: nat, after: Option<Key>) {
    && Descending(rows) && |rows| <= limit
    && (forall k :: k in rows ==> k in found && Past(k, after))
    && (forall k :: k in found && Past(k, after) && k !in rows ==> |rows| == limit && forall r :: r in rows ==> Less(k, r))
  }

  /** The key of one of the owner's projects that is not deleted. */
  predicate IsOwnLive(db: map<int, Project>, tenant: string, owner: string, k: Key) {
    && k.id in db && k.created == db[k.id].created
    && db[k.id].tenant == tenant && db[k.id].owner == owner && !db[k.id].deleted
  }

  lemma FoundIff(db: map<int, Project>, tenant: string, owner: string, k: Key)
    ensures k in Found(db, tenant, owner) <==> IsOwnLive(db, tenant, owner, k)
  {
    assert k == Key(k.created, k.id);
  }

  method Greatest(keys: set<Key>) returns (top: Key)
    requires keys != {}
    ensures top in keys && forall k :: k in keys && k != top ==> Less(k, top)
  {
    top :| top in keys;
    var left := keys - {top};
    while left != {}
      invariant left <= keys && top in keys && top !in left
      invariant forall k :: k in keys && k !in left && k != top ==> Less(k, top)
      decreases |left|
    {
      var k :| k in left;
      left := left - {k};
      if Less(top, k) {
        top := k;
      }
    }
  }

  method ListOwned(db: map<int, Project>, tenant: string, owner: string, limit: nat, after: Option<Key>)
    returns (rows: seq<Key>)
    ensures Answer(rows, Found(db, tenant, owner), limit, after)
    ensures forall k :: k in rows ==> IsOwnLive(db, tenant, owner, k)
    ensures forall k :: IsOwnLive(db, tenant, owner, k) && (after.Some? ==> Less(k, after.value)) && |rows| < limit ==> k in rows
    ensures forall i, j :: 0 <= i < j < |rows| ==>
              rows[j].created < rows[i].created || (rows[j].created == rows[i].created && rows[j].id < rows[i].id)
  {
    var found := Found(db, tenant, owner);
    forall k ensures k in found <==> IsOwnLive(db, tenant, owner, k) {
      FoundIff(db, tenant, owner, k);
    }
    hide IsOwnLive;
    var left := set k | k in found && Past(k, after);
    rows := [];
    while |rows| < limit && left != {}
      invariant |rows| <= limit && Descending(rows)
      invariant forall k :: k in rows ==> k in found && Past(k, after)
      invariant forall k :: k in left ==> k in found && Past(k, after) && forall r :: r in rows ==> Less(k, r)
      invariant forall k :: k in found && Past(k, after) ==> k in rows || k in left
      decreases |left|
    {
      var top := Greatest(left);
      assert forall r :: r in rows ==> Less(top, r);
      rows := rows + [top];
      left := left - {top};
    }
  }

  datatype Page = Page(items: seq<Key>, next: Option<string>)

  /** `next_cursor` for the rows found, one more than asked for. */
  function PageOf(wrap: Wrap, rows: seq<Key>, limit: nat): Page {
    var items := if |rows| > limit then rows[..limit] else rows;
    Page(items, if |rows| > limit && items != [] then Some(EncodeCursor(wrap, items[|items| - 1])) else None)
  }

  /** The position a request starts after; an empty token is no token. */
  function StartOf(unwrap: Unwrap, token: Option<string>): Option<Key> {
    if token.None? || token.value == "" then None else DecodeCursor(unwrap, token.value)
  }

  predicate BadToken(unwrap: Unwrap, token: Option<string>) {
    token.Some? && token.value != "" && DecodeCursor(unwrap, token.value).None?
  }

  ghost predicate IsPage(wrap: Wrap, unwrap: Unwrap, found: set<Key>, limit: nat, token: Option<string>, page: Page) {
    !BadToken(unwrap, token) && exists rows :: Answer(rows, found, limit + 1, StartOf(unwrap, token)) && page == PageOf(wrap, rows, limit)
  }

  /** `ListProjects.execute`; None is the validation error. */
  method ListProjects(wrap: Wrap, unwrap: Unwrap, db: map<int, Project>, tenant: string, owner: string, limit: nat, token: Option<string>)
    returns (page: Option<Page>)
    ensures page.None? <==> BadToken(unwrap, token)
    ensures page.Some? ==> IsPage(wrap, unwrap, Found(db, tenant, owner), limit, token, page.value)
  {
    var after := None;
    if token.Some? && token.value != "" {
      after := DecodeCursor(unwrap, token.value);
      if after.None? {
        return None;
      }
    }
    var rows := ListOwned(db, tenant, owner, limit + 1, after);
    var items := if |rows| > limit then rows[..limit] else rows;
    var next := None;
    if |rows| > limit && items != [] {
      next := Some(EncodeCursor(wrap, items[|items| - 1]));
    }
    page := Some(Page(items, next));
    assert page.value == PageOf(wrap, rows, limit);
  }

  /** What a page leaves for the next one: None when there is nothing left. */
  function EndOf(page: Page): Option<Key> {
    if page.next.Some? && page.items != [] then Some(page.items[|page.items| - 1]) else None
  }

  /** A page holds exactly the live rows between where it starts and where it ends, in descending
      order, carries no cursor exactly when nothing lies past it, and is full if it carries one. */
  lemma PageIsInterval(wrap: Wrap, unwrap: Unwrap, found: set<Key>, limit: nat, token: Option<string>, page: Page)
    requires limit > 0 && IsPage(wrap, unwrap, found, limit, token, page)
    ensures Descending(page.items) && |page.items| <= limit
    ensures forall k :: k in page.items <==>
              k in found && Past(k, StartOf(unwrap, token)) && (EndOf(page).Some? ==> !Less(k, EndOf(page).value))
    ensures page.next == if EndOf(page).Some? then Some(EncodeCursor(wrap, EndOf(page).value)) else None
    ensures page.next.None? <==> forall k :: k in found && Past(k, StartOf(unwrap, token)) ==> k in page.items
    ensures page.next.Some? ==> |page.items| == limit
  {
    var rows :| Answer(rows, found, limit + 1, StartOf(unwrap, token)) && page == PageOf(wrap, rows, limit);
    if |rows| > limit {
      assert rows == rows[..limit] + [rows[limit]];
      var last := rows[limit - 1];
      assert page.items[|page.items| - 1] == last;
      assert rows[limit] in rows && Less(rows[limit], last);
      forall k ensures k in page.items <==> k in rows && !Less(k, last) {
        if k in page.items {
          var i :| 0 <= i < limit && rows[i] == k;
          assert i < limit - 1 ==> Less(last, rows[i]);
        }
      }
    }
  }

  /** With a limit of zero a page never has a cursor, even when rows are left. */
  lemma NoCursorMeansLastIff(wrap: Wrap, unwrap: Unwrap, found: set<Key>, limit: nat, token: Option<string>, page: Page)
    requires IsPage(wrap, unwrap, found, limit, token, page)
    ensures (page.next.None? <==> forall k :: k in found && Past(k, StartOf(unwrap, token)) ==> k in page.items)
       <==> limit > 0 || forall k :: k in found ==> !Past(k, StartOf(unwrap, token))
  {
    if limit > 0 {
      PageIsInterval(wrap, unwrap, found, limit, token, page);
    }
  }

  // ---- A walk ------------------------------------------------------------------------------------------

  /** One request of a walk: the owner's live rows at that moment, the token sent, the page returned. */
  datatype Visit = Visit(found: set<Key>, token: Option<string>, page: Page)

  /** A client's walk from the first page to the last, each token taken from the page before. */
  ghost predicate Walk(wrap: Wrap, unwrap: Unwrap, limit: nat, visits: seq<Visit>) {
    && visits != [] && visits[0].token == None
    && (forall i :: 0 <= i < |visits| ==> IsPage(wrap, unwrap, visits[i].found, limit, visits[i].token, visits[i].page))
    && (forall i :: 0 <= i < |visits| - 1 ==> visits[i].page.next.Some? && visits[i + 1].token == visits[i].page.next)
    && visits[|visits| - 1].page.next == None
  }

  predicate Covers(unwrap: Unwrap, v: Visit, k: Key) {
    Past(k, StartOf(unwrap, v.token)) && (EndOf(v.page).Some? ==> !Less(k, EndOf(v.page).value))
  }

  /** The next page starts where this one ended. */
  lemma NextStart(wrap: Wrap, unwrap: Unwrap, limit: nat, visits: seq<Visit>, i: nat)
    requires limit > 0 && Inverts(wrap, unwrap) && Walk(wrap, unwrap, limit, visits) && i < |visits| - 1
    ensures EndOf(visits[i].page).Some? && StartOf(unwrap, visits[i + 1].token) == EndOf(visits[i].page)
  {
    PageIsInterval(wrap, unwrap, visits[i].found, limit, visits[i].token, visits[i].page);
    var k := EndOf(visits[i].page).value;
    CursorRoundTrip(wrap, unwrap, k, k);
  }

  lemma EndIsPast(wrap: Wrap, unwrap: Unwrap, limit: nat, visits: seq<Visit>, i: nat)
    requires limit > 0 && Walk(wrap, unwrap, limit, visits) && i < |visits| && EndOf(visits[i].page).Some?
    ensures Past(EndOf(visits[i].page).value, StartOf(unwrap, visits[i].token))
  {
    PageIsInterval(wrap, unwrap, visits[i].found, limit, visits[i].token, visits[i].page);
    assert EndOf(visits[i].page).value in visits[i].page.items;
  }

  /** Each page starts past the end of every earlier one. */
  lemma {:induction false} StartsPast(wrap: Wrap, unwrap: Unwrap, limit: nat, visits: seq<Visit>, i: nat, j: nat, k: Key)
    requires limit > 0 && Inverts(wrap, unwrap) && Walk(wrap, unwrap, limit, visits) && i < j < |visits|
    requires Past(k, StartOf(unwrap, visits[j].token))
    ensures EndOf(visits[i].page).Some? && Less(k, EndOf(visits[i].page).value)
  {
    hide Walk, IsPage, StartOf, Inverts, EndOf;
    NextStart(wrap, unwrap, limit, visits, j - 1);
    if i < j - 1 {
      EndIsPast(wrap, unwrap, limit, visits, j - 1);
      StartsPast(wrap, unwrap, limit, visits, i, j - 1, EndOf(visits[j - 1].page).value);
    }
  }

  /** Every key falls to exactly one page of a walk. */
  lemma {:induction false} CoveringPage(wrap: Wrap, unwrap: Unwrap, limit: nat, visits: seq<Visit>, k: Key, from: nat) returns (i: nat)
    requires limit > 0 && Inverts(wrap, unwrap) && Walk(wrap, unwrap, limit, visits) && from < |visits|
    requires Past(k, StartOf(unwrap, visits[from].token))
    ensures from <= i < |visits| && Covers(unwrap, visits[i], k)
    decreases |visits| - from
  {
    if Covers(unwrap, visits[from], k) {
      i := from;
    } else {
      PageIsInterval(wrap, unwrap, visits[from].found, limit, visits[from].token, visits[from].page);
      NextStart(wrap, unwrap, limit, visits, from);
      i := CoveringPage(wrap, unwrap, limit, visits, k, from + 1);
    }
  }

  /** Whatever is inserted and deleted between pages, a row is returned exactly when it was there when
      the one page that covers its key was read: by that page and by no other. */
  lemma ReturnedIff(wrap: Wrap, unwrap: Unwrap, limit: nat, visits: seq<Visit>, k: Key) returns (i: nat)
    requires limit > 0 && Inverts(wrap, unwrap) && Walk(wrap, unwrap, limit, visits)
    ensures i < |visits| && (k in visits[i].page.items <==> k in visits[i].found)
    ensures forall j :: 0 <= j < |visits| && j != i ==> k !in visits[j].page.items
  {
    i := CoveringPage(wrap, unwrap, limit, visits, k, 0);
    PageIsInterval(wrap, unwrap, visits[i].found, limit, visits[i].token, visits[i].page);
    forall j | 0 <= j < |visits| && j != i ensures k !in visits[j].page.items {
      PageIsInterval(wrap, unwrap, visits[j].found, limit, visits[j].token, visits[j].page);
      if k in visits[j].page.items {
        if i < j {
          StartsPast(wrap, unwrap, limit, visits, i, j, k);
        } else {
          StartsPast(wrap, unwrap, limit, visits, j, i, k);
        }
      }
    }
  }

  function Returned(visits: seq<Visit>): seq<Key> {
    if visits == [] then [] else Returned(visits[..|visits| - 1]) + visits[|visits| - 1].page.items
  }

  lemma {:induction false} ReturnedBy(visits: seq<Visit>, k: Key)
    ensures k in Returned(visits) <==> exists i :: 0 <= i < |visits| && k in visits[i].page.items
  {
    if visits != [] {
      var front := visits[..|visits| - 1];
      ReturnedBy(front, k);
      assert forall i :: 0 <= i < |front| ==> front[i] == visits[i];
    }
  }

  /** Rows of a later page come after those of an earlier one. */
  lemma LaterPageIsLess(wrap: Wrap, unwrap: Unwrap, limit: nat, visits: seq<Visit>, i: nat, j: nat, a: Key, b: Key)
    requires limit > 0 && Inverts(wrap, unwrap) && Walk(wrap, unwrap, limit, visits) && i < j < |visits|
    requires a in visits[i].page.items && b in visits[j].page.items
    ensures Less(b, a)
  {
    PageIsInterval(wrap, unwrap, visits[i].found, limit, visits[i].token, visits[i].page);
    PageIsInterval(wrap, unwrap, visits[j].found, limit, visits[j].token, visits[j].page);
    hide Walk, IsPage, StartOf, EndOf, Inverts;
    StartsPast(wrap, unwrap, limit, visits, i, j, b);
  }

  lemma DescendingAppend(a: seq<Key>, b: seq<Key>)
    requires Descending(a) && Descending(b) && forall x, y :: x in a && y in b ==> Less(y, x)
    ensures Descending(a + b)
  {
    var s := a + b;
    forall i, j | 0 <= i < j < |s| ensures Less(s[j], s[i]) {
      if i < |a| <= j {
        assert s[i] in a && s[j] in b;
      }
    }
  }

  lemma PageDescends(wrap: Wrap, unwrap: Unwrap, limit: nat, visits: seq<Visit>, i: nat)
    requires limit > 0 && Walk(wrap, unwrap, limit, visits) && i < |visits|
    ensures Descending(visits[i].page.items)
  {
    PageIsInterval(wrap, unwrap, visits[i].found, limit, visits[i].token, visits[i].page);
  }

  lemma ReturnedNext(visits: seq<Visit>, n: nat)
    requires 0 < n <= |visits|
    ensures Returned(visits[..n]) == Returned(visits[..n - 1]) + visits[n - 1].page.items
  {
    assert visits[..n][..n - 1] == visits[..n - 1];
  }

  /** All that a walk returns, page after page, is in strictly descending order. */
  lemma {:induction false} WalkDescends(wrap: Wrap, unwrap: Unwrap, limit: nat, visits: seq<Visit>, n: nat)
    requires limit > 0 && Inverts(wrap, unwrap) && Walk(wrap, unwrap, limit, visits) && n <= |visits|
    ensures Descending(Returned(visits[..n]))
  {
    if n > 0 {
      ReturnedNext(visits, n);
      PageDescends(wrap, unwrap, limit, visits, n - 1);
      hide Walk, Inverts, Descending, Less, Returned;
      WalkDescends(wrap, unwrap, limit, visits, n - 1);
      var front, last := visits[..n - 1], visits[n - 1].page.items;
      forall a, b | a in Returned(front) && b in last ensures Less(b, a) {
        ReturnedBy(front, a);
        var i :| 0 <= i < |front| && a in front[i].page.items;
        LaterPageIsLess(wrap, unwrap, limit, visits, i, n - 1, a, b);
      }
      DescendingAppend(Returned(front), last);
    }
  }

  /** Over every walk, however the table changes between its pages: no row comes twice, all come in
      order, and every row that was there throughout comes. */
  lemma {:induction false} WalkReturnsEachOnce(wrap: Wrap, unwrap: Unwrap, limit: nat, visits: seq<Visit>, k: Key)
    requires limit > 0 && Inverts(wrap, unwrap) && Walk(wrap, unwrap, limit, visits)
    ensures Descending(Returned(visits)) && Distinct(Returned(visits))
    ensures (forall i :: 0 <= i < |visits| ==> k in visits[i].found) ==> k in Returned(visits)
    ensures k in Returned(visits) ==> exists i :: 0 <= i < |visits| && k in visits[i].found
  {
    assert visits[..|visits|] == visits;
    WalkDescends(wrap, unwrap, limit, visits, |visits|);
    ReturnedBy(visits, k);
    var i := ReturnedIff(wrap, unwrap, limit, visits, k);
  }

  /** The same in terms of the table of projects: an owner's walk returns nothing but projects that were the
      owner's and not deleted at some page, and all that were so throughout. */
  lemma {:induction false} WalkReturnsOwn(wrap: Wrap, unwrap: Unwrap, limit: nat, visits: seq<Visit>, dbs: seq<map<int, Project>>,
                                          tenant: string, owner: string, k: Key)
    requires limit > 0 && Inverts(wrap, unwrap) && Walk(wrap, unwrap, limit, visits) && |dbs| == |visits|
    requires forall i :: 0 <= i < |visits| ==> visits[i].found == Found(dbs[i], tenant, owner)
    ensures k in Returned(visits) ==> exists i :: 0 <= i < |dbs| && IsOwnLive(dbs[i], tenant, owner, k)
    ensures (forall i :: 0 <= i < |dbs| ==> IsOwnLive(dbs[i], tenant, owner, k)) ==> k in Returned(visits)
  {
    WalkReturnsEachOnce(wrap, unwrap, limit, visits, k);
    hide Walk, Inverts, Returned, IsOwnLive;
    forall i | 0 <= i < |dbs| ensures k in visits[i].found <==> IsOwnLive(dbs[i], tenant, owner, k) {
      FoundIff(dbs[i], tenant, owner, k);
    }
  }
}
