/**
 Keyset pagination of the order list: the list query, the server's pages with their
 filter-bound tokens, and the command line's paging loop. The loop refines "filter, sort by
 (created_at, id) descending, take".
 */
module Paging {
  import opened Prelude
  import opened Domain
  import Store
  import StoreInvariant
  import StoreRuns
  import TextOrder

  type Table = map<string, Store.OrderRow>

  datatype Key = Key(createdAt: Instant, id: string)

  /** Absent fields and an empty status set do not filter. */
  datatype Filter = Filter(venue: Option<string>, statuses: set<Status>, bot: Option<string>)

  const DEFAULT_LIMIT: nat := 50
  const PAGE_LIMIT: nat := 500

  // ---------- Order of rows ----------

  predicate Below(a: Key, b: Key) {
    a.createdAt < b.createdAt || (a.createdAt == b.createdAt && TextOrder.Less(a.id, b.id))
  }

  lemma BelowIsTotal(a: Key, b: Key)
    ensures a == b || Below(a, b) || Below(b, a)
    ensures !(Below(a, b) && Below(b, a)) && !Below(a, a)
  {
    TextOrder.Trichotomy(a.id, b.id);
    TextOrder.Trichotomy(a.id, a.id);
  }

  lemma BelowIsTransitive(a: Key, b: Key, c: Key)
    requires Below(a, b) && Below(b, c)
    ensures Below(a, c)
  {
    if a.createdAt == b.createdAt && b.createdAt == c.createdAt {
      TextOrder.Transitive(a.id, b.id, c.id);
    }
  }

  function KeyOf(t: Table, id: string): Key
    requires id in t
  {
    Key(t[id].createdAt, id)
  }

  predicate Matches(row: Store.OrderRow, f: Filter) {
    && (f.venue.None? || f.venue.value == row.instrument.venue)
    && (f.statuses == {} || row.status in f.statuses)
    && (f.bot.None? || f.bot.value == row.bot)
  }

  predicate Selected(t: Table, f: Filter, cursor: Option<Key>, id: string) {
    id in t && Matches(t[id], f) && (cursor.None? || Below(KeyOf(t, id), cursor.value))
  }

  // ---------- The list query ----------

  predicate IsNewest(t: Table, ids: set<string>, m: string) {
    ids <= t.Keys && m in ids && forall id :: id in ids && id != m ==> Below(KeyOf(t, id), KeyOf(t, m))
  }

  lemma NewestExists(t: Table, ids: set<string>) returns (m: string)
    requires ids != {} && ids <= t.Keys
    ensures IsNewest(t, ids, m)
  {
    m :| m in ids;
    var rest := ids - {m};
    if rest != {} {
      var n := NewestExists(t, rest);
      var first := m;
      BelowIsTotal(KeyOf(t, m), KeyOf(t, n));
      m := if Below(KeyOf(t, first), KeyOf(t, n)) then n else first;
      forall id | id in ids && id != m ensures Below(KeyOf(t, id), KeyOf(t, m)) {
        if id in rest && m == first && id != n {
          BelowIsTransitive(KeyOf(t, id), KeyOf(t, n), KeyOf(t, first));
        }
      }
    } else {
      assert forall id :: id in ids ==> id == m || id in rest;
    }
  }

  lemma NewestWitness(t: Table, ids: set<string>)
    requires ids != {} && ids <= t.Keys
    ensures exists m :: m in ids && IsNewest(t, ids, m)
  {
    var m := NewestExists(t, ids);
  }

  lemma NewestIsUnique(t: Table, ids: set<string>, m: string, n: string)
    requires IsNewest(t, ids, m) && IsNewest(t, ids, n)
    ensures m == n
  {
    if m != n {
      BelowIsTotal(KeyOf(t, m), KeyOf(t, n));
    }
  }

  function Newest(t: Table, ids: set<string>): string
    requires ids != {} && ids <= t.Keys
  {
    NewestWitness(t, ids);
    assert forall m, n :: m in ids && n in ids && IsNewest(t, ids, m) && IsNewest(t, ids, n) ==> m == n by {
      forall m, n | IsNewest(t, ids, m) && IsNewest(t, ids, n) ensures m == n {
        NewestIsUnique(t, ids, m, n);
      }
    }
    var m :| m in ids && IsNewest(t, ids, m);
    m
  }

  function Descending(t: Table, ids: set<string>): seq<string>
    requires ids <= t.Keys
    decreases |ids|
  {
    if ids == {} then []
    else
      NewestWitness(t, ids);
      [Newest(t, ids)] + Descending(t, ids - {Newest(t, ids)})
  }

  function Take(ids: seq<string>, n: nat): seq<string> {
    if |ids| <= n then ids else ids[..n]
  }

  /** WHERE filter AND key below cursor ORDER BY created_at DESC, id DESC LIMIT n. */
  function Query(t: Table, f: Filter, cursor: Option<Key>, n: nat): seq<string> {
    Take(Descending(t, set id | id in t && Selected(t, f, cursor, id)), n)
  }

  // ---------- What a listing is ----------

  ghost predicate Sorted(t: Table, ids: seq<string>) {
    && (forall i :: 0 <= i < |ids| ==> ids[i] in t)
    && forall i, j :: 0 <= i < j < |ids| ==> Below(KeyOf(t, ids[j]), KeyOf(t, ids[i]))
  }

  /** `ids` is every selected row, newest first. */
  ghost predicate Lists(t: Table, f: Filter, cursor: Option<Key>, ids: seq<string>) {
    Sorted(t, ids) && forall id :: id in ids <==> Selected(t, f, cursor, id)
  }

  lemma {:induction false} DescendingHolds(t: Table, ids: set<string>)
    requires ids <= t.Keys
    ensures Sorted(t, Descending(t, ids))
    ensures forall id :: id in Descending(t, ids) <==> id in ids
    decreases |ids|
  {
    if ids != {} {
      NewestWitness(t, ids);
      var m := Newest(t, ids);
      var rest := Descending(t, ids - {m});
      DescendingHolds(t, ids - {m});
      assert Descending(t, ids) == [m] + rest;
      SortedCons(t, m, rest);
      forall id ensures id in Descending(t, ids) <==> id in ids {
        assert id in Descending(t, ids) <==> id == m || id in rest;
      }
    }
  }

  lemma SortedCons(t: Table, m: string, rest: seq<string>)
    requires m in t && Sorted(t, rest)
    requires forall id :: id in rest && id in t ==> Below(KeyOf(t, id), KeyOf(t, m))
    ensures Sorted(t, [m] + rest)
  {
    var all := [m] + rest;
    forall i, j | 0 <= i < j < |all| ensures all[i] in t && all[j] in t && Below(KeyOf(t, all[j]), KeyOf(t, all[i])) {
      assert all[j] == rest[j - 1] && rest[j - 1] in rest;
      if i > 0 {
        assert all[i] == rest[i - 1];
      }
    }
  }

  lemma SameHead(t: Table, a: seq<string>, b: seq<string>)
    requires Sorted(t, a) && Sorted(t, b) && a != [] && b != [] && forall id :: id in a <==> id in b
    ensures a[0] == b[0]
  {
    assert a[0] in b && b[0] in a;
    var i :| 0 <= i < |a| && a[i] == b[0];
    var j :| 0 <= j < |b| && b[j] == a[0];
    BelowIsTotal(KeyOf(t, a[0]), KeyOf(t, b[0]));
  }

  lemma TailElements(t: Table, a: seq<string>, id: string)
    requires Sorted(t, a) && a != []
    ensures id in a[1..] <==> id in a && id != a[0]
  {
    if id in a[1..] {
      var i :| 0 < i < |a| && a[i] == id;
      BelowIsTotal(KeyOf(t, a[0]), KeyOf(t, a[i]));
    }
  }

  lemma SortedTail(t: Table, a: seq<string>, n: nat)
    requires Sorted(t, a) && n <= |a|
    ensures Sorted(t, a[n..])
  {
  }

  lemma {:induction false} SortedIsUnique(t: Table, a: seq<string>, b: seq<string>)
    requires Sorted(t, a) && Sorted(t, b) && forall id :: id in a <==> id in b
    ensures a == b
  {
    assert a != [] ==> a[0] in b;
    assert b != [] ==> b[0] in a;
    if a != [] {
      SameHead(t, a, b);
      SortedTail(t, a, 1);
      SortedTail(t, b, 1);
      forall id ensures id in a[1..] <==> id in b[1..] {
        TailElements(t, a, id);
        TailElements(t, b, id);
      }
      SortedIsUnique(t, a[1..], b[1..]);
      assert a == [a[0]] + a[1..] && b == [b[0]] + b[1..];
    }
  }

  /** The query returns the head of the listing. */
  lemma QueryIsHead(t: Table, f: Filter, cursor: Option<Key>, n: nat, ids: seq<string>)
    requires Lists(t, f, cursor, ids)
    ensures Query(t, f, cursor, n) == Take(ids, n)
  {
    var selected := set id | id in t && Selected(t, f, cursor, id);
    DescendingHolds(t, selected);
    SortedIsUnique(t, ids, Descending(t, selected));
  }

  /** The whole listing of a table under a filter. */
  function Listing(t: Table, f: Filter): seq<string> {
    Descending(t, set id | id in t && Selected(t, f, None, id))
  }

  lemma ListingIsExact(t: Table, f: Filter)
    ensures Lists(t, f, None, Listing(t, f))
  {
    DescendingHolds(t, set id | id in t && Selected(t, f, None, id));
  }

  // ---------- The server ----------

  /** A token is bound to the filter it was issued for; its limit may change. */
  datatype PageToken = NoToken | Garbled | Token(v: int, createdAt: Instant, id: string, digest: Filter)

  datatype ListRequest = ListRequest(venue: string, statuses: seq<Status>, bot: string, limit: int, token: PageToken)

  datatype ListResponse = ListResponse(orders: seq<string>, next: PageToken)

  datatype PagingError = InvalidArgument

  function FilterOf(req: ListRequest): Filter {
    Filter(if req.venue == "" then None else Some(req.venue),
           set s | s in req.statuses,
           if req.bot == "" then None else Some(req.bot))
  }

  function Decoded(token: PageToken, digest: Filter): Result<Option<Key>, PagingError> {
    match token
    case NoToken => Ok(None)
    case Garbled => Err(InvalidArgument)
    case Token(v, createdAt, id, bound) =>
      if v != 1 || createdAt == UNSET || id == "" || bound != digest then Err(InvalidArgument)
      else Ok(Some(Key(createdAt, id)))
  }

  /** One row more than the page is fetched, to tell whether there is a next one. */
  function ListOrders(t: Table, req: ListRequest): Result<ListResponse, PagingError> {
    if req.limit < 0 || req.limit > PAGE_LIMIT then Err(InvalidArgument)
    else
      var limit: nat := if req.limit == 0 then DEFAULT_LIMIT else req.limit;
      var cursor :- Decoded(req.token, FilterOf(req));
      var rows := Query(t, FilterOf(req), cursor, limit + 1);
      if |rows| > limit then
        var page := rows[..limit];
        var last := page[limit - 1];
        Ok(ListResponse(page, Token(1, if last in t then t[last].createdAt else UNSET, last, FilterOf(req))))
      else
        Ok(ListResponse(rows, NoToken))
  }

  // ---------- What a request asks for ----------

  /** An empty field or list asks for all. */
  predicate Asks(venue: string, statuses: seq<Status>, bot: string, row: Store.OrderRow) {
    && (venue == "" || row.instrument.venue == venue)
    && (statuses == [] || row.status in statuses)
    && (bot == "" || row.bot == bot)
  }

  /** Created later, or at the same time under a larger ID. */
  predicate Newer(a: Key, b: Key) {
    a.createdAt > b.createdAt || (a.createdAt == b.createdAt && TextOrder.Less(b.id, a.id))
  }

  predicate PastToken(token: PageToken, key: Key) {
    token.NoToken? || (token.Token? && Newer(Key(token.createdAt, token.id), key))
  }

  lemma MatchesIsAsked(req: ListRequest, row: Store.OrderRow)
    ensures Matches(row, FilterOf(req)) <==> Asks(req.venue, req.statuses, req.bot, row)
  {
    if req.statuses != [] {
      assert req.statuses[0] in FilterOf(req).statuses;
    }
  }

  /** A request is refused for a limit out of range, or a token that is broken or was issued for other fields. */
  lemma RefusedIff(t: Table, req: ListRequest)
    ensures ListOrders(t, req).Err? <==>
              || req.limit < 0 || req.limit > 500
              || req.token.Garbled?
              || (req.token.Token? && (req.token.v != 1 || req.token.createdAt == 0 || req.token.id == ""
                                       || req.token.digest != FilterOf(req)))
  {
  }

  lemma SelectedIsAsked(t: Table, req: ListRequest, id: string)
    requires Decoded(req.token, FilterOf(req)).Ok?
    ensures Selected(t, FilterOf(req), Decoded(req.token, FilterOf(req)).value, id) <==>
              id in t && Asks(req.venue, req.statuses, req.bot, t[id]) && PastToken(req.token, KeyOf(t, id))
  {
    if id in t {
      MatchesIsAsked(req, t[id]);
    }
  }

  /** The row is asked for, and older than where the token left off. */
  predicate Wanted(t: Table, req: ListRequest, id: string) {
    id in t && Asks(req.venue, req.statuses, req.bot, t[id]) && PastToken(req.token, KeyOf(t, id))
  }

  ghost predicate RowsDescend(t: Table, ids: seq<string>) {
    && (forall i :: 0 <= i < |ids| ==> ids[i] in t)
    && forall i, j :: 0 <= i < j < |ids| ==> Newer(KeyOf(t, ids[i]), KeyOf(t, ids[j]))
  }

  /** A full page of newer rows, and a token for the last of them. */
  ghost predicate LeavesOut(t: Table, r: ListResponse, limit: nat, key: Key) {
    && |r.orders| == limit > 0
    && (forall i :: 0 <= i < limit ==> r.orders[i] in t && Newer(KeyOf(t, r.orders[i]), key))
    && r.next.Token? && Key(r.next.createdAt, r.next.id) == KeyOf(t, r.orders[limit - 1])
  }

  lemma ResponseIsHead(t: Table, req: ListRequest, limit: nat, all: seq<string>)
    requires ListOrders(t, req).Ok? && limit == if req.limit == 0 then 50 else req.limit
    requires var f, cursor := FilterOf(req), Decoded(req.token, FilterOf(req)).value;
             all == Descending(t, set id | id in t && Selected(t, f, cursor, id))
    ensures var r := ListOrders(t, req).value;
            && r.orders == Take(all, limit) && limit > 0
            && (|all| > limit ==>
                  && all[limit - 1] in t && r.next.Token?
                  && Key(r.next.createdAt, r.next.id) == KeyOf(t, all[limit - 1]))
  {
    DescendingHolds(t, set id | id in t && Selected(t, FilterOf(req), Decoded(req.token, FilterOf(req)).value, id));
    assert |all| > limit ==> Take(all, limit + 1)[..limit] == all[..limit];
  }

  lemma HeadIsWanted(t: Table, all: seq<string>, limit: nat, r: ListResponse, id: string)
    requires Sorted(t, all) && r.orders == Take(all, limit) && limit > 0
    requires |all| > limit ==> r.next.Token? && Key(r.next.createdAt, r.next.id) == KeyOf(t, all[limit - 1])
    ensures |r.orders| <= limit && RowsDescend(t, r.orders) && (id in r.orders ==> id in all)
    ensures id in all && id !in r.orders ==> LeavesOut(t, r, limit, KeyOf(t, id))
  {
    if id in all && id !in r.orders {
      var k :| 0 <= k < |all| && all[k] == id;
      TakeHas(all, limit, k);
    }
  }

  lemma TakeHas(ids: seq<string>, n: nat, k: nat)
    requires k < |ids|
    ensures k < n ==> ids[k] in Take(ids, n)
  {
    assert k < n ==> Take(ids, n)[k] == ids[k];
  }

  /**
   A page holds wanted rows only, newest first, at most as many as the limit (fifty if none is
   given), and leaves out only rows older than all of a full page, which then ends in a token.
   */
  lemma PageIsAsAsked(t: Table, req: ListRequest, limit: nat, id: string)
    requires ListOrders(t, req).Ok? && limit == if req.limit == 0 then 50 else req.limit
    ensures var r := ListOrders(t, req).value;
            && |r.orders| <= limit && RowsDescend(t, r.orders)
            && (id in r.orders ==> Wanted(t, req, id))
            && (Wanted(t, req, id) && id !in r.orders ==> LeavesOut(t, r, limit, KeyOf(t, id)))
  {
    var selected := set x | x in t && Selected(t, FilterOf(req), Decoded(req.token, FilterOf(req)).value, x);
    var all := Descending(t, selected);
    DescendingHolds(t, selected);
    SelectedIsAsked(t, req, id);
    ResponseIsHead(t, req, limit, all);
    HeadIsWanted(t, all, limit, ListOrders(t, req).value, id);
  }

  /** Rows the store wrote carry a creation time and an id. */
  ghost predicate Stamped(t: Table) {
    forall id :: id in t ==> id != "" && t[id].createdAt != UNSET
  }

  /** The row keeps its place and its answer to the filter. */
  predicate StaysListed(row: Store.OrderRow, row': Store.OrderRow, f: Filter) {
    row'.createdAt == row.createdAt && (Matches(row', f) <==> Matches(row, f))
  }

  /** Since `t`, no row changed its place or its answer, and every added one is newer than what `t` selects. */
  ghost predicate OnlyNewer(t: Table, t': Table, f: Filter) {
    && (forall id :: id in t ==> id in t' && StaysListed(t[id], t'[id], f))
    && forall id, shown :: id in t' && id !in t && Selected(t, f, None, shown) ==> Below(KeyOf(t, shown), KeyOf(t', id))
  }

  lemma AddedIsNewer(db: Store.Db, ops: seq<Store.Op>, f: Filter, id: string, shown: string)
    requires StoreInvariant.Valid(db) && Selected(db.orders, f, None, shown)
    requires forall k :: 0 <= k < |ops| && ops[k].Create? ==> db.orders[shown].createdAt < ops[k].now
    requires id in Store.Run(db, ops).orders && id !in db.orders
    ensures Below(KeyOf(db.orders, shown), KeyOf(Store.Run(db, ops).orders, id))
  {
    StoreRuns.AddedRowsAreStamped(db, ops, id);
  }

  lemma KeptStaysListed(db: Store.Db, ops: seq<Store.Op>, f: Filter, id: string)
    requires StoreInvariant.Valid(db) && id in db.orders
    requires f.statuses == {} || (id in Store.Run(db, ops).orders ==>
               (db.orders[id].status in f.statuses <==> Store.Run(db, ops).orders[id].status in f.statuses))
    ensures id in Store.Run(db, ops).orders && StaysListed(db.orders[id], Store.Run(db, ops).orders[id], f)
  {
    StoreRuns.RunKeepsIdentity(db, ops);
  }

  /**
   Whatever the store does between pages, a listing only grows at the top, as long as orders
   are created later than those already listed and no status change moves a listed order in or
   out. Without a status filter none can.
   */
  lemma RunsOnlyAddNewer(db: Store.Db, ops: seq<Store.Op>, f: Filter)
    requires StoreInvariant.Valid(db)
    requires f.statuses == {} || forall id :: id in db.orders && id in Store.Run(db, ops).orders ==>
               (db.orders[id].status in f.statuses <==> Store.Run(db, ops).orders[id].status in f.statuses)
    requires forall k, id :: 0 <= k < |ops| && ops[k].Create? && id in db.orders && Matches(db.orders[id], f) ==>
               db.orders[id].createdAt < ops[k].now
    ensures OnlyNewer(db.orders, Store.Run(db, ops).orders, f)
  {
    var t, t' := db.orders, Store.Run(db, ops).orders;
    forall id | id in t ensures id in t' && StaysListed(t[id], t'[id], f) {
      KeptStaysListed(db, ops, f, id);
    }
    forall id, shown | id in t' && id !in t && Selected(t, f, None, shown)
        ensures Below(KeyOf(t, shown), KeyOf(t', id)) {
      AddedIsNewer(db, ops, f, id, shown);
    }
  }

  /** Below a row already shown, a grown table lists what the first one did. */
  lemma RestIsUnchanged(t: Table, t': Table, f: Filter, ids: seq<string>, c: nat)
    requires Lists(t, f, None, ids) && OnlyNewer(t, t', f) && 0 < c <= |ids|
    ensures Lists(t', f, Some(KeyOf(t, ids[c - 1])), ids[c..])
  {
    var cut := KeyOf(t, ids[c - 1]);
    var rest := ids[c..];
    assert ids[c - 1] in ids;
    forall id ensures id in rest <==> Selected(t', f, Some(cut), id) {
      if id in rest {
        var i :| c <= i < |ids| && ids[i] == id;
        assert ids[i] in ids;
        assert Below(KeyOf(t, ids[i]), KeyOf(t, ids[c - 1]));
      } else if Selected(t', f, Some(cut), id) {
        SelectedWasListed(t, t', f, ids, c, id);
      }
    }
    forall i, j | 0 <= i < j < |rest|
        ensures rest[i] in t' && rest[j] in t' && Below(KeyOf(t', rest[j]), KeyOf(t', rest[i])) {
      assert rest[i] == ids[c + i] && rest[j] == ids[c + j];
    }
    assert forall i :: 0 <= i < |rest| ==> rest[i] == ids[c + i];
  }

  lemma SelectedWasListed(t: Table, t': Table, f: Filter, ids: seq<string>, c: nat, id: string)
    requires Lists(t, f, None, ids) && OnlyNewer(t, t', f) && 0 < c <= |ids|
    requires Selected(t', f, Some(KeyOf(t, ids[c - 1])), id)
    ensures id in ids[c..]
  {
    var cut := KeyOf(t, ids[c - 1]);
    assert ids[c - 1] in ids;
    assert Selected(t, f, None, ids[c - 1]);
    if id !in t {
      BelowIsTotal(cut, KeyOf(t', id));
      assert false;
    }
    assert id in ids;
    var i :| 0 <= i < |ids| && ids[i] == id;
    BelowIsTotal(KeyOf(t, ids[i]), cut);
    assert i >= c;
    assert ids[c..][i - c] == id;
  }

  /** The page a listing's rest starts with. */
  ghost function PageFrom(t: Table, rest: seq<string>, req: ListRequest): ListResponse
    requires req.limit > 0 && forall i :: 0 <= i < |rest| ==> rest[i] in t
  {
    ListResponse(Take(rest, req.limit),
                 if |rest| <= req.limit then NoToken
                 else Token(1, t[rest[req.limit - 1]].createdAt, rest[req.limit - 1], FilterOf(req)))
  }

  /** A page is the head of what its cursor leaves, with a token exactly when there is more. */
  lemma PageOf(t: Table, req: ListRequest, cursor: Option<Key>, rest: seq<string>)
    requires 0 < req.limit <= PAGE_LIMIT && Decoded(req.token, FilterOf(req)) == Ok(cursor)
    requires Lists(t, FilterOf(req), cursor, rest)
    ensures ListOrders(t, req) == Ok(PageFrom(t, rest, req))
  {
    var limit: nat := req.limit;
    QueryIsHead(t, FilterOf(req), cursor, limit + 1, rest);
    var rows := Take(rest, limit + 1);
    if |rest| > limit {
      assert rows[..limit] == rest[..limit];
    }
  }

  lemma QueryReadsTable(t: Table, f: Filter, cursor: Option<Key>, n: nat)
    ensures forall i :: 0 <= i < |Query(t, f, cursor, n)| ==> Query(t, f, cursor, n)[i] in t
  {
    DescendingHolds(t, set id | id in t && Selected(t, f, cursor, id));
  }

  /** The two requests ask for the same venue, the same bot and the same set of statuses. */
  ghost predicate SameFields(a: ListRequest, b: ListRequest) {
    a.venue == b.venue && a.bot == b.bot && forall s :: s in a.statuses <==> s in b.statuses
  }

  lemma SameFilterIff(a: ListRequest, b: ListRequest)
    ensures FilterOf(a) == FilterOf(b) <==> SameFields(a, b)
  {
    if FilterOf(a) == FilterOf(b) {
      forall s ensures s in a.statuses <==> s in b.statuses {
        assert s in a.statuses <==> s in FilterOf(a).statuses;
        assert s in b.statuses <==> s in FilterOf(b).statuses;
      }
    }
  }

  /** A page's token continues under the same fields, at any limit, and under no others. */
  lemma TokenIsBoundToFilter(t: Table, req: ListRequest, t': Table, req': ListRequest)
    requires Stamped(t) && ListOrders(t, req).Ok? && ListOrders(t, req).value.next != NoToken
    requires req'.token == ListOrders(t, req).value.next && 0 <= req'.limit <= PAGE_LIMIT
    ensures ListOrders(t', req').Ok? <==> SameFields(req, req')
  {
    var limit: nat := if req.limit == 0 then DEFAULT_LIMIT else req.limit;
    var cursor := Decoded(req.token, FilterOf(req)).value;
    QueryReadsTable(t, FilterOf(req), cursor, limit + 1);
    var rows := Query(t, FilterOf(req), cursor, limit + 1);
    assert rows[..limit][limit - 1] in t;
    SameFilterIff(req, req');
  }

  // ---------- The command line ----------

  function PageLimit(remaining: nat): nat {
    if remaining < PAGE_LIMIT then remaining else PAGE_LIMIT
  }

  /** What one page shows. */
  function Shown(t: Table, f: Filter, cursor: Option<Key>, n: nat): seq<string> {
    Take(Query(t, f, cursor, n + 1), n)
  }

  predicate HasMore(t: Table, f: Filter, cursor: Option<Key>, n: nat) {
    |Query(t, f, cursor, n + 1)| > n
  }

  /** Where the next page starts. */
  function NextCursor(t: Table, f: Filter, cursor: Option<Key>, n: nat): Option<Key>
    requires 0 < n && HasMore(t, f, cursor, n)
  {
    QueryReadsTable(t, f, cursor, n + 1);
    Some(KeyOf(t, Shown(t, f, cursor, n)[n - 1]))
  }

  /** A page's rows, and the cursor its token stands for. */
  datatype Page = Page(rows: seq<string>, next: Option<Key>)

  function PageRead(t: Table, f: Filter, cursor: Option<Key>, n: nat): Page {
    Page(Shown(t, f, cursor, n), if 0 < n && HasMore(t, f, cursor, n) then NextCursor(t, f, cursor, n) else None)
  }

  /** Answers to (page number, cursor, limit). */
  type Server = (nat, Option<Key>, nat) -> Page

  /** Page number `k` reads `tables(k)`. */
  function Reading(tables: nat -> Table, f: Filter): Server {
    (page: nat, cursor: Option<Key>, n: nat) => PageRead(tables(page), f, cursor, n)
  }

  /** What paging prints. */
  function Pages(serve: Server, page: nat, cursor: Option<Key>, remaining: nat): seq<string>
    decreases remaining
  {
    if remaining == 0 then []
    else
      var p := serve(page, cursor, PageLimit(remaining));
      p.rows + if p.next.Some? then Pages(serve, page + 1, p.next, remaining - PageLimit(remaining)) else []
  }

  /** How many pages that takes. */
  function PageCount(serve: Server, page: nat, cursor: Option<Key>, remaining: nat): nat
    decreases remaining
  {
    if remaining == 0 then 0
    else
      var p := serve(page, cursor, PageLimit(remaining));
      1 + if p.next.Some? then PageCount(serve, page + 1, p.next, remaining - PageLimit(remaining)) else 0
  }

  lemma ServedPage(t: Table, req: ListRequest, cursor: Option<Key>)
    requires Stamped(t) && 0 < req.limit <= PAGE_LIMIT && Decoded(req.token, FilterOf(req)) == Ok(cursor)
    ensures var r, f, n: nat := ListOrders(t, req), FilterOf(req), req.limit;
            && r.Ok? && r.value.orders == Shown(t, f, cursor, n) && |r.value.orders| <= n
            && (HasMore(t, f, cursor, n) ==>
                  |r.value.orders| == n && r.value.next != NoToken
                  && Decoded(r.value.next, f) == Ok(NextCursor(t, f, cursor, n)))
            && (!HasMore(t, f, cursor, n) ==> r.value.next == NoToken)
  {
    var f, n: nat := FilterOf(req), req.limit;
    QueryReadsTable(t, f, cursor, n + 1);
    if HasMore(t, f, cursor, n) {
      assert Query(t, f, cursor, n + 1)[..n][n - 1] in t;
    }
  }

  lemma PagesUnfold(serve: Server, page: nat, cursor: Option<Key>, remaining: nat, out: seq<string>)
    requires remaining > 0
    ensures var p, n := serve(page, cursor, PageLimit(remaining)), PageLimit(remaining);
            out + Pages(serve, page, cursor, remaining) ==
              if p.next.Some? then (out + p.rows) + Pages(serve, page + 1, p.next, remaining - n) else out + p.rows
    ensures var p, n := serve(page, cursor, PageLimit(remaining)), PageLimit(remaining);
            PageCount(serve, page, cursor, remaining) ==
              if p.next.Some? then 1 + PageCount(serve, page + 1, p.next, remaining - n) else 1
  {
  }

  /** `serve` answers as the pages read from these tables do. */
  ghost predicate Serves(serve: Server, tables: nat -> Table, f: Filter) {
    forall page: nat, cursor, n: nat :: ServesPage(serve, tables, f, page, cursor, n)
  }

  ghost predicate ServesPage(serve: Server, tables: nat -> Table, f: Filter, page: nat, cursor: Option<Key>, n: nat) {
    serve(page, cursor, n) == PageRead(tables(page), f, cursor, n)
  }

  lemma ReadingIsServed(tables: nat -> Table, f: Filter)
    ensures Serves(Reading(tables, f), tables, f)
  {
  }

  /** One turn of the loop: the page is printed, and `more` says whether it goes on from `next`. */
  method PrintPage(tables: nat -> Table, page: nat, req: ListRequest, ghost cursor: Option<Key>, out: seq<string>,
                   ghost serve: Server, ghost remaining: nat)
    returns (response: ListResponse, more: bool, ghost next: Option<Key>)
    requires Stamped(tables(page)) && Decoded(req.token, FilterOf(req)) == Ok(cursor)
    requires Serves(serve, tables, FilterOf(req)) && remaining > 0 && req.limit == PageLimit(remaining)
    ensures more <==> response.next != NoToken && |response.orders| != 0
    ensures more ==> |response.orders| == req.limit && Decoded(response.next, FilterOf(req)) == Ok(next)
    ensures out + Pages(serve, page, cursor, remaining) ==
              if more then (out + response.orders) + Pages(serve, page + 1, next, remaining - req.limit)
              else out + response.orders
    ensures PageCount(serve, page, cursor, remaining) ==
              if more then 1 + PageCount(serve, page + 1, next, remaining - req.limit) else 1
  {
    assert ServesPage(serve, tables, FilterOf(req), page, cursor, req.limit);
    ServedPage(tables(page), req, cursor);
    PagesUnfold(serve, page, cursor, remaining, out);
    response := ListOrders(tables(page), req).value;
    more := response.next != NoToken && |response.orders| != 0;
    next := serve(page, cursor, req.limit).next;
  }

  /** The paging loop. Page number `k` reads `tables(k)`. */
  method PrintPages(tables: nat -> Table, venue: string, statuses: seq<Status>, bot: string, limit: nat,
                    ghost serve: Server) returns (out: seq<string>, ghost pages: nat)
    requires forall k :: Stamped(tables(k))
    requires Serves(serve, tables, FilterOf(ListRequest(venue, statuses, bot, 0, NoToken)))
    ensures out == Pages(serve, 0, None, limit) && pages == PageCount(serve, 0, None, limit)
  {
    out := [];
    var page: nat, token, remaining: nat, more := 0, NoToken, limit, true;
    ghost var f := FilterOf(ListRequest(venue, statuses, bot, 0, NoToken));
    ghost var cursor: Option<Key>, all := None, Pages(serve, 0, None, limit);
    ghost var count := PageCount(serve, 0, None, limit);
    assert [] + all == all;
    while remaining > 0 && more
      invariant more ==> Decoded(token, f) == Ok(cursor)
      invariant more ==> out + Pages(serve, page, cursor, remaining) == all
      invariant !more ==> out == all
      invariant count == page + if more then PageCount(serve, page, cursor, remaining) else 0
      decreases remaining, more
    {
      var pageLimit := if remaining < PAGE_LIMIT then remaining else PAGE_LIMIT;
      var req := ListRequest(venue, statuses, bot, pageLimit, token);
      assert FilterOf(req) == f;
      var response;
      response, more, cursor := PrintPage(tables, page, req, cursor, out, serve, remaining);
      out := out + response.orders;
      if more {
        remaining := remaining - |response.orders|;
      }
      token := response.next;
      page := page + 1;
    }
    pages := page;
  }

  // ---------- Paging a changing table ----------

  /** Creation times never change; `at` gives them. */
  ghost predicate Keyed(tables: nat -> Table, at: string -> Instant) {
    forall k, id :: id in tables(k) ==> tables(k)[id].createdAt == at(id)
  }

  ghost predicate Descends(at: string -> Instant, ids: seq<string>) {
    forall i, j :: 0 <= i < j < |ids| ==> Below(Key(at(ids[j]), ids[j]), Key(at(ids[i]), ids[i]))
  }

  /** The row exists and matches when page `k` is read. */
  predicate MatchesAt(tables: nat -> Table, f: Filter, k: nat, id: string) {
    id in tables(k) && Matches(tables(k)[id], f)
  }

  /** A page shows the newest selected rows below its cursor, and all of them unless there is more. */
  lemma ShownIsHead(t: Table, f: Filter, cursor: Option<Key>, n: nat, id: string)
    requires Selected(t, f, cursor, id) && 0 < n
    ensures id in Shown(t, f, cursor, n) ||
        (HasMore(t, f, cursor, n) && Below(KeyOf(t, id), NextCursor(t, f, cursor, n).value))
  {
    var selected := set x | x in t && Selected(t, f, cursor, x);
    var all := Descending(t, selected);
    DescendingHolds(t, selected);
    assert id in selected && id in all;
    var i :| 0 <= i < |all| && all[i] == id;
    if |all| <= n {
      assert Shown(t, f, cursor, n) == all;
    } else {
      assert Shown(t, f, cursor, n) == all[..n];
      assert i < n ==> all[..n][i] == id;
    }
  }

  lemma ShownAreSelected(t: Table, f: Filter, cursor: Option<Key>, n: nat)
    ensures var shown := Shown(t, f, cursor, n);
            Sorted(t, shown) && |shown| <= n && forall i :: 0 <= i < |shown| ==> Selected(t, f, cursor, shown[i])
  {
    var selected := set x | x in t && Selected(t, f, cursor, x);
    var all := Descending(t, selected);
    DescendingHolds(t, selected);
    forall i | 0 <= i < |Shown(t, f, cursor, n)| ensures Selected(t, f, cursor, Shown(t, f, cursor, n)[i]) {
      assert all[i] in all;
    }
  }

  lemma DescendsOn(at: string -> Instant, above: seq<string>, below: seq<string>)
    requires Descends(at, above) && Descends(at, below) && above != []
    requires var last := above[|above| - 1];
             forall i :: 0 <= i < |below| ==> Below(Key(at(below[i]), below[i]), Key(at(last), last))
    ensures Descends(at, above + below)
  {
    var all, n := above + below, |above|;
    forall i, j | 0 <= i < j < |all| ensures Below(Key(at(all[j]), all[j]), Key(at(all[i]), all[i])) {
      if i < n - 1 && n <= j {
        BelowIsTransitive(Key(at(all[j]), all[j]), Key(at(above[n - 1]), above[n - 1]), Key(at(all[i]), all[i]));
      }
    }
  }

  /** All of `ids` lie below the cursor. */
  ghost predicate AllBelow(at: string -> Instant, ids: seq<string>, cursor: Option<Key>) {
    cursor.Some? ==> forall i :: 0 <= i < |ids| ==> Below(Key(at(ids[i]), ids[i]), cursor.value)
  }

  /** The next page starts below the last row shown. */
  lemma NextIsLast(tables: nat -> Table, at: string -> Instant, f: Filter, page: nat, cursor: Option<Key>, n: nat)
    requires Keyed(tables, at) && 0 < n && HasMore(tables(page), f, cursor, n)
    ensures var shown, next := Shown(tables(page), f, cursor, n), NextCursor(tables(page), f, cursor, n);
            |shown| == n && next == Some(Key(at(shown[n - 1]), shown[n - 1]))
  {
    QueryReadsTable(tables(page), f, cursor, n + 1);
  }

  lemma BelowNextIsBelow(at: string -> Instant, ids: seq<string>, next: Key, cursor: Option<Key>)
    requires AllBelow(at, ids, Some(next)) && (cursor.Some? ==> Below(next, cursor.value))
    ensures AllBelow(at, ids, cursor)
  {
    if cursor.Some? {
      forall i | 0 <= i < |ids| ensures Below(Key(at(ids[i]), ids[i]), cursor.value) {
        BelowIsTransitive(Key(at(ids[i]), ids[i]), next, cursor.value);
      }
    }
  }

  lemma ShownDescends(tables: nat -> Table, at: string -> Instant, f: Filter, page: nat, cursor: Option<Key>, n: nat)
    requires Keyed(tables, at)
    ensures var shown := Shown(tables(page), f, cursor, n); Descends(at, shown) && AllBelow(at, shown, cursor)
  {
    ShownAreSelected(tables(page), f, cursor, n);
  }

  lemma JoinDescends(at: string -> Instant, shown: seq<string>, rest: seq<string>, cursor: Option<Key>)
    requires shown != [] && Descends(at, shown) && AllBelow(at, shown, cursor) && Descends(at, rest)
    requires var last := shown[|shown| - 1]; AllBelow(at, rest, Some(Key(at(last), last)))
    ensures Descends(at, shown + rest) && AllBelow(at, shown + rest, cursor)
  {
    var last := shown[|shown| - 1];
    DescendsOn(at, shown, rest);
    BelowNextIsBelow(at, rest, Key(at(last), last), cursor);
  }

  /** A page's rows descend from its cursor, and a next page starts below the last of them. */
  ghost predicate PageDescends(at: string -> Instant, cursor: Option<Key>, n: nat, p: Page) {
    && |p.rows| <= n && Descends(at, p.rows) && AllBelow(at, p.rows, cursor)
    && (p.next.Some? ==> 0 < n == |p.rows| && p.next.value == Key(at(p.rows[n - 1]), p.rows[n - 1]))
  }

  ghost predicate ServesDescending(serve: Server, at: string -> Instant) {
    forall page: nat, cursor, n: nat :: PageDescends(at, cursor, n, serve(page, cursor, n))
  }

  lemma {:induction false} PagesDescend(serve: Server, at: string -> Instant, page: nat, cursor: Option<Key>,
                                        remaining: nat)
    requires ServesDescending(serve, at)
    ensures var out := Pages(serve, page, cursor, remaining);
            |out| <= remaining && Descends(at, out) && AllBelow(at, out, cursor)
    decreases remaining
  {
    if remaining > 0 {
      var n := PageLimit(remaining);
      var p := serve(page, cursor, n);
      assert PageDescends(at, cursor, n, p);
      if p.next.Some? {
        PagesDescend(serve, at, page + 1, p.next, remaining - n);
        JoinDescends(at, p.rows, Pages(serve, page + 1, p.next, remaining - n), cursor);
      }
    }
  }

  lemma ReadingDescends(tables: nat -> Table, at: string -> Instant, f: Filter)
    requires Keyed(tables, at)
    ensures ServesDescending(Reading(tables, f), at)
  {
    forall page: nat, cursor, n: nat ensures PageDescends(at, cursor, n, PageRead(tables(page), f, cursor, n)) {
      ShownDescends(tables, at, f, page, cursor, n);
      ShownAreSelected(tables(page), f, cursor, n);
      if 0 < n && HasMore(tables(page), f, cursor, n) {
        NextIsLast(tables, at, f, page, cursor, n);
      }
    }
  }

  /** However the tables change, what is printed strictly descends: nothing is printed twice. */
  lemma NothingIsRepeated(tables: nat -> Table, at: string -> Instant, f: Filter, limit: nat)
    requires Keyed(tables, at)
    ensures var out := Pages(Reading(tables, f), 0, None, limit); |out| <= limit && Descends(at, out)
  {
    ReadingDescends(tables, at, f);
    PagesDescend(Reading(tables, f), at, 0, None, limit);
  }

  /** Page `k` shows only rows of which `matches(k, _)` holds. */
  ghost predicate ServesMatching(serve: Server, matches: (nat, string) -> bool) {
    forall page: nat, cursor, n: nat, id :: id in serve(page, cursor, n).rows ==> matches(page, id)
  }

  lemma {:induction false} PagesMatch(serve: Server, matches: (nat, string) -> bool, page: nat, cursor: Option<Key>,
                                      remaining: nat, id: string) returns (k: nat)
    requires ServesMatching(serve, matches) && id in Pages(serve, page, cursor, remaining)
    ensures page <= k < page + PageCount(serve, page, cursor, remaining) && matches(k, id)
    decreases remaining
  {
    var n := PageLimit(remaining);
    var p := serve(page, cursor, n);
    if id in p.rows {
      k := page;
    } else {
      k := PagesMatch(serve, matches, page + 1, p.next, remaining - n, id);
    }
  }

  /** However the tables change, every printed row existed and matched when its page was read. */
  lemma PrintedMatched(tables: nat -> Table, f: Filter, limit: nat, id: string)
    requires id in Pages(Reading(tables, f), 0, None, limit)
    ensures exists k :: 0 <= k < PageCount(Reading(tables, f), 0, None, limit) && MatchesAt(tables, f, k, id)
  {
    var matches := (k: nat, x: string) => MatchesAt(tables, f, k, x);
    forall page: nat, cursor, n: nat, x | x in Reading(tables, f)(page, cursor, n).rows ensures matches(page, x) {
      ShownAreSelected(tables(page), f, cursor, n);
    }
    var k := PagesMatch(Reading(tables, f), matches, 0, None, limit, id);
  }

  /** `id` comes after all of `ids`. */
  ghost predicate After(at: string -> Instant, ids: seq<string>, id: string) {
    forall i :: 0 <= i < |ids| ==> Below(Key(at(id), id), Key(at(ids[i]), ids[i]))
  }

  lemma AfterLast(at: string -> Instant, ids: seq<string>, id: string)
    requires Descends(at, ids) && ids != []
    requires var last := ids[|ids| - 1]; Below(Key(at(id), id), Key(at(last), last))
    ensures After(at, ids, id)
  {
    var n := |ids| - 1;
    forall i | 0 <= i < |ids| ensures Below(Key(at(id), id), Key(at(ids[i]), ids[i])) {
      if i < n {
        BelowIsTransitive(Key(at(id), id), Key(at(ids[n]), ids[n]), Key(at(ids[i]), ids[i]));
      }
    }
  }

  /** Page `k` shows `id`, or leaves it to the next page, if it is below the cursor and `matches(k)`. */
  ghost predicate ServesRow(serve: Server, matches: nat -> bool, key: Key) {
    forall page: nat, cursor: Option<Key>, n: nat :: RowServed(serve, matches, key, page, cursor, n)
  }

  predicate RowServed(serve: Server, matches: nat -> bool, key: Key, page: nat, cursor: Option<Key>, n: nat) {
    0 < n && matches(page) && (cursor.Some? ==> Below(key, cursor.value)) ==>
      ShowsOrPasses(serve(page, cursor, n), key)
  }

  predicate ShowsOrPasses(p: Page, key: Key) {
    key.id in p.rows || (p.next.Some? && Below(key, p.next.value))
  }

  lemma {:induction false} PagesReach(serve: Server, matches: nat -> bool, at: string -> Instant, page: nat,
                                      cursor: Option<Key>, remaining: nat, id: string)
    requires ServesDescending(serve, at) && ServesRow(serve, matches, Key(at(id), id))
    requires cursor.Some? ==> Below(Key(at(id), id), cursor.value)
    requires forall k :: page <= k < page + PageCount(serve, page, cursor, remaining) ==> matches(k)
    ensures var out := Pages(serve, page, cursor, remaining);
            id in out || (|out| == remaining && After(at, out, id))
    decreases remaining
  {
    if remaining > 0 {
      var n := PageLimit(remaining);
      var p := serve(page, cursor, n);
      assert PageDescends(at, cursor, n, p);
      assert RowServed(serve, matches, Key(at(id), id), page, cursor, n);
      if id !in p.rows {
        PagesReach(serve, matches, at, page + 1, p.next, remaining - n, id);
        AfterLast(at, p.rows, id);
      }
    }
  }

  lemma ReadingServes(tables: nat -> Table, at: string -> Instant, f: Filter, id: string)
    requires Keyed(tables, at)
    ensures ServesRow(Reading(tables, f), (k: nat) => MatchesAt(tables, f, k, id), Key(at(id), id))
  {
    var matches := (k: nat) => MatchesAt(tables, f, k, id);
    forall page: nat, cursor: Option<Key>, n: nat
        ensures RowServed(Reading(tables, f), matches, Key(at(id), id), page, cursor, n) {
      if 0 < n && matches(page) && (cursor.Some? ==> Below(Key(at(id), id), cursor.value)) {
        ShownIsHead(tables(page), f, cursor, n, id);
      }
    }
  }

  /**
   However the tables change, a row that exists and matches whenever a page is read is printed,
   unless the limit was reached before its place in the order.
   */
  lemma NothingIsSkipped(tables: nat -> Table, at: string -> Instant, f: Filter, limit: nat, id: string)
    requires Keyed(tables, at)
    requires forall k :: 0 <= k < PageCount(Reading(tables, f), 0, None, limit) ==> MatchesAt(tables, f, k, id)
    ensures var out := Pages(Reading(tables, f), 0, None, limit);
            id in out || (|out| == limit && After(at, out, id))
  {
    ReadingDescends(tables, at, f);
    ReadingServes(tables, at, f, id);
    PagesReach(Reading(tables, f), (k: nat) => MatchesAt(tables, f, k, id), at, 0, None, limit, id);
  }

  // ---------- The order list command ----------

  /** The row is there and asked for when page `k` is read. */
  predicate AskedAt(tables: nat -> Table, venue: string, statuses: seq<Status>, bot: string, k: nat, id: string) {
    id in tables(k) && Asks(venue, statuses, bot, tables(k)[id])
  }

  predicate SomeTimeAsked(tables: nat -> Table, venue: string, statuses: seq<Status>, bot: string, pages: nat,
                          id: string) {
    exists k: nat :: k < pages && AskedAt(tables, venue, statuses, bot, k, id)
  }

  predicate AlwaysAsked(tables: nat -> Table, venue: string, statuses: seq<Status>, bot: string, pages: nat,
                        id: string) {
    forall k: nat :: k < pages ==> AskedAt(tables, venue, statuses, bot, k, id)
  }

  ghost predicate NewestFirst(at: string -> Instant, ids: seq<string>) {
    forall i, j :: 0 <= i < j < |ids| ==> Newer(Key(at(ids[i]), ids[i]), Key(at(ids[j]), ids[j]))
  }

  /** The row is printed, or its place is past the limit. */
  ghost predicate PrintedUpTo(at: string -> Instant, ids: seq<string>, limit: nat, id: string) {
    id in ids || (|ids| == limit && NewestFirst(at, ids + [id]))
  }

  lemma MatchesAtIsAskedAt(tables: nat -> Table, venue: string, statuses: seq<Status>, bot: string, k: nat, id: string)
    ensures MatchesAt(tables, FilterOf(ListRequest(venue, statuses, bot, 0, NoToken)), k, id) <==>
              AskedAt(tables, venue, statuses, bot, k, id)
  {
    if id in tables(k) {
      MatchesIsAsked(ListRequest(venue, statuses, bot, 0, NoToken), tables(k)[id]);
    }
  }

  lemma PrintedWasAsked(tables: nat -> Table, venue: string, statuses: seq<Status>, bot: string, limit: nat, id: string)
    requires id in Pages(Reading(tables, FilterOf(ListRequest(venue, statuses, bot, 0, NoToken))), 0, None, limit)
    ensures var pages := PageCount(Reading(tables, FilterOf(ListRequest(venue, statuses, bot, 0, NoToken))), 0, None,
                limit);
            SomeTimeAsked(tables, venue, statuses, bot, pages, id)
  {
    var f := FilterOf(ListRequest(venue, statuses, bot, 0, NoToken));
    PrintedMatched(tables, f, limit, id);
    var k: nat :| k < PageCount(Reading(tables, f), 0, None, limit) && MatchesAt(tables, f, k, id);
    MatchesAtIsAskedAt(tables, venue, statuses, bot, k, id);
  }

  lemma AskedIsPrinted(tables: nat -> Table, at: string -> Instant, venue: string, statuses: seq<Status>, bot: string,
                       limit: nat, id: string)
    requires Keyed(tables, at)
    requires var pages := PageCount(Reading(tables, FilterOf(ListRequest(venue, statuses, bot, 0, NoToken))), 0, None,
                 limit);
             AlwaysAsked(tables, venue, statuses, bot, pages, id)
    ensures var out := Pages(Reading(tables, FilterOf(ListRequest(venue, statuses, bot, 0, NoToken))), 0, None, limit);
            PrintedUpTo(at, out, limit, id)
  {
    var f := FilterOf(ListRequest(venue, statuses, bot, 0, NoToken));
    var out := Pages(Reading(tables, f), 0, None, limit);
    forall k: nat | k < PageCount(Reading(tables, f), 0, None, limit) ensures MatchesAt(tables, f, k, id) {
      MatchesAtIsAskedAt(tables, venue, statuses, bot, k, id);
      assert AskedAt(tables, venue, statuses, bot, k, id);
    }
    NothingIsSkipped(tables, at, f, limit, id);
    NothingIsRepeated(tables, at, f, limit);
    if id !in out {
      AfterAllIsLast(at, out, id);
    }
  }

  lemma AfterAllIsLast(at: string -> Instant, ids: seq<string>, id: string)
    requires Descends(at, ids) && After(at, ids, id)
    ensures NewestFirst(at, ids + [id])
  {
  }

  lemma PrintedNewestFirst(tables: nat -> Table, at: string -> Instant, f: Filter, limit: nat)
    requires Keyed(tables, at)
    ensures var out := Pages(Reading(tables, f), 0, None, limit); |out| <= limit && NewestFirst(at, out)
  {
    NothingIsRepeated(tables, at, f, limit);
  }

  /**
   The order list command. However the tables change between its pages, as long as no creation
   time does: what is printed was asked for when some page was read, it is printed newest first,
   and a row asked for at every page is printed, unless its place is past the limit.
   */
  method RunOrderList(tables: nat -> Table, ghost at: string -> Instant, venue: string, statuses: seq<Status>,
                      bot: string, limit: int)
    returns (printed: Result<seq<string>, PagingError>, ghost pages: nat)
    requires forall k :: Stamped(tables(k))
    ensures limit < 1 ==> printed == Err(InvalidArgument)
    ensures limit >= 1 ==> printed.Ok?
    ensures limit >= 1 ==> forall id :: id in printed.value ==> SomeTimeAsked(tables, venue, statuses, bot, pages, id)
    ensures limit >= 1 && Keyed(tables, at) ==> |printed.value| <= limit && NewestFirst(at, printed.value)
    ensures limit >= 1 && Keyed(tables, at) ==> forall id :: AlwaysAsked(tables, venue, statuses, bot, pages, id) ==>
              PrintedUpTo(at, printed.value, limit, id)
    ensures limit >= 1 ==>
              var serve := Reading(tables, FilterOf(ListRequest(venue, statuses, bot, 0, NoToken)));
              printed == Ok(Pages(serve, 0, None, limit)) && pages == PageCount(serve, 0, None, limit)
  {
    if limit < 1 {
      pages := 0;
      return Err(InvalidArgument), pages;
    }
    ghost var f := FilterOf(ListRequest(venue, statuses, bot, 0, NoToken));
    ReadingIsServed(tables, f);
    var out;
    out, pages := PrintPages(tables, venue, statuses, bot, limit, Reading(tables, f));
    printed := Ok(out);
    forall id | id in out ensures SomeTimeAsked(tables, venue, statuses, bot, pages, id) {
      PrintedWasAsked(tables, venue, statuses, bot, limit, id);
    }
    if Keyed(tables, at) {
      PrintedNewestFirst(tables, at, f, limit);
      forall id | AlwaysAsked(tables, venue, statuses, bot, pages, id) ensures PrintedUpTo(at, out, limit, id) {
        AskedIsPrinted(tables, at, venue, statuses, bot, limit, id);
      }
    }
  }

  // ---------- A listing that only grows at the top ----------

  /** From page to page, the table only grows above what the first page could see. */
  ghost predicate GrowsAtTop(tables: nat -> Table, f: Filter) {
    forall k :: OnlyNewer(tables(0), tables(k), f)
  }

  ghost predicate AreRows(t: Table, ids: seq<string>) {
    forall i :: 0 <= i < |ids| ==> ids[i] in t
  }

  /** The cursor after `c` rows of a listing. */
  ghost function CursorAfter(t: Table, ids: seq<string>, c: nat): Option<Key>
    requires AreRows(t, ids) && c <= |ids|
  {
    if c == 0 then None else Some(KeyOf(t, ids[c - 1]))
  }

  lemma RestOfListing(tables: nat -> Table, f: Filter, page: nat, ids: seq<string>, c: nat)
    requires GrowsAtTop(tables, f) && Lists(tables(0), f, None, ids) && c <= |ids| && (c == 0 ==> page == 0)
    ensures Lists(tables(page), f, CursorAfter(tables(0), ids, c), ids[c..])
  {
    assert OnlyNewer(tables(0), tables(page), f);
    if c == 0 {
      assert ids[c..] == ids;
    } else {
      RestIsUnchanged(tables(0), tables(page), f, ids, c);
    }
  }

  /** Page `page`, read after `c` rows, is the next slice of `ids`. */
  ghost predicate PageIsSlice(t: Table, ids: seq<string>, c: nat, n: nat, p: Page)
    requires AreRows(t, ids) && c <= |ids|
  {
    if |ids| - c > n then p == Page(ids[c..c + n], CursorAfter(t, ids, c + n)) else p == Page(ids[c..], None)
  }

  ghost predicate ServesSlices(serve: Server, t: Table, ids: seq<string>)
    requires AreRows(t, ids)
  {
    forall page: nat, c: nat, n: nat :: SliceServed(serve, t, ids, page, c, n)
  }

  ghost predicate SliceServed(serve: Server, t: Table, ids: seq<string>, page: nat, c: nat, n: nat)
    requires AreRows(t, ids)
  {
    c <= |ids| && (c == 0 ==> page == 0) && 0 < n ==> PageIsSlice(t, ids, c, n, serve(page, CursorAfter(t, ids, c), n))
  }

  lemma PagesAreSlices(tables: nat -> Table, f: Filter, page: nat, ids: seq<string>, c: nat, n: nat)
    requires GrowsAtTop(tables, f) && Lists(tables(0), f, None, ids) && c <= |ids| && (c == 0 ==> page == 0) && 0 < n
    ensures PageIsSlice(tables(0), ids, c, n, PageRead(tables(page), f, CursorAfter(tables(0), ids, c), n))
  {
    RestOfListing(tables, f, page, ids, c);
    assert OnlyNewer(tables(0), tables(page), f);
    RestIsSlice(tables(0), tables(page), f, ids, c, n);
  }

  lemma RestIsSlice(t0: Table, t: Table, f: Filter, ids: seq<string>, c: nat, n: nat)
    requires AreRows(t0, ids) && OnlyNewer(t0, t, f) && c <= |ids| && 0 < n
    requires Lists(t, f, CursorAfter(t0, ids, c), ids[c..])
    ensures PageIsSlice(t0, ids, c, n, PageRead(t, f, CursorAfter(t0, ids, c), n))
  {
    var cursor := CursorAfter(t0, ids, c);
    QueryIsHead(t, f, cursor, n + 1, ids[c..]);
    if |ids| - c > n {
      assert Shown(t, f, cursor, n) == ids[c..c + n];
      assert ids[c..c + n][n - 1] == ids[c + n - 1];
    }
  }

  lemma TakeParts(ids: seq<string>, c: nat, n: nat, remaining: nat)
    requires c <= |ids| && n <= remaining
    ensures |ids| - c > n ==> Take(ids[c..], remaining) == ids[c..c + n] + Take(ids[c + n..], remaining - n)
    ensures |ids| - c <= n ==> Take(ids[c..], remaining) == ids[c..]
    ensures Take(ids[c..], 0) == []
  {
  }

  lemma FirstSlice(serve: Server, t: Table, page: nat, ids: seq<string>, c: nat, remaining: nat)
    requires AreRows(t, ids) && c <= |ids| && (c == 0 ==> page == 0) && remaining > 0
    requires SliceServed(serve, t, ids, page, c, PageLimit(remaining))
    ensures var n, out := PageLimit(remaining), Pages(serve, page, CursorAfter(t, ids, c), remaining);
            out == if |ids| - c > n
                   then ids[c..c + n] + Pages(serve, page + 1, CursorAfter(t, ids, c + n), remaining - n)
                   else ids[c..]
  {
  }

  lemma {:induction false} SlicesJoin(serve: Server, t: Table, page: nat, ids: seq<string>, c: nat, remaining: nat,
                                      out: seq<string>)
    requires AreRows(t, ids) && ServesSlices(serve, t, ids) && c <= |ids| && (c == 0 ==> page == 0)
    requires out == Pages(serve, page, CursorAfter(t, ids, c), remaining)
    ensures out == Take(ids[c..], remaining)
    decreases remaining
  {
    var n := PageLimit(remaining);
    TakeParts(ids, c, n, remaining);
    if remaining > 0 {
      FirstSlice(serve, t, page, ids, c, remaining);
      if |ids| - c > n {
        SlicesJoin(serve, t, page + 1, ids, c + n, remaining - n,
                   Pages(serve, page + 1, CursorAfter(t, ids, c + n), remaining - n));
      }
    }
  }

  /**
   When newer rows arrive and listed rows are updated between pages, but none is moved in or out
   of the listing, the pages are exactly the head of the listing as the first page found it.
   */
  lemma PagesAreListing(tables: nat -> Table, f: Filter, limit: nat)
    requires GrowsAtTop(tables, f)
    ensures Pages(Reading(tables, f), 0, None, limit) == Take(Listing(tables(0), f), limit)
  {
    var t, ids := tables(0), Listing(tables(0), f);
    ListingIsExact(t, f);
    forall page: nat, c: nat, n: nat ensures SliceServed(Reading(tables, f), t, ids, page, c, n) {
      if c <= |ids| && (c == 0 ==> page == 0) && 0 < n {
        PagesAreSlices(tables, f, page, ids, c, n);
      }
    }
    SlicesJoin(Reading(tables, f), t, 0, ids, 0, limit, Pages(Reading(tables, f), 0, None, limit));
    assert ids[0..] == ids;
  }

  // ---------- The store's tables ----------

  /** The tables the pages read, when `ops(k)` commit between page `k` and the next. */
  function TableAt(db: Store.Db, ops: nat -> seq<Store.Op>, k: nat): Store.Db {
    if k == 0 then db else Store.Run(TableAt(db, ops, k - 1), ops(k - 1))
  }

  lemma {:induction false} TablesStayValid(db: Store.Db, ops: nat -> seq<Store.Op>, k: nat)
    requires StoreInvariant.Valid(db)
    ensures StoreInvariant.Valid(TableAt(db, ops, k))
  {
    if k > 0 {
      TablesStayValid(db, ops, k - 1);
      StoreRuns.RunKeepsValid(TableAt(db, ops, k - 1), ops(k - 1));
    }
  }

  lemma RunKeepsStamp(db: Store.Db, ops: seq<Store.Op>, id: string)
    requires StoreInvariant.Valid(db) && id in db.orders
    ensures id in Store.Run(db, ops).orders && Store.Run(db, ops).orders[id].createdAt == db.orders[id].createdAt
  {
    StoreRuns.RunKeepsIdentity(db, ops);
  }

  lemma {:induction false} TablesKeepStamps(db: Store.Db, ops: nat -> seq<Store.Op>, j: nat, k: nat, id: string)
    requires StoreInvariant.Valid(db) && j <= k && id in TableAt(db, ops, j).orders
    ensures id in TableAt(db, ops, k).orders
    ensures TableAt(db, ops, k).orders[id].createdAt == TableAt(db, ops, j).orders[id].createdAt
    decreases k
  {
    if j < k {
      TablesKeepStamps(db, ops, j, k - 1, id);
      TablesStayValid(db, ops, k - 1);
      RunKeepsStamp(TableAt(db, ops, k - 1), ops(k - 1), id);
    }
  }

  ghost function FirstSeen(db: Store.Db, ops: nat -> seq<Store.Op>, id: string): Instant {
    if exists k: nat :: id in TableAt(db, ops, k).orders then
      var k: nat :| id in TableAt(db, ops, k).orders;
      TableAt(db, ops, k).orders[id].createdAt
    else UNSET
  }

  /** Whatever the store does between pages, creation times do not change. */
  lemma StoreTablesAreKeyed(db: Store.Db, ops: nat -> seq<Store.Op>, tables: nat -> Table, at: string -> Instant)
    requires StoreInvariant.Valid(db) && (forall k :: tables(k) == TableAt(db, ops, k).orders)
    requires forall id :: at(id) == FirstSeen(db, ops, id)
    ensures Keyed(tables, at)
  {
    forall k: nat, id | id in tables(k) ensures tables(k)[id].createdAt == at(id) {
      FirstSeenIsFixed(db, ops, k, id);
    }
  }

  lemma FirstSeenIsFixed(db: Store.Db, ops: nat -> seq<Store.Op>, k: nat, id: string)
    requires StoreInvariant.Valid(db) && id in TableAt(db, ops, k).orders
    ensures TableAt(db, ops, k).orders[id].createdAt == FirstSeen(db, ops, id)
  {
    var j: nat :| id in TableAt(db, ops, j).orders &&
        FirstSeen(db, ops, id) == TableAt(db, ops, j).orders[id].createdAt;
    if j <= k {
      TablesKeepStamps(db, ops, j, k, id);
    } else {
      TablesKeepStamps(db, ops, k, j, id);
    }
  }

  /**
   Whatever the store does between pages, the command prints no order twice, none out of place,
   and every order that matches whenever a page is read, up to the limit.
   */
  lemma StorePagesAreComplete(db: Store.Db, ops: nat -> seq<Store.Op>, f: Filter, limit: nat, id: string)
    requires StoreInvariant.Valid(db)
    requires var tables := (k: nat) => TableAt(db, ops, k).orders;
             forall k :: 0 <= k < PageCount(Reading(tables, f), 0, None, limit) ==> MatchesAt(tables, f, k, id)
    ensures var tables, at := (k: nat) => TableAt(db, ops, k).orders, (x: string) => FirstSeen(db, ops, x);
            var out := Pages(Reading(tables, f), 0, None, limit);
            Descends(at, out) && (id in out || (|out| == limit && After(at, out, id)))
  {
    var tables, at := (k: nat) => TableAt(db, ops, k).orders, (x: string) => FirstSeen(db, ops, x);
    StoreTablesAreKeyed(db, ops, tables, at);
    NothingIsRepeated(tables, at, f, limit);
    NothingIsSkipped(tables, at, f, limit, id);
  }
}
