/** The moderation side of backend/server.js: the bearer-token gate and the
    arithmetic and ordering of `GET /api/admin/contacts`. */
module Admin {
  import opened Wrappers
  import opened ContactModel

  const BearerPrefix := "Bearer "
  const DefaultAdminToken := "admin-token-change-this"
  const MsgTokenRequired := "Token d'authentification requis"
  const MsgTokenInvalid := "Token invalide"
  const MsgServerError := "Erreur serveur"

  /** `process.env.ADMIN_TOKEN || 'admin-token-change-this'`: an unset or empty
      variable falls back to the default. */
  function ConfiguredToken(env: Option<string>): (t: string)
    ensures t != ""
    ensures env.Some? && env.value != "" ==> t == env.value
    ensures env.None? || env.value == "" ==> t == DefaultAdminToken
  {
    if env.Some? && env.value != "" then env.value else DefaultAdminToken
  }

  datatype AuthDecision = Granted | Refused(status: int, error: string)

  /** `adminAuth`: the `Authorization` header, if any, against the configured token. */
  function AdminAuth(header: Option<string>, env: Option<string>): AuthDecision {
    if header.None? || !(BearerPrefix <= header.value) then Refused(401, MsgTokenRequired)
    else if header.value[|BearerPrefix|..] != ConfiguredToken(env) then Refused(403, MsgTokenInvalid)
    else Granted
  }

  /** The gate's three outcomes: the only header that passes is "Bearer " followed
      by the configured token; a missing header or one without the "Bearer "
      prefix is a 401; any other header is a 403. */
  lemma AdminAuthTable(header: Option<string>, env: Option<string>)
    ensures AdminAuth(header, env) == Granted <==> header == Some(BearerPrefix + ConfiguredToken(env))
    ensures AdminAuth(header, env) == Refused(401, MsgTokenRequired) <==>
      header.None? || !(BearerPrefix <= header.value)
    ensures AdminAuth(header, env) == Refused(403, MsgTokenInvalid) <==>
      header.Some? && BearerPrefix <= header.value && header.value != BearerPrefix + ConfiguredToken(env)
  {
    if header.Some? {
      var h := header.value;
      var expected := BearerPrefix + ConfiguredToken(env);
      assert expected[..|BearerPrefix|] == BearerPrefix && expected[|BearerPrefix|..] == ConfiguredToken(env);
      if BearerPrefix <= h {
        assert h == BearerPrefix + h[|BearerPrefix|..];
      }
    }
  }

  // ---------------------------------------------------------------------------
  // Pagination

  /** `parseInt(q) || d`: a `NaN` (here `None`) or a zero falls back to `d`. */
  function OrDefault(parsed: Option<int>, d: int): (n: int)
    requires d != 0
    ensures n != 0
    ensures parsed.Some? && parsed.value != 0 ==> n == parsed.value
    ensures parsed.None? || parsed.value == 0 ==> n == d
  {
    if parsed.None? || parsed.value == 0 then d else parsed.value
  }

  /** `Math.ceil(a / b)` on integers. */
  function CeilDiv(a: int, b: int): (c: int)
    requires b != 0
    ensures b > 0 ==> b * (c - 1) < a <= b * c
    ensures b < 0 ==> b * c <= a < b * (c - 1)
  {
    if b > 0 then
      var q := (a + b - 1) / b;
      var r := (a + b - 1) % b;
      assert a + b - 1 == b * q + r && 0 <= r < b;
      q
    else
      var q := a / -b;
      var r := a % -b;
      assert a == -b * q + r && 0 <= r < -b;
      -q
  }

  function Abs(n: int): nat { if n < 0 then -n else n }

  // ---------------------------------------------------------------------------
  // `.sort({ submittedAt: -1 })`

  predicate NewestFirst(s: seq<Contact>) {
    forall i, j :: 0 <= i < j < |s| ==> s[i].submittedAt >= s[j].submittedAt
  }

  function Insert(c: Contact, s: seq<Contact>): (r: seq<Contact>)
    requires NewestFirst(s)
    ensures NewestFirst(r) && multiset(r) == multiset(s) + multiset{c}
  {
    if s == [] || c.submittedAt >= s[0].submittedAt then [c] + s
    else
      var rest := Insert(c, s[1..]);
      assert s == [s[0]] + s[1..];
      InsertBelow(s[0], c, s[1..], rest);
      [s[0]] + rest
  }

  lemma InsertBelow(top: Contact, c: Contact, s: seq<Contact>, rest: seq<Contact>)
    requires NewestFirst([top] + s) && c.submittedAt < top.submittedAt
    requires multiset(rest) == multiset(s) + multiset{c}
    requires NewestFirst(rest)
    ensures NewestFirst([top] + rest)
  {
    forall j | 0 <= j < |rest| ensures top.submittedAt >= rest[j].submittedAt {
      assert rest[j] in multiset(rest);
      if rest[j] != c {
        assert rest[j] in multiset(s);
        var k :| 0 <= k < |s| && s[k] == rest[j];
        assert ([top] + s)[0] == top && ([top] + s)[k + 1] == s[k];
      }
    }
  }

  /** A newest-first arrangement of `s`; ties keep the order of `s`. */
  function SortNewestFirst(s: seq<Contact>): (r: seq<Contact>)
    ensures NewestFirst(r) && multiset(r) == multiset(s)
  {
    if s == [] then []
    else
      assert s == [s[0]] + s[1..];
      Insert(s[0], SortNewestFirst(s[1..]))
  }

  /** The stored contacts, oldest id first. */
  function InCreationOrder(records: map<Id, Contact>, n: nat): (s: seq<Contact>)
    requires forall i :: 0 <= i < n ==> i in records
    ensures |s| == n && forall i :: 0 <= i < n ==> s[i] == records[i]
  {
    if n == 0 then [] else InCreationOrder(records, n - 1) + [records[n - 1]]
  }

  /** `.skip(skip).limit(limit)` for a non-negative skip; the driver reads a
      negative limit as its absolute value. */
  function Window(s: seq<Contact>, skip: nat, limit: nat): (w: seq<Contact>)
    ensures |w| == if skip >= |s| then 0 else if limit < |s| - skip then limit else |s| - skip
    ensures forall k :: 0 <= k < |w| ==> w[k] == s[skip + k]
  {
    if skip >= |s| then []
    else if limit < |s| - skip then s[skip..skip + limit]
    else s[skip..]
  }

  /** A window of a newest-first sequence is newest first and holds only its elements. */
  lemma WindowOfOrdered(s: seq<Contact>, skip: nat, limit: nat)
    requires NewestFirst(s)
    ensures NewestFirst(Window(s, skip, limit))
    ensures forall c :: c in Window(s, skip, limit) ==> c in s
  {
    var w := Window(s, skip, limit);
    forall i, j | 0 <= i < j < |w| ensures w[i].submittedAt >= w[j].submittedAt {
      assert w[i] == s[skip + i] && w[j] == s[skip + j];
    }
    forall c | c in w ensures c in s {
      var k :| 0 <= k < |w| && w[k] == c;
      assert s[skip + k] == c;
    }
  }

  datatype Pagination = Pagination(page: int, limit: int, total: nat, pages: int)
  datatype Listing = Listing(contacts: seq<Contact>, pagination: Pagination)

  /** The store holds the ids `0 .. n-1`, each record under its own id. */
  ghost predicate Dense(records: map<Id, Contact>, n: nat) {
    && (forall i :: i in records <==> 0 <= i < n)
    && (forall i :: i in records ==> records[i].id == i)
  }

  /** Saving a record under the next id keeps the store dense. */
  lemma DenseExtend(records: map<Id, Contact>, n: nat, c: Contact)
    requires Dense(records, n) && c.id == n
    ensures Dense(records[n := c], n + 1)
  {
  }

  /** Changing a stored record in place, keeping its id, keeps the store dense. */
  lemma DenseReplace(records: map<Id, Contact>, n: nat, id: Id, c: Contact)
    requires Dense(records, n) && id in records && c.id == id
    ensures Dense(records[id := c], n)
  {
  }

  /** The newest-first arrangement of the store holds every record exactly once. */
  lemma OrderedStore(records: map<Id, Contact>, n: nat)
    requires Dense(records, n)
    ensures var ordered := SortNewestFirst(InCreationOrder(records, n));
      && |ordered| == n
      && (forall c :: c in ordered ==> c.id in records && records[c.id] == c)
      && (forall i :: i in records ==> records[i] in ordered)
  {
    var all := InCreationOrder(records, n);
    var ordered := SortNewestFirst(all);
    assert |ordered| == |multiset(ordered)| == |multiset(all)| == n;
    forall c | c in ordered ensures c.id in records && records[c.id] == c {
      assert c in multiset(all);
      var m :| 0 <= m < n && all[m] == c;
    }
    forall i | i in records ensures records[i] in ordered {
      assert all[i] == records[i];
      assert records[i] in multiset(all);
    }
  }

  /** The body of `GET /api/admin/contacts` once the gate has passed. A negative
      skip makes the database refuse the query, as does an unreachable store;
      both end in the catch block's 500. */
  function ListPage(records: map<Id, Contact>, n: nat, pageQ: Option<int>, limitQ: Option<int>, storeUp: bool): Response<Listing>
    requires Dense(records, n)
  {
    var page := OrDefault(pageQ, 1);
    var limit := OrDefault(limitQ, 20);
    var skip := (page - 1) * limit;
    if !storeUp || skip < 0 then Err(500, MsgServerError)
    else
      Ok(Listing(Window(Ordered(records, n), skip, Abs(limit)), Pagination(page, limit, n, CeilDiv(n, limit))))
  }

  /** The stored contacts, newest first. */
  function Ordered(records: map<Id, Contact>, n: nat): seq<Contact>
    requires Dense(records, n)
  {
    SortNewestFirst(InCreationOrder(records, n))
  }

  /** For a positive page and limit the listing succeeds: the window of the
      newest-first order that page `page` covers, and the page count. */
  lemma ListPageShape(records: map<Id, Contact>, n: nat, page: int, limit: int)
    requires Dense(records, n) && page >= 1 && limit >= 1
    ensures (page - 1) * limit >= 0
    ensures ListPage(records, n, Some(page), Some(limit), true)
      == Ok(Listing(Window(Ordered(records, n), (page - 1) * limit, limit), Pagination(page, limit, n, CeilDiv(n, limit))))
  {
    assert OrDefault(Some(page), 1) == page && OrDefault(Some(limit), 20) == limit && Abs(limit) == limit;
  }

  /** A page holds stored contacts only, newest first, as many as the limit allows
      after skipping `(page - 1) * limit`; `pages` is the least number of pages
      of `limit` contacts that hold all `total` of them. */
  lemma ListPageContents(records: map<Id, Contact>, n: nat, page: int, limit: int)
    requires Dense(records, n) && page >= 1 && limit >= 1
    ensures ListPage(records, n, Some(page), Some(limit), true).Ok?
    ensures var l := ListPage(records, n, Some(page), Some(limit), true).body;
      var skip := (page - 1) * limit;
      && l.pagination == Pagination(page, limit, n, l.pagination.pages)
      && NewestFirst(l.contacts)
      && (forall c :: c in l.contacts ==> c.id in records && records[c.id] == c)
      && |l.contacts| == (if skip >= n then 0 else if limit < n - skip then limit else n - skip)
      && limit * (l.pagination.pages - 1) < n <= limit * l.pagination.pages
  {
    ListPageShape(records, n, page, limit);
    var skip := (page - 1) * limit;
    OrderedStore(records, n);
    var ordered := Ordered(records, n);
    WindowOfOrdered(ordered, skip, limit);
  }

  /** Every stored contact is listed on one of the pages `1 .. pages`: the one
      that covers its rank in the newest-first order. */
  lemma PageOf(records: map<Id, Contact>, n: nat, id: Id, limit: int) returns (page: int)
    requires Dense(records, n) && id in records && limit >= 1
    ensures 1 <= page
    ensures ListPage(records, n, Some(page), Some(limit), true).Ok?
    ensures var l := ListPage(records, n, Some(page), Some(limit), true).body;
      page <= l.pagination.pages && records[id] in l.contacts
  {
    var k := RankOf(records, n, id);
    var q := RankOnPage(k, limit, n);
    page := q + 1;
    RankListedOnPage(records, n, limit, k, page);
  }

  /** The position of a stored contact in the newest-first order. */
  lemma RankOf(records: map<Id, Contact>, n: nat, id: Id) returns (k: nat)
    requires Dense(records, n) && id in records
    ensures k < n == |Ordered(records, n)| && Ordered(records, n)[k] == records[id]
  {
    OrderedStore(records, n);
    var ordered := Ordered(records, n);
    assert records[id] in ordered;
    k :| 0 <= k < |ordered| && ordered[k] == records[id];
  }

  lemma RankListedOnPage(records: map<Id, Contact>, n: nat, limit: int, k: nat, page: int)
    requires Dense(records, n) && limit >= 1 && page >= 1
    requires k < |Ordered(records, n)|
    requires (page - 1) * limit <= k < (page - 1) * limit + limit && page <= CeilDiv(n, limit)
    ensures ListPage(records, n, Some(page), Some(limit), true).Ok?
    ensures var l := ListPage(records, n, Some(page), Some(limit), true).body;
      page <= l.pagination.pages && Ordered(records, n)[k] in l.contacts
  {
    ListPageShape(records, n, page, limit);
    InWindow(Ordered(records, n), (page - 1) * limit, limit, k);
  }

  lemma InWindow(s: seq<Contact>, skip: nat, limit: nat, k: nat)
    requires skip <= k < skip + limit && k < |s|
    ensures s[k] in Window(s, skip, limit)
  {
    assert Window(s, skip, limit)[k - skip] == s[k];
  }

  /** Rank `k` of `n` falls on page `k / limit + 1`, which is within the page count. */
  lemma RankOnPage(k: nat, limit: int, n: nat) returns (q: nat)
    requires limit >= 1 && k < n
    ensures (q + 1 - 1) * limit <= k < (q + 1 - 1) * limit + limit
    ensures q + 1 <= CeilDiv(n, limit)
  {
    q := k / limit;
    assert k == q * limit + k % limit;
    var pages := CeilDiv(n, limit);
    assert limit * q < limit * pages;
  }
}
