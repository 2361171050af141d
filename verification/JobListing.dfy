/**
 * Keyset pagination over one tenant's jobs. `created_at` is stored in
 * microseconds; a cursor carries it in milliseconds. The base64url codec, the
 * date format and the UUID text form enter through their laws.
 */
module JobListing {
  import opened Common
  import opened JobTable

  const MIN_JOB_LIST_LIMIT := 1
  const MAX_JOB_LIST_LIMIT := 100
  const DEFAULT_JOB_LIST_LIMIT := 50

  /** The range of a JavaScript date. */
  type Milliseconds = ms: int | -8_640_000_000_000_000 <= ms <= 8_640_000_000_000_000

  type Microseconds = us: int | -8_640_000_000_000_000_000 <= us <= 8_640_000_000_000_000_000

  datatype Job = Job(tenant: TenantId, status: Status, createdAt: Microseconds)

  type Table = map<JobId, Job>

  // ---------------------------------------------------------------- the cursor

  datatype Codec = Codec(
    iso: Milliseconds -> string,
    parseDate: string -> Option<Milliseconds>,
    uuid: JobId -> string,
    parseUuid: string -> Option<JobId>,
    base64url: string -> string,
    fromBase64url: string -> string)

  predicate UuidChar(c: char) {
    '0' <= c <= '9' || 'a' <= c <= 'f' || 'A' <= c <= 'F' || c == '-'
  }

  predicate UuidText(t: string) {
    |t| == 36 && forall i :: 0 <= i < |t| ==> UuidChar(t[i])
  }

  ghost predicate Lawful(c: Codec) {
    && (forall ms: Milliseconds {:trigger c.iso(ms)} :: c.iso(ms) != "" && '|' !in c.iso(ms) && c.parseDate(c.iso(ms)) == Some(ms))
    && (forall id: JobId {:trigger c.uuid(id)} :: UuidText(c.uuid(id)) && c.parseUuid(c.uuid(id)) == Some(id))
    && (forall t {:trigger c.base64url(t)} :: c.fromBase64url(c.base64url(t)) == t)
  }

  /** A position in the listing order. */
  datatype Key = Key(at: Microseconds, id: JobId)

  predicate Precedes(a: Key, b: Key) {
    a.at < b.at || (a.at == b.at && a.id < b.id)
  }

  function EncodeJobCursor(c: Codec, ms: Milliseconds, id: JobId): string {
    c.base64url(c.iso(ms) + "|" + c.uuid(id))
  }

  function IndexOf(t: string, sep: char): int {
    if t == "" then -1
    else if t[0] == sep then 0
    else if IndexOf(t[1..], sep) < 0 then -1 else 1 + IndexOf(t[1..], sep)
  }

  lemma {:induction false} IndexOfRange(t: string, sep: char)
    ensures -1 <= IndexOf(t, sep) < |t|
  {
    if t != "" { IndexOfRange(t[1..], sep); }
  }

  lemma {:induction false} IndexOfFirst(a: string, sep: char, b: string)
    requires sep !in a
    ensures IndexOf(a + [sep] + b, sep) == |a|
  {
    if a == "" {
      assert a + [sep] + b == [sep] + b;
    } else {
      IndexOfFirst(a[1..], sep, b);
      assert (a + [sep] + b)[1..] == a[1..] + [sep] + b;
    }
  }

  datatype ListError = InvalidLimit | InvalidStatus | InvalidCursor

  /** The decoded position, in microseconds as the comparison uses it. */
  function DecodeJobCursor(c: Codec, cursor: string): Result<Key, ListError> {
    var decoded := c.fromBase64url(cursor);
    var separator := IndexOf(decoded, '|');
    IndexOfRange(decoded, '|');
    if separator <= 0 then Err(InvalidCursor)
    else
      var id := decoded[separator + 1..];
      var date := c.parseDate(decoded[..separator]);
      if date == None || !UuidText(id) || c.parseUuid(id) == None then Err(InvalidCursor)
      else Ok(Key(date.value * 1000, c.parseUuid(id).value))
  }

  /** What a cursor says of a position: the position itself, cut to the millisecond. */
  function CutToMillisecond(k: Key): Key {
    Key(k.at / 1000 * 1000, k.id)
  }

  function CursorAt(c: Codec, k: Key): string {
    EncodeJobCursor(c, k.at / 1000, k.id)
  }

  /** Encoding and decoding a position cuts it to the millisecond and loses nothing else. */
  lemma CursorRoundTrip(c: Codec, k: Key)
    requires Lawful(c)
    ensures DecodeJobCursor(c, CursorAt(c, k)) == Ok(CutToMillisecond(k))
  {
    var date, id := c.iso(k.at / 1000), c.uuid(k.id);
    var text := date + "|" + id;
    IndexOfFirst(date, '|', id);
    assert text[..|date|] == date && text[|date| + 1..] == id;
    assert c.base64url(text) == CursorAt(c, k);
  }

  // ----------------------------------------------------------------- the query

  datatype LimitInput = NoLimit | Integer(value: int) | NotAnInteger

  function ResolveJobListLimit(limit: LimitInput): Result<nat, ListError> {
    match limit
    case NoLimit => Ok(DEFAULT_JOB_LIST_LIMIT)
    case Integer(n) => if MIN_JOB_LIST_LIMIT <= n <= MAX_JOB_LIST_LIMIT then Ok(n) else Err(InvalidLimit)
    case NotAnInteger => Err(InvalidLimit)
  }

  function ResolveJobListStatus(status: Option<string>): Result<Option<Status>, ListError> {
    match status
    case None => Ok(None)
    case Some(s) =>
      if s == "pending" then Ok(Some(Pending))
      else if s == "running" then Ok(Some(Running))
      else if s == "succeeded" then Ok(Some(Succeeded))
      else if s == "failed" then Ok(Some(Failed))
      else Err(InvalidStatus)
  }

  datatype Query = Query(tenant: TenantId, status: Option<Status>)

  predicate Matches(j: Job, q: Query) {
    j.tenant == q.tenant && (q.status.Some? ==> j.status == q.status.value)
  }

  function KeyOf(t: Table, id: JobId): Key
    requires id in t
  {
    Key(t[id].createdAt, id)
  }

  /** The matching rows after a position, or all of them. */
  function After(t: Table, q: Query, from: Option<Key>): (r: set<JobId>)
    ensures r <= t.Keys
  {
    set id | id in t && Matches(t[id], q) && (from.Some? ==> Precedes(from.value, KeyOf(t, id)))
  }

  predicate Ordered(t: Table, ids: seq<JobId>) {
    && (forall i :: 0 <= i < |ids| ==> ids[i] in t)
    && (forall i, k :: 0 <= i < k < |ids| ==> Precedes(KeyOf(t, ids[i]), KeyOf(t, ids[k])))
  }

  /** `order by created_at, id`. */
  ghost function Sort(t: Table, ids: set<JobId>): (r: seq<JobId>)
    requires ids <= t.Keys
    ensures Ordered(t, r) && |r| == |ids| && forall id :: id in r <==> id in ids
    decreases |ids|
  {
    if ids == {} then []
    else
      var first := Earliest(t, ids);
      var rest := Sort(t, ids - {first});
      EarliestFirst(t, ids, first, rest);
      [first] + rest
  }

  lemma EarliestFirst(t: Table, ids: set<JobId>, first: JobId, rest: seq<JobId>)
    requires ids <= t.Keys && first in ids
    requires forall id :: id in ids && id != first ==> Precedes(KeyOf(t, first), KeyOf(t, id))
    requires Ordered(t, rest) && |rest| == |ids - {first}| && forall id :: id in rest <==> id in ids - {first}
    ensures Ordered(t, [first] + rest) && |[first] + rest| == |ids|
    ensures forall id :: id in [first] + rest <==> id in ids
  {
    assert forall i :: 0 <= i < |rest| ==> rest[i] in ids - {first};
  }

  ghost function Earliest(t: Table, ids: set<JobId>): (first: JobId)
    requires ids != {} && ids <= t.Keys
    ensures first in ids && forall id :: id in ids && id != first ==> Precedes(KeyOf(t, first), KeyOf(t, id))
    decreases |ids|
  {
    var id :| id in ids;
    var rest := ids - {id};
    assert forall x :: x in ids ==> x == id || x in rest;
    if rest == {} then id
    else
      var other := Earliest(t, rest);
      if Precedes(KeyOf(t, id), KeyOf(t, other)) then id else other
  }

  datatype Page = Page(jobs: seq<JobId>, nextCursor: Option<string>)

  /** One request, its inputs validated: the first `limit` rows, and a cursor when there are more. */
  ghost function PageOf(c: Codec, t: Table, q: Query, limit: nat, from: Option<Key>): (p: Page)
    requires limit >= 1
    ensures forall i :: 0 <= i < |p.jobs| ==> p.jobs[i] in t
  {
    var rows := Sort(t, After(t, q, from));
    if |rows| <= limit then Page(rows, None)
    else Page(rows[..limit], Some(CursorAt(c, KeyOf(t, rows[limit - 1]))))
  }

  datatype Request = Request(tenant: TenantId, limit: LimitInput, status: Option<string>, cursor: Option<string>)

  ghost function ListJobs(c: Codec, t: Table, r: Request): Result<Page, ListError> {
    match ResolveJobListLimit(r.limit)
    case Err(e) => Err(e)
    case Ok(limit) =>
      match ResolveJobListStatus(r.status)
      case Err(e) => Err(e)
      case Ok(status) =>
        if r.cursor == None then Ok(PageOf(c, t, Query(r.tenant, status), limit, None))
        else
          match DecodeJobCursor(c, r.cursor.value)
          case Err(e) => Err(e)
          case Ok(from) => Ok(PageOf(c, t, Query(r.tenant, status), limit, Some(from)))
  }

  // --------------------------------------------------------- following cursors

  predicate Aligned(t: Table) {
    forall id :: id in t ==> t[id].createdAt % 1000 == 0
  }

  /** Later tables only gain rows; what a row was created as does not change, its status may. */
  predicate Grows(t: Table, t': Table) {
    forall id :: id in t ==> id in t' && t'[id].tenant == t[id].tenant && t'[id].createdAt == t[id].createdAt
  }

  function Resume(c: Codec, cursor: string): Option<Key> {
    match DecodeJobCursor(c, cursor)
    case Ok(k) => Some(k)
    case Err(_) => None
  }

  /** The pages a client gets that follows cursors, request i answered from table i. */
  ghost function Follow(c: Codec, tables: seq<Table>, q: Query, limit: nat, from: Option<Key>): seq<Page>
    requires limit >= 1
    decreases |tables|
  {
    if tables == [] then []
    else
      var page := PageOf(c, tables[0], q, limit, from);
      if page.nextCursor == None then [page]
      else [page] + Follow(c, tables[1..], q, limit, Resume(c, page.nextCursor.value))
  }

  function Listed(pages: seq<Page>): seq<JobId> {
    if pages == [] then [] else pages[0].jobs + Listed(pages[1..])
  }

  /** The client reached the end. */
  predicate Complete(pages: seq<Page>) {
    pages != [] && pages[|pages| - 1].nextCursor == None
  }

  ghost predicate Evolving(tables: seq<Table>) {
    forall i, k :: 0 <= i <= k < |tables| ==> Grows(tables[i], tables[k])
  }

  // ----------------------------------------------------------------- theorems

  lemma {:induction false} OrderedUnique(t: Table, a: seq<JobId>, b: seq<JobId>)
    requires Ordered(t, a) && Ordered(t, b) && forall id :: id in a <==> id in b
    ensures a == b
  {
    if a == [] {
      NonemptyInto(b, a);
    } else {
      assert a[0] in a && a[0] in b;
      assert b[0] in b && b[0] in a;
      assert a[0] == b[0];
      RestOfOrdered(t, a);
      RestOfOrdered(t, b);
      OrderedUnique(t, a[1..], b[1..]);
      assert a == [a[0]] + a[1..] && b == [b[0]] + b[1..];
    }
  }

  lemma RestOfOrdered(t: Table, a: seq<JobId>)
    requires Ordered(t, a) && a != []
    ensures Ordered(t, a[1..]) && forall id :: id in a[1..] <==> id in a && id != a[0]
  {
    forall id | id in a && id != a[0] ensures id in a[1..] {
      var i :| 0 <= i < |a| && a[i] == id;
      assert a[1..][i - 1] == id;
    }
  }

  /** What a page is made of: rows after the position, in order, and none skipped before its last. */
  lemma PageFacts(c: Codec, t: Table, q: Query, limit: nat, from: Option<Key>)
    requires limit >= 1
    ensures var p := PageOf(c, t, q, limit, from);
      && Ordered(t, p.jobs) && |p.jobs| <= limit
      && (forall id :: id in p.jobs ==> id in After(t, q, from))
      && (p.nextCursor == None ==> forall id :: id in After(t, q, from) ==> id in p.jobs)
      && (p.nextCursor.Some? ==>
            && |p.jobs| == limit
            && p.nextCursor == Some(CursorAt(c, KeyOf(t, p.jobs[limit - 1])))
            && (forall id :: id in After(t, q, from) ==>
                  id in p.jobs || Precedes(KeyOf(t, p.jobs[limit - 1]), KeyOf(t, id))))
  {
    var rows := Sort(t, After(t, q, from));
    if |rows| > limit {
      forall id | id in After(t, q, from) ensures id in rows[..limit] || Precedes(KeyOf(t, rows[limit - 1]), KeyOf(t, id)) {
        var i :| 0 <= i < |rows| && rows[i] == id;
        if i < limit { assert rows[..limit][i] == id; }
      }
    }
  }

  lemma PrecedesTransitive(a: Key, b: Key, d: Key)
    requires Precedes(a, b) && Precedes(b, d)
    ensures Precedes(a, d)
  {
  }

  lemma JoinOrdered(t: Table, a: seq<JobId>, b: seq<JobId>)
    requires Ordered(t, a) && Ordered(t, b) && a != []
    requires forall id :: id in b ==> Precedes(KeyOf(t, a[|a| - 1]), KeyOf(t, id))
    ensures Ordered(t, a + b)
  {
    var ab := a + b;
    forall i, k | 0 <= i < k < |ab| ensures Precedes(KeyOf(t, ab[i]), KeyOf(t, ab[k])) {
      if i < |a| <= k {
        var last := KeyOf(t, a[|a| - 1]);
        assert ab[k] == b[k - |a|] && ab[k] in b;
        if i < |a| - 1 { PrecedesTransitive(KeyOf(t, a[i]), last, KeyOf(t, ab[k])); }
      }
    }
  }

  lemma Later(t: Table, t': Table, ids: seq<JobId>)
    requires Grows(t, t') && Ordered(t, ids)
    ensures Ordered(t', ids)
  {
  }

  /** One request of a client that follows cursors. */
  lemma FollowStep(c: Codec, tables: seq<Table>, q: Query, limit: nat, from: Option<Key>)
    requires limit >= 1 && Lawful(c) && tables != []
    ensures var page := PageOf(c, tables[0], q, limit, from);
            var pages := Follow(c, tables, q, limit, from);
      && (page.nextCursor == None ==> pages == [page] && Listed(pages) == page.jobs && Complete(pages))
      && (page.nextCursor.Some? ==>
            && |page.jobs| == limit
            && var k := KeyOf(tables[0], page.jobs[limit - 1]);
               var more := Follow(c, tables[1..], q, limit, Some(CutToMillisecond(k)));
               pages == [page] + more && Listed(pages) == page.jobs + Listed(more)
               && (Complete(pages) <==> Complete(more)))
  {
    var page := PageOf(c, tables[0], q, limit, from);
    PageFacts(c, tables[0], q, limit, from);
    hide PageOf, CursorAt, DecodeJobCursor, CutToMillisecond;
    if page.nextCursor.Some? {
      var k := KeyOf(tables[0], page.jobs[limit - 1]);
      CursorRoundTrip(c, k);
      var more := Follow(c, tables[1..], q, limit, Some(CutToMillisecond(k)));
      assert ([page] + more)[1..] == more;
      assert more != [] ==> ([page] + more)[|more|] == more[|more| - 1];
    } else {
      assert [page][1..] == [];
    }
  }

  lemma RestEvolving(tables: seq<Table>)
    requires Evolving(tables) && tables != []
    ensures Evolving(tables[1..])
    ensures forall i :: 0 <= i < |tables| ==> Grows(tables[0], tables[i])
  {
    var rest := tables[1..];
    forall i, j | 0 <= i <= j < |rest| ensures Grows(rest[i], rest[j]) {
      assert Grows(tables[i + 1], tables[j + 1]);
    }
  }

  /** Rows of the tenant in order, all after a position. */
  predicate ListedAfter(t: Table, tenant: TenantId, from: Option<Key>, ids: seq<JobId>) {
    Ordered(t, ids) && forall id :: id in ids ==> t[id].tenant == tenant && (from.Some? ==> Precedes(from.value, KeyOf(t, id)))
  }

  lemma JoinListed(t: Table, tenant: TenantId, from: Option<Key>, a: seq<JobId>, b: seq<JobId>)
    requires ListedAfter(t, tenant, from, a) && a != []
    requires ListedAfter(t, tenant, Some(KeyOf(t, a[|a| - 1])), b)
    ensures ListedAfter(t, tenant, from, a + b)
  {
    JoinOrdered(t, a, b);
    var last := a[|a| - 1];
    assert last in a;
    forall id | id in b && from.Some? ensures Precedes(from.value, KeyOf(t, id)) {
      PrecedesTransitive(from.value, KeyOf(t, last), KeyOf(t, id));
    }
  }

  lemma PageListed(c: Codec, t: Table, t': Table, q: Query, limit: nat, from: Option<Key>)
    requires limit >= 1 && Grows(t, t')
    ensures ListedAfter(t', q.tenant, from, PageOf(c, t, q, limit, from).jobs)
  {
    PageFacts(c, t, q, limit, from);
    var ids := PageOf(c, t, q, limit, from).jobs;
    Later(t, t', ids);
    forall id | id in ids ensures t'[id].tenant == q.tenant && (from.Some? ==> Precedes(from.value, KeyOf(t', id))) {
      assert id in After(t, q, from);
    }
  }

  /** A cursor the API handed out is always accepted, and resumes at the cut position of the last row it listed. */
  lemma CursorAccepted(c: Codec, t: Table, t': Table, r: Request)
    requires Lawful(c) && ListJobs(c, t, r).Ok? && ListJobs(c, t, r).value.nextCursor.Some?
    ensures var page := ListJobs(c, t, r).value;
            var limit := ResolveJobListLimit(r.limit).value;
      && |page.jobs| == limit
      && ListJobs(c, t', r.(cursor := page.nextCursor))
         == Ok(PageOf(c, t', Query(r.tenant, ResolveJobListStatus(r.status).value), limit,
                      Some(CutToMillisecond(KeyOf(t, page.jobs[limit - 1])))))
  {
    hide DecodeJobCursor, CursorAt, PageOf, Lawful, CutToMillisecond, After, Ordered;
    var q := Query(r.tenant, ResolveJobListStatus(r.status).value);
    var limit := ResolveJobListLimit(r.limit).value;
    var from := if r.cursor == None then None else Some(DecodeJobCursor(c, r.cursor.value).value);
    PageFacts(c, t, q, limit, from);
    CursorRoundTrip(c, KeyOf(t, PageOf(c, t, q, limit, from).jobs[limit - 1]));
  }

  /** The page's last row was created on a whole millisecond. */
  predicate EndsWhole(t: Table, page: Page) {
    page.jobs != [] && page.jobs[|page.jobs| - 1] in t && t[page.jobs[|page.jobs| - 1]].createdAt % 1000 == 0
  }

  /** So do all pages that another one follows. */
  predicate AllEndWhole(t: Table, pages: seq<Page>) {
    forall i :: 0 <= i < |pages| - 1 ==> EndsWhole(t, pages[i])
  }

  lemma RestEndWhole(t: Table, page: Page, more: seq<Page>)
    ensures AllEndWhole(t, [page] + more) <==> (more != [] ==> EndsWhole(t, page)) && AllEndWhole(t, more)
  {
    var pages := [page] + more;
    assert forall i :: 0 <= i < |more| ==> pages[i + 1] == more[i];
    if AllEndWhole(t, pages) {
      assert more != [] ==> EndsWhole(t, pages[0]);
      forall i | 0 <= i < |more| - 1 ensures EndsWhole(t, more[i]) { assert EndsWhole(t, pages[i + 1]); }
    }
  }

  /**
   * If every page but the last ends on a whole millisecond, then whatever is inserted
   * or changes status between pages, no row is listed twice and the rows come in order.
   */
  lemma {:induction false} FollowOrdered(c: Codec, tables: seq<Table>, q: Query, limit: nat, from: Option<Key>)
    requires limit >= 1 && Lawful(c) && tables != [] && Evolving(tables)
    requires AllEndWhole(tables[|tables| - 1], Follow(c, tables, q, limit, from))
    ensures ListedAfter(tables[|tables| - 1], q.tenant, from, Listed(Follow(c, tables, q, limit, from)))
    decreases |tables|
  {
    hide PageOf, Follow, Evolving, Lawful, ListedAfter, After, Listed;
    var page := PageOf(c, tables[0], q, limit, from);
    var last := tables[|tables| - 1];
    RestEvolving(tables);
    PageListed(c, tables[0], last, q, limit, from);
    FollowStep(c, tables, q, limit, from);
    if page.nextCursor.Some? {
      var k := KeyOf(tables[0], page.jobs[limit - 1]);
      var rest := tables[1..];
      RestEndWhole(last, page, Follow(c, rest, q, limit, Some(CutToMillisecond(k))));
      if rest == [] {
        EmptyFollow(c, q, limit, Some(CutToMillisecond(k)));
        assert page.jobs + [] == page.jobs;
      } else {
        assert rest[|rest| - 1] == last;
        FollowStep(c, rest, q, limit, Some(CutToMillisecond(k)));
        assert k == KeyOf(last, page.jobs[limit - 1]) && CutToMillisecond(k) == k;
        FollowOrdered(c, rest, q, limit, Some(k));
        JoinListed(last, q.tenant, from, page.jobs, Listed(Follow(c, rest, q, limit, Some(k))));
      }
    }
  }

  lemma EmptyFollow(c: Codec, q: Query, limit: nat, from: Option<Key>)
    requires limit >= 1
    ensures Listed(Follow(c, [], q, limit, from)) == [] && !Complete(Follow(c, [], q, limit, from))
  {
  }

  /** With whole-millisecond creation times every page ends on one. */
  lemma {:induction false} AlignedEndWhole(c: Codec, tables: seq<Table>, q: Query, limit: nat, from: Option<Key>)
    requires limit >= 1 && Lawful(c) && tables != [] && Evolving(tables) && Aligned(tables[|tables| - 1])
    ensures AllEndWhole(tables[|tables| - 1], Follow(c, tables, q, limit, from))
    decreases |tables|
  {
    hide PageOf, Follow, Evolving, Lawful, After, Listed;
    var page, last := PageOf(c, tables[0], q, limit, from), tables[|tables| - 1];
    FollowStep(c, tables, q, limit, from);
    if page.nextCursor.Some? {
      var next := Some(CutToMillisecond(KeyOf(tables[0], page.jobs[limit - 1])));
      var rest := tables[1..];
      RestEvolving(tables);
      RestEndWhole(last, page, Follow(c, rest, q, limit, next));
      if rest == [] {
        NoRequests(c, q, limit, next);
      } else {
        assert rest[|rest| - 1] == last;
        AlignedEndWhole(c, rest, q, limit, next);
      }
    }
  }

  lemma NoRequests(c: Codec, q: Query, limit: nat, from: Option<Key>)
    requires limit >= 1
    ensures Follow(c, [], q, limit, from) == []
  {
  }

  /** A row the whole listing could see: present from the start and matching whenever a page is made. */
  predicate AlwaysMatches(tables: seq<Table>, q: Query, id: JobId) {
    forall i :: 0 <= i < |tables| ==> id in tables[i] && Matches(tables[i][id], q)
  }

  /** Following cursors to the end lists every such row: a cut cursor only goes back. */
  lemma {:induction false} FollowCovers(c: Codec, tables: seq<Table>, q: Query, limit: nat, from: Option<Key>, id: JobId)
    requires limit >= 1 && Lawful(c) && tables != [] && Evolving(tables)
    requires Complete(Follow(c, tables, q, limit, from)) && AlwaysMatches(tables, q, id)
    requires from.Some? ==> Precedes(from.value, KeyOf(tables[0], id))
    ensures id in Listed(Follow(c, tables, q, limit, from))
    decreases |tables|
  {
    hide PageOf, Follow, Evolving, Lawful, Listed, Complete, Ordered;
    var page := PageOf(c, tables[0], q, limit, from);
    PageFacts(c, tables[0], q, limit, from);
    assert id in After(tables[0], q, from);
    FollowStep(c, tables, q, limit, from);
    hide After;
    if page.nextCursor.Some? && id !in page.jobs {
      var k := KeyOf(tables[0], page.jobs[limit - 1]);
      var next := Some(CutToMillisecond(k));
      RestEvolving(tables);
      EmptyFollow(c, q, limit, next);
      assert tables[1..] != [] && Grows(tables[0], tables[1]);
      FollowCovers(c, tables[1..], q, limit, next, id);
    }
  }

  /** Whatever is listed belongs to the tenant. */
  lemma {:induction false} FollowStaysInTenant(c: Codec, tables: seq<Table>, q: Query, limit: nat, from: Option<Key>)
    requires limit >= 1 && Lawful(c) && tables != [] && Evolving(tables)
    ensures forall id :: id in Listed(Follow(c, tables, q, limit, from)) ==>
              id in tables[|tables| - 1] && tables[|tables| - 1][id].tenant == q.tenant
    decreases |tables|
  {
    hide PageOf, Follow, Evolving, Lawful, Listed;
    var page := PageOf(c, tables[0], q, limit, from);
    RestEvolving(tables);
    PageFacts(c, tables[0], q, limit, from);
    FollowStep(c, tables, q, limit, from);
    assert forall id :: id in page.jobs ==> id in tables[0] && tables[0][id].tenant == q.tenant;
    hide After;
    if page.nextCursor.Some? {
      var next := Some(CutToMillisecond(KeyOf(tables[0], page.jobs[limit - 1])));
      if tables[1..] == [] {
        EmptyFollow(c, q, limit, next);
      } else {
        FollowStaysInTenant(c, tables[1..], q, limit, next);
      }
    }
  }

  /**
   * Pagination: over tables that only gain rows, with no status filter, a client
   * that follows cursors to the end has listed every job present at the start,
   * whatever the creation times; and if every page but the last ends on a whole
   * millisecond, each exactly once, in (created_at, id) order.
   */
  lemma ListingIsComplete(c: Codec, tables: seq<Table>, tenant: TenantId, limit: nat)
    requires limit >= 1 && Lawful(c) && tables != [] && Evolving(tables)
    requires Complete(Follow(c, tables, Query(tenant, None), limit, None))
    ensures var pages := Follow(c, tables, Query(tenant, None), limit, None);
      && (forall id :: id in tables[0] && tables[0][id].tenant == tenant ==> id in Listed(pages))
      && (forall id :: id in Listed(pages) ==>
            id in tables[|tables| - 1] && tables[|tables| - 1][id].tenant == tenant)
      && (AllEndWhole(tables[|tables| - 1], pages) ==> Ordered(tables[|tables| - 1], Listed(pages)))
  {
    hide Follow, Lawful, Listed, Complete, AllEndWhole, Ordered;
    var q := Query(tenant, None);
    var pages := Follow(c, tables, q, limit, None);
    FollowStaysInTenant(c, tables, q, limit, None);
    if AllEndWhole(tables[|tables| - 1], pages) { FollowOrdered(c, tables, q, limit, None); }
    RestEvolving(tables);
    forall id | id in tables[0] && tables[0][id].tenant == tenant ensures id in Listed(pages) {
      FollowCovers(c, tables, q, limit, None, id);
    }
  }

  /** The same table answering n requests. */
  function Still(t: Table, n: nat): (tables: seq<Table>)
    ensures |tables| == n && (n > 0 ==> tables[0] == t && tables[1..] == Still(t, n - 1))
  {
    seq(n, i => t)
  }

  /** On a table at rest the listing is the sorted set of matching rows, with a status filter or without. */
  lemma ListingAtRest(c: Codec, t: Table, n: nat, q: Query, limit: nat)
    requires limit >= 1 && Lawful(c) && n >= 1
    requires Complete(Follow(c, Still(t, n), q, limit, None)) && AllEndWhole(t, Follow(c, Still(t, n), q, limit, None))
    ensures Listed(Follow(c, Still(t, n), q, limit, None)) == Sort(t, After(t, q, None))
  {
    hide PageOf, Follow, Lawful, Listed, Complete;
    var tables := Still(t, n);
    var ids := Listed(Follow(c, tables, q, limit, None));
    FollowOrdered(c, tables, q, limit, None);
    forall id | id in After(t, q, None) ensures id in ids { FollowCovers(c, tables, q, limit, None, id); }
    OnlyMatching(c, t, n, q, limit, None);
    OrderedUnique(t, ids, Sort(t, After(t, q, None)));
  }

  lemma {:induction false} OnlyMatching(c: Codec, t: Table, n: nat, q: Query, limit: nat, from: Option<Key>)
    requires limit >= 1 && Lawful(c)
    ensures forall id :: id in Listed(Follow(c, Still(t, n), q, limit, from)) ==> id in After(t, q, None)
  {
    if n > 0 {
      var page := PageOf(c, t, q, limit, from);
      PageFacts(c, t, q, limit, from);
      FollowStep(c, Still(t, n), q, limit, from);
      hide PageOf, Follow, Lawful;
      if page.nextCursor.Some? {
        OnlyMatching(c, t, n - 1, q, limit, Some(CutToMillisecond(KeyOf(t, page.jobs[limit - 1]))));
      }
    }
  }

  /** With whole milliseconds the end is reached: one request per remaining row, and one more, is enough. */
  lemma {:induction false} ListingEnds(c: Codec, t: Table, n: nat, q: Query, limit: nat, from: Option<Key>)
    requires limit >= 1 && Lawful(c) && Aligned(t) && |After(t, q, from)| < n
    ensures Complete(Follow(c, Still(t, n), q, limit, from))
    decreases n
  {
    hide PageOf, Follow, Lawful, Complete, Ordered;
    var page := PageOf(c, t, q, limit, from);
    PageFacts(c, t, q, limit, from);
    FollowStep(c, Still(t, n), q, limit, from);
    if page.nextCursor.Some? {
      var last := page.jobs[limit - 1];
      var k := KeyOf(t, last);
      assert CutToMillisecond(k) == k && last in page.jobs;
      forall id | id in After(t, q, Some(k)) ensures id in After(t, q, from) - {last} {
        if from.Some? { PrecedesTransitive(from.value, k, KeyOf(t, id)); }
      }
      Fewer(After(t, q, Some(k)), After(t, q, from), last);
      ListingEnds(c, t, n - 1, q, limit, Some(k));
    }
  }

  lemma Fewer(a: set<JobId>, b: set<JobId>, x: JobId)
    requires a <= b - {x} && x in b
    ensures |a| < |b|
  {
    assert b == a + (b - a) && x in b - a;
    assert b - a != {};
  }

  /**
   * What the millisecond cut costs: the page after a cursor lies strictly after
   * the page before it if and only if the last row's creation time is a whole
   * number of milliseconds.
   */
  lemma NextPageContinuesExactly(c: Codec, t: Table, q: Query, limit: nat, from: Option<Key>)
    requires limit >= 1 && Lawful(c) && PageOf(c, t, q, limit, from).nextCursor.Some?
    ensures var page := PageOf(c, t, q, limit, from);
      && |page.jobs| == limit
      && var k := KeyOf(t, page.jobs[limit - 1]);
         var next := PageOf(c, t, q, limit, Resume(c, page.nextCursor.value));
         (forall id :: id in next.jobs ==> Precedes(k, KeyOf(t, id))) <==> k.at % 1000 == 0
  {
    var page := PageOf(c, t, q, limit, from);
    PageFacts(c, t, q, limit, from);
    var last := page.jobs[limit - 1];
    var k := KeyOf(t, last);
    CursorRoundTrip(c, k);
    var cut := CutToMillisecond(k);
    PageFacts(c, t, q, limit, Some(cut));
    var next := PageOf(c, t, q, limit, Some(cut));
    assert last in page.jobs;
    hide DecodeJobCursor, CursorAt, Lawful;
    if k.at % 1000 == 0 {
      assert cut == k;
    } else {
      assert last in After(t, q, Some(cut));
      FirstOfPage(c, t, q, limit, Some(cut), last);
    }
  }

  /** A page starts with the first row after its position. */
  lemma FirstOfPage(c: Codec, t: Table, q: Query, limit: nat, from: Option<Key>, id: JobId)
    requires limit >= 1 && id in After(t, q, from)
    ensures var page := PageOf(c, t, q, limit, from);
      && page.jobs != [] && page.jobs[0] in page.jobs && page.jobs[0] == Sort(t, After(t, q, from))[0]
      && !Precedes(KeyOf(t, id), KeyOf(t, page.jobs[0]))
  {
    var rows := Sort(t, After(t, q, from));
    var i :| 0 <= i < |rows| && rows[i] == id;
    assert rows[..if |rows| < limit then |rows| else limit][0] == rows[0];
  }
}
