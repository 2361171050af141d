/** Listing jobs as a client asks for it: what is refused, what a page answers, and what following cursors lists. */
module ListingRequests {
  import opened Common
  import opened JobTable
  import opened JobListing

  function StatusName(s: Status): string {
    match s
    case Pending => "pending"
    case Running => "running"
    case Succeeded => "succeeded"
    case Failed => "failed"
  }

  predicate LimitAccepted(limit: LimitInput) {
    limit.NoLimit? || (limit.Integer? && 1 <= limit.value <= 100)
  }

  function LimitOf(limit: LimitInput): nat
    requires LimitAccepted(limit)
  {
    if limit.NoLimit? then 50 else limit.value
  }

  /** No status, or the name of one. */
  ghost predicate StatusAccepted(status: Option<string>) {
    status.Some? ==> exists s: Status :: StatusName(s) == status.value
  }

  /** The names are different from each other, so a name stands for one status. */
  lemma NamesApart(a: Status, b: Status)
    requires StatusName(a) == StatusName(b)
    ensures a == b
  {
    assert StatusName(a)[0] == StatusName(b)[0] && |StatusName(a)| == |StatusName(b)|;
  }

  lemma StatusExactly(status: Option<string>)
    ensures ResolveJobListStatus(status).Ok? <==> StatusAccepted(status)
    ensures ResolveJobListStatus(status).Ok? ==>
              ResolveJobListStatus(status).value.None? == status.None? &&
              (status.Some? ==> StatusName(ResolveJobListStatus(status).value.value) == status.value)
    ensures ResolveJobListStatus(status).Err? ==> ResolveJobListStatus(status).error == InvalidStatus
  {
    if status.Some? {
      assert StatusName(Pending) == "pending" && StatusName(Running) == "running";
      assert StatusName(Succeeded) == "succeeded" && StatusName(Failed) == "failed";
    }
  }

  // --------------------------------------------------------------------- the cursor

  /** A cursor's text is a date, a bar, and an id; the date comes before the first bar and is not empty. */
  predicate CursorSplits(c: Codec, cursor: string, p: nat) {
    var text := c.fromBase64url(cursor);
    0 < p < |text| && text[p] == '|' && '|' !in text[..p] && c.parseDate(text[..p]).Some? &&
    UuidText(text[p + 1..]) && c.parseUuid(text[p + 1..]).Some?
  }

  lemma {:induction false} IndexOfIs(t: string, sep: char, p: nat)
    requires p < |t| && t[p] == sep && sep !in t[..p]
    ensures IndexOf(t, sep) == p
  {
    if p > 0 {
      assert t[0] in t[..p];
      assert t[..p] == [t[0]] + t[1..][..p - 1];
      IndexOfIs(t[1..], sep, p - 1);
    }
  }

  lemma {:induction false} IndexOfFound(t: string, sep: char)
    ensures var p := IndexOf(t, sep);
            p >= 0 ==> p < |t| && t[p] == sep && sep !in t[..p]
  {
    if t != "" && t[0] != sep {
      IndexOfFound(t[1..], sep);
      var p := IndexOf(t[1..], sep);
      if p >= 0 { assert t[..1 + p] == [t[0]] + t[1..][..p]; }
    }
  }

  /** A cursor is accepted exactly when its text splits so, and stands for that date and id. */
  lemma CursorExactly(c: Codec, cursor: string)
    ensures DecodeJobCursor(c, cursor).Ok? <==> exists p: nat :: CursorSplits(c, cursor, p)
    ensures forall p: nat :: CursorSplits(c, cursor, p) ==>
              var text := c.fromBase64url(cursor);
              DecodeJobCursor(c, cursor) == Ok(Key(c.parseDate(text[..p]).value * 1000, c.parseUuid(text[p + 1..]).value))
    ensures DecodeJobCursor(c, cursor).Err? ==> DecodeJobCursor(c, cursor).error == InvalidCursor
  {
    var text := c.fromBase64url(cursor);
    IndexOfFound(text, '|');
    var at := IndexOf(text, '|');
    if DecodeJobCursor(c, cursor).Ok? { assert CursorSplits(c, cursor, at); }
    forall p: nat | CursorSplits(c, cursor, p) ensures p == at { IndexOfIs(text, '|', p); }
  }

  ghost predicate CursorGood(c: Codec, cursor: Option<string>) {
    cursor.Some? ==> exists p: nat :: CursorSplits(c, cursor.value, p)
  }

  // -------------------------------------------------------------------- one request

  /** A request is refused exactly for its limit, else its status, else its cursor. */
  lemma RefusedExactly(c: Codec, t: Table, r: Request)
    ensures ListJobs(c, t, r).Ok? <==> LimitAccepted(r.limit) && StatusAccepted(r.status) && CursorGood(c, r.cursor)
    ensures ListJobs(c, t, r).Err? ==>
              ListJobs(c, t, r).error == if !LimitAccepted(r.limit) then InvalidLimit
                                         else if !StatusAccepted(r.status) then InvalidStatus
                                         else InvalidCursor
  {
    hide PageOf, DecodeJobCursor, ResolveJobListStatus, StatusAccepted, CursorSplits;
    StatusExactly(r.status);
    if r.cursor.Some? { CursorExactly(c, r.cursor.value); }
  }

  /** The position a request resumes at. */
  function FromOf(c: Codec, r: Request): Option<Key> {
    if r.cursor.None? then None else Resume(c, r.cursor.value)
  }

  /** Created before, or at the same time with the smaller id. */
  predicate CreatedBefore(t: Table, a: JobId, b: JobId)
    requires a in t && b in t
  {
    t[a].createdAt < t[b].createdAt || (t[a].createdAt == t[b].createdAt && a < b)
  }

  /** A row the request asks for: the tenant's, of the status named if one is, after the cursor's position if there is one. */
  predicate Wanted(c: Codec, t: Table, r: Request, id: JobId) {
    id in t && t[id].tenant == r.tenant && (r.status.Some? ==> StatusName(t[id].status) == r.status.value) &&
    (FromOf(c, r).Some? ==> Precedes(FromOf(c, r).value, KeyOf(t, id)))
  }

  lemma WantedIsAfter(c: Codec, t: Table, r: Request, id: JobId)
    requires ResolveJobListStatus(r.status).Ok?
    ensures Wanted(c, t, r, id) <==> id in After(t, Query(r.tenant, ResolveJobListStatus(r.status).value), FromOf(c, r))
  {
    hide ResolveJobListStatus, StatusName, Resume;
    StatusExactly(r.status);
    if r.status.Some? && id in t && StatusName(t[id].status) == StatusName(ResolveJobListStatus(r.status).value.value) {
      NamesApart(t[id].status, ResolveJobListStatus(r.status).value.value);
    }
  }

  lemma ListIsPage(c: Codec, t: Table, r: Request)
    requires ListJobs(c, t, r).Ok?
    ensures LimitAccepted(r.limit) && ResolveJobListStatus(r.status).Ok? && (r.cursor.Some? ==> FromOf(c, r).Some?)
    ensures ListJobs(c, t, r).value
         == PageOf(c, t, Query(r.tenant, ResolveJobListStatus(r.status).value), LimitOf(r.limit), FromOf(c, r))
  {
    hide PageOf, DecodeJobCursor, ResolveJobListStatus;
  }

  /**
   * The answer to an accepted request: rows it asks for, in (created_at, id) order, as many as the limit (50 when
   * none is given) lets; without a cursor for more they are all of them, with one there are more, all after these.
   */
  lemma AnswerExactly(c: Codec, t: Table, r: Request)
    requires ListJobs(c, t, r).Ok?
    ensures LimitAccepted(r.limit)
    ensures var page, limit := ListJobs(c, t, r).value, LimitOf(r.limit);
      && |page.jobs| <= limit
      && (forall id :: id in page.jobs ==> Wanted(c, t, r, id))
      && (forall i, k :: 0 <= i < k < |page.jobs| ==> CreatedBefore(t, page.jobs[i], page.jobs[k]))
      && (page.nextCursor == None ==> forall id :: Wanted(c, t, r, id) ==> id in page.jobs)
      && (page.nextCursor.Some? ==>
            && |page.jobs| == limit
            && (exists id :: Wanted(c, t, r, id) && id !in page.jobs)
            && forall id :: Wanted(c, t, r, id) && id !in page.jobs ==> CreatedBefore(t, page.jobs[limit - 1], id))
  {
    hide ListJobs, PageOf, ResolveJobListStatus, Wanted;
    ListIsPage(c, t, r);
    var q, limit, from := Query(r.tenant, ResolveJobListStatus(r.status).value), LimitOf(r.limit), FromOf(c, r);
    PageFacts(c, t, q, limit, from);
    if PageOf(c, t, q, limit, from).nextCursor.Some? { MoreRows(c, t, q, limit, from); }
    forall id ensures Wanted(c, t, r, id) <==> id in After(t, q, from) { WantedIsAfter(c, t, r, id); }
    hide After;
  }

  lemma MoreRows(c: Codec, t: Table, q: Query, limit: nat, from: Option<Key>)
    requires limit >= 1 && PageOf(c, t, q, limit, from).nextCursor.Some?
    ensures exists id :: id in After(t, q, from) && id !in PageOf(c, t, q, limit, from).jobs
  {
    var rows := Sort(t, After(t, q, from));
    hide After;
    assert rows[limit] in rows;
    forall i | 0 <= i < limit ensures rows[..limit][i] != rows[limit] {
      assert Precedes(KeyOf(t, rows[i]), KeyOf(t, rows[limit]));
    }
  }

  // ------------------------------------------------------------------- following cursors

  /** The pages of a client that repeats its request with each answer's cursor, request i answered from table i. */
  ghost function Requests(c: Codec, tables: seq<Table>, r: Request): seq<Page>
    decreases |tables|
  {
    if tables == [] then []
    else
      match ListJobs(c, tables[0], r)
      case Err(_) => []
      case Ok(page) =>
        if page.nextCursor == None then [page] else [page] + Requests(c, tables[1..], r.(cursor := page.nextCursor))
  }

  /** No request of such a client is refused after the first, and its pages are those of the queries. */
  lemma {:induction false} RequestsFollow(c: Codec, tables: seq<Table>, r: Request)
    requires Lawful(c) && tables != [] && ListJobs(c, tables[0], r).Ok?
    ensures LimitAccepted(r.limit) && ResolveJobListStatus(r.status).Ok?
    ensures Requests(c, tables, r)
         == Follow(c, tables, Query(r.tenant, ResolveJobListStatus(r.status).value), LimitOf(r.limit), FromOf(c, r))
    decreases |tables|
  {
    hide ListJobs, PageOf, ResolveJobListStatus, Lawful, CutToMillisecond, FromOf, DecodeJobCursor;
    ListIsPage(c, tables[0], r);
    var q, limit, from := Query(r.tenant, ResolveJobListStatus(r.status).value), LimitOf(r.limit), FromOf(c, r);
    var page := ListJobs(c, tables[0], r).value;
    if page.nextCursor.Some? {
      var next := r.(cursor := page.nextCursor);
      assert FromOf(c, next) == Resume(c, page.nextCursor.value) by { ResumesAt(c, next); }
      if tables[1..] == [] {
        EmptyRequests(c, next, q, limit, Resume(c, page.nextCursor.value));
      } else {
        CursorAccepted(c, tables[0], tables[1], r);
        RequestsFollow(c, tables[1..], next);
      }
    }
  }

  lemma ResumesAt(c: Codec, r: Request)
    requires r.cursor.Some?
    ensures FromOf(c, r) == Resume(c, r.cursor.value)
  {
  }

  lemma EmptyRequests(c: Codec, r: Request, q: Query, limit: nat, from: Option<Key>)
    requires limit >= 1
    ensures Requests(c, [], r) == Follow(c, [], q, limit, from)
  {
  }

  /** A row the request asks for in every table. */
  predicate AlwaysWanted(tables: seq<Table>, r: Request, id: JobId) {
    forall i :: 0 <= i < |tables| ==>
      id in tables[i] && tables[i][id].tenant == r.tenant &&
      (r.status.Some? ==> StatusName(tables[i][id].status) == r.status.value)
  }

  /**
   * Over tables that only gain rows, following cursors to the end lists every row that belongs to the tenant and
   * carries the requested status throughout, whatever the limit; and it lists rows of the tenant only.
   */
  lemma RequestsCover(c: Codec, tables: seq<Table>, r: Request)
    requires Lawful(c) && tables != [] && Evolving(tables) && r.cursor == None
    requires ListJobs(c, tables[0], r).Ok? && Complete(Requests(c, tables, r))
    ensures forall id :: AlwaysWanted(tables, r, id) ==> id in Listed(Requests(c, tables, r))
    ensures forall id :: id in Listed(Requests(c, tables, r)) ==>
              id in tables[|tables| - 1] && tables[|tables| - 1][id].tenant == r.tenant
  {
    hide ListJobs, PageOf, ResolveJobListStatus, Lawful, Evolving, Complete, Listed, Follow, Requests, StatusName;
    RequestsFollow(c, tables, r);
    var q, limit := Query(r.tenant, ResolveJobListStatus(r.status).value), LimitOf(r.limit);
    FollowStaysInTenant(c, tables, q, limit, None);
    forall id | AlwaysWanted(tables, r, id) ensures id in Listed(Requests(c, tables, r)) {
      WantedMatches(tables, r, id);
      FollowCovers(c, tables, q, limit, None, id);
    }
  }

  lemma WantedMatches(tables: seq<Table>, r: Request, id: JobId)
    requires ResolveJobListStatus(r.status).Ok? && AlwaysWanted(tables, r, id)
    ensures AlwaysMatches(tables, Query(r.tenant, ResolveJobListStatus(r.status).value), id)
  {
    hide ResolveJobListStatus, StatusName;
    StatusExactly(r.status);
    forall i | 0 <= i < |tables| && r.status.Some?
      ensures tables[i][id].status == ResolveJobListStatus(r.status).value.value
    {
      assert id in tables[i];
      NamesApart(tables[i][id].status, ResolveJobListStatus(r.status).value.value);
    }
  }

  /** On a table at rest every row listed has the requested status, and each is listed that has it. */
  lemma RequestsAtRest(c: Codec, t: Table, n: nat, r: Request)
    requires Lawful(c) && n >= 1 && r.cursor == None
    requires ListJobs(c, t, r).Ok? && Complete(Requests(c, Still(t, n), r))
    ensures forall id :: id in Listed(Requests(c, Still(t, n), r)) <==>
              id in t && t[id].tenant == r.tenant && (r.status.Some? ==> StatusName(t[id].status) == r.status.value)
  {
    hide ListJobs, PageOf, ResolveJobListStatus, Lawful, Complete, Listed, Follow, Requests, StatusName, After;
    var tables := Still(t, n);
    RequestsFollow(c, tables, r);
    RequestsCover(c, tables, r);
    var q, limit := Query(r.tenant, ResolveJobListStatus(r.status).value), LimitOf(r.limit);
    OnlyMatching(c, t, n, q, limit, None);
    forall id ensures Wanted(c, t, r, id) <==> id in After(t, q, None) { WantedIsAfter(c, t, r, id); }
    forall i | 0 <= i < n ensures tables[i] == t { StillAt(t, n, i); }
  }

  lemma StillAt(t: Table, n: nat, i: nat)
    requires i < n
    ensures Still(t, n)[i] == t
  {
  }
}
