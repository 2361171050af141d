/**
 * What following cursors does over a table at rest, for every creation time and
 * every limit: exactly when a row is listed twice, and when the listing ends.
 */
module ListingAtRest {
  import opened Common
  import opened JobTable
  import opened JobListing

  ghost function Pages(c: Codec, t: Table, n: nat, q: Query, limit: nat, from: Option<Key>): seq<Page>
    requires limit >= 1
  {
    Follow(c, Still(t, n), q, limit, from)
  }

  /** Where the client resumes after a page that another one follows. */
  ghost function NextFrom(c: Codec, t: Table, q: Query, limit: nat, from: Option<Key>): Option<Key>
    requires limit >= 1
  {
    var jobs := PageOf(c, t, q, limit, from).jobs;
    if jobs == [] then None else Some(CutToMillisecond(KeyOf(t, jobs[|jobs| - 1])))
  }

  /** One request of n, and the rest. */
  lemma PagesStep(c: Codec, t: Table, n: nat, q: Query, limit: nat, from: Option<Key>)
    requires limit >= 1 && Lawful(c) && n > 0
    ensures var page, pages := PageOf(c, t, q, limit, from), Pages(c, t, n, q, limit, from);
      && (page.nextCursor == None ==> pages == [page] && Listed(pages) == page.jobs && Complete(pages))
      && (page.nextCursor.Some? ==>
            var more := Pages(c, t, n - 1, q, limit, NextFrom(c, t, q, limit, from));
            page.jobs != [] && pages == [page] + more && Listed(pages) == page.jobs + Listed(more)
            && (Complete(pages) <==> Complete(more)))
  {
    hide PageOf, Follow, Lawful, Listed, Complete;
    FollowStep(c, Still(t, n), q, limit, from);
  }

  lemma NoPages(c: Codec, t: Table, q: Query, limit: nat, from: Option<Key>)
    requires limit >= 1
    ensures Pages(c, t, 0, q, limit, from) == [] && Listed([]) == [] && !Complete([])
  {
  }

  // ------------------------------------------------------------------- repeats

  predicate Distinct(ids: seq<JobId>) {
    forall i, k :: 0 <= i < k < |ids| ==> ids[i] != ids[k]
  }

  lemma TwiceListed(a: seq<JobId>, b: seq<JobId>, id: JobId)
    requires id in a && id in b
    ensures !Distinct(a + b)
  {
    var i :| 0 <= i < |a| && a[i] == id;
    var k :| 0 <= k < |b| && b[k] == id;
    assert (a + b)[i] == (a + b)[|a| + k];
  }

  /** The rows listed so far are at least those up to a position. */
  predicate Seen(t: Table, q: Query, from: Option<Key>, seen: seq<JobId>) {
    forall id :: id in After(t, q, None) ==> id in seen || id in After(t, q, from)
  }

  /** After a page that ends within a millisecond, the next one begins with a row already listed. */
  lemma PageRepeats(c: Codec, t: Table, q: Query, limit: nat, from: Option<Key>, seen: seq<JobId>)
    requires limit >= 1 && Seen(t, q, from, seen) && PageOf(c, t, q, limit, from).nextCursor.Some?
    requires !EndsWhole(t, PageOf(c, t, q, limit, from))
    ensures var page, next := PageOf(c, t, q, limit, from), PageOf(c, t, q, limit, NextFrom(c, t, q, limit, from));
            next.jobs != [] && next.jobs[0] in seen + page.jobs
  {
    var page := PageOf(c, t, q, limit, from);
    PageFacts(c, t, q, limit, from);
    var last := page.jobs[limit - 1];
    assert last in page.jobs;
    var cut := CutToMillisecond(KeyOf(t, last));
    assert last in After(t, q, Some(cut));
    FirstOfPage(c, t, q, limit, Some(cut), last);
    PageFacts(c, t, q, limit, Some(cut));
  }

  lemma SeenAfterPage(c: Codec, t: Table, q: Query, limit: nat, from: Option<Key>, seen: seq<JobId>)
    requires limit >= 1 && Seen(t, q, from, seen) && PageOf(c, t, q, limit, from).nextCursor.Some?
    ensures Seen(t, q, NextFrom(c, t, q, limit, from), seen + PageOf(c, t, q, limit, from).jobs)
  {
    PageFacts(c, t, q, limit, from);
  }

  lemma {:induction false} SomeRowRepeats(
    c: Codec, t: Table, n: nat, q: Query, limit: nat, from: Option<Key>, seen: seq<JobId>)
    requires limit >= 1 && Lawful(c) && Seen(t, q, from, seen)
    requires !AllEndWhole(t, Pages(c, t, n, q, limit, from))
    ensures !Distinct(seen + Listed(Pages(c, t, n, q, limit, from)))
    decreases n
  {
    hide PageOf, Pages, Lawful, Listed, Complete, AllEndWhole, Seen, EndsWhole, NextFrom, Distinct;
    if n == 0 {
      NoPages(c, t, q, limit, from);
      OnePageEndsWhole(t, []);
    } else {
      var page, next := PageOf(c, t, q, limit, from), NextFrom(c, t, q, limit, from);
      var more := Pages(c, t, n - 1, q, limit, next);
      PagesStep(c, t, n, q, limit, from);
      OnePageEndsWhole(t, [page]);
      assert page.nextCursor.Some?;
      RestEndWhole(t, page, more);
      assert seen + (page.jobs + Listed(more)) == (seen + page.jobs) + Listed(more);
      if AllEndWhole(t, more) {
        PageRepeats(c, t, q, limit, from, seen);
        FirstListed(c, t, n - 1, q, limit, next);
        TwiceListed(seen + page.jobs, Listed(more), PageOf(c, t, q, limit, next).jobs[0]);
      } else {
        SeenAfterPage(c, t, q, limit, from, seen);
        SomeRowRepeats(c, t, n - 1, q, limit, next, seen + page.jobs);
      }
    }
  }

  lemma OnePageEndsWhole(t: Table, pages: seq<Page>)
    requires |pages| <= 1
    ensures AllEndWhole(t, pages)
  {
  }

  lemma FirstListed(c: Codec, t: Table, n: nat, q: Query, limit: nat, from: Option<Key>)
    requires limit >= 1 && Lawful(c) && Pages(c, t, n, q, limit, from) != [] && PageOf(c, t, q, limit, from).jobs != []
    ensures PageOf(c, t, q, limit, from).jobs[0] in Listed(Pages(c, t, n, q, limit, from))
  {
    hide PageOf, Pages, Lawful, Listed, Complete, NextFrom;
    if n == 0 { NoPages(c, t, q, limit, from); } else { PagesStep(c, t, n, q, limit, from); }
  }

  /**
   * For every limit, however many requests are made: no row is listed twice if and only if every
   * page that another one follows ends with a row created on a whole millisecond.
   */
  lemma NoRepeatsExactly(c: Codec, t: Table, n: nat, q: Query, limit: nat)
    requires limit >= 1 && Lawful(c)
    ensures Distinct(Listed(Pages(c, t, n, q, limit, None))) <==> AllEndWhole(t, Pages(c, t, n, q, limit, None))
  {
    hide Follow, Lawful, Listed, AllEndWhole;
    var pages := Pages(c, t, n, q, limit, None);
    if n == 0 {
      NoPages(c, t, q, limit, None);
      OnePageEndsWhole(t, pages);
    } else if AllEndWhole(t, pages) {
      FollowOrdered(c, Still(t, n), q, limit, None);
      OrderedDistinct(t, Listed(pages));
    } else {
      SomeRowRepeats(c, t, n, q, limit, None, []);
      assert [] + Listed(pages) == Listed(pages);
    }
  }

  lemma OrderedDistinct(t: Table, ids: seq<JobId>)
    requires Ordered(t, ids)
    ensures Distinct(ids)
  {
  }

  /** So a listing followed to its end is the sorted set of matching rows exactly under that condition. */
  lemma SortedExactly(c: Codec, t: Table, n: nat, q: Query, limit: nat)
    requires limit >= 1 && Lawful(c) && Complete(Pages(c, t, n, q, limit, None))
    ensures Listed(Pages(c, t, n, q, limit, None)) == Sort(t, After(t, q, None))
       <==> AllEndWhole(t, Pages(c, t, n, q, limit, None))
  {
    hide Follow, Lawful, Listed, AllEndWhole, Complete, Sort, After;
    var pages := Pages(c, t, n, q, limit, None);
    NoPages(c, t, q, limit, None);
    if AllEndWhole(t, pages) { ListingAtRest(c, t, n, q, limit); }
    NoRepeatsExactly(c, t, n, q, limit);
    SortDistinct(t, After(t, q, None));
  }

  lemma SortDistinct(t: Table, ids: set<JobId>)
    requires ids <= t.Keys
    ensures Distinct(Sort(t, ids))
  {
    OrderedDistinct(t, Sort(t, ids));
  }

  // ----------------------------------------------------------------- the first page for ever

  /** What the first page shows when there are more rows than the limit. */
  lemma FirstPage(c: Codec, t: Table, q: Query, limit: nat, from: Option<Key>)
    requires 1 <= limit < |After(t, q, None)| && After(t, q, from) == After(t, q, None)
    ensures var rows := Sort(t, After(t, q, None));
      && PageOf(c, t, q, limit, from) == Page(rows[..limit], Some(CursorAt(c, KeyOf(t, rows[limit - 1]))))
      && NextFrom(c, t, q, limit, from) == Some(CutToMillisecond(KeyOf(t, rows[limit - 1])))
      && |rows| == |After(t, q, None)|
  {
    hide Sort, After, Ordered, CursorAt, CutToMillisecond;
    var rows := Sort(t, After(t, q, None));
    assert PageOf(c, t, q, limit, from).jobs == rows[..limit];
  }

  lemma CutBeforeAll(t: Table, q: Query, cut: Key)
    requires After(t, q, None) != {} && Sort(t, After(t, q, None)) != []
    ensures After(t, q, Some(cut)) == After(t, q, None) <==> Precedes(cut, KeyOf(t, Sort(t, After(t, q, None))[0]))
  {
    var rows := Sort(t, After(t, q, None));
    var first := rows[0];
    assert first in rows && first in After(t, q, None);
    if Precedes(cut, KeyOf(t, first)) {
      forall id | id in After(t, q, None) ensures id in After(t, q, Some(cut)) {
        var i :| 0 <= i < |rows| && rows[i] == id;
        if i > 0 { PrecedesTransitive(cut, KeyOf(t, first), KeyOf(t, id)); }
      }
    }
  }

  /**
   * For every limit below the number of rows: the second page is the first one again, and with it
   * every further page, if and only if the cut position of the first page's last row lies before
   * the first row, that is, the rows of the page share a millisecond that none of them begins.
   */
  lemma FirstPageForeverExactly(c: Codec, t: Table, n: nat, q: Query, limit: nat)
    requires Lawful(c) && 1 <= limit < |After(t, q, None)| && n >= 2
    ensures var rows, pages := Sort(t, After(t, q, None)), Pages(c, t, n, q, limit, None);
      && |rows| == |After(t, q, None)| && |pages| >= 2 && pages[0].jobs == rows[..limit]
      && (pages[1].jobs == pages[0].jobs <==> Precedes(CutToMillisecond(KeyOf(t, rows[limit - 1])), KeyOf(t, rows[0])))
      && (pages[1].jobs == pages[0].jobs ==> |pages| == n && !Complete(pages) && forall i :: 0 <= i < n ==> pages[i] == pages[0])
  {
    hide PageOf, Lawful, Listed, Complete, Sort, After, NextFrom, CursorAt, CutToMillisecond, Precedes, Follow;
    var rows := Sort(t, After(t, q, None));
    FirstPage(c, t, q, limit, None);
    var next := NextFrom(c, t, q, limit, None);
    PagesStep(c, t, n, q, limit, None);
    PagesStep(c, t, n - 1, q, limit, next);
    CutBeforeAll(t, q, next.value);
    if Precedes(next.value, KeyOf(t, rows[0])) {
      FirstPage(c, t, q, limit, next);
      SamePageForever(c, t, n, q, limit, None);
    } else {
      SecondPageDiffers(c, t, q, limit, next.value);
    }
  }

  lemma SecondPageDiffers(c: Codec, t: Table, q: Query, limit: nat, cut: Key)
    requires limit >= 1 && After(t, q, None) != {} && !Precedes(cut, KeyOf(t, Sort(t, After(t, q, None))[0]))
    ensures Sort(t, After(t, q, None))[0] !in PageOf(c, t, q, limit, Some(cut)).jobs
  {
    PageFacts(c, t, q, limit, Some(cut));
  }

  lemma {:induction false} SamePageForever(c: Codec, t: Table, n: nat, q: Query, limit: nat, from: Option<Key>)
    requires Lawful(c) && 1 <= limit < |After(t, q, None)| && After(t, q, from) == After(t, q, None)
    requires After(t, q, NextFrom(c, t, q, limit, None)) == After(t, q, None)
    ensures var pages := Pages(c, t, n, q, limit, from);
            |pages| == n && !Complete(pages) && forall i :: 0 <= i < n ==> pages[i] == PageOf(c, t, q, limit, None)
    decreases n
  {
    hide PageOf, Lawful, Listed, Complete, Sort, After, NextFrom, CursorAt, CutToMillisecond, Follow;
    if n == 0 {
      NoPages(c, t, q, limit, from);
    } else {
      FirstPage(c, t, q, limit, None);
      FirstPage(c, t, q, limit, from);
      PagesStep(c, t, n, q, limit, from);
      SamePageForever(c, t, n - 1, q, limit, NextFrom(c, t, q, limit, None));
    }
  }

  /** So a listing can fail to end: with limit 1, if the first of several rows was created within a millisecond. */
  lemma LimitOneStuck(c: Codec, t: Table, n: nat, q: Query)
    requires Lawful(c) && |After(t, q, None)| > 1 && n >= 2
    requires KeyOf(t, Sort(t, After(t, q, None))[0]).at % 1000 != 0
    ensures var pages := Pages(c, t, n, q, 1, None);
      && |pages| == n && !Complete(pages)
      && forall i :: 0 <= i < n ==> pages[i].jobs == [Sort(t, After(t, q, None))[0]]
  {
    hide Pages, Lawful, Complete, Sort, After;
    FirstPageForeverExactly(c, t, n, q, 1);
    var rows := Sort(t, After(t, q, None));
    assert rows[..1] == [rows[0]];
  }

  // -------------------------------------------------------------- when the listing ends

  /** Requests past the end of a listing change nothing, and as many as it has pages are enough. */
  lemma {:induction false} EnoughRequests(c: Codec, t: Table, n: nat, k: nat, q: Query, limit: nat, from: Option<Key>)
    requires limit >= 1 && Lawful(c) && Complete(Pages(c, t, n, q, limit, from))
    requires |Pages(c, t, n, q, limit, from)| <= k
    ensures Pages(c, t, k, q, limit, from) == Pages(c, t, n, q, limit, from)
    decreases n
  {
    hide PageOf, Pages, Lawful, Listed, Complete, NextFrom;
    NoPages(c, t, q, limit, from);
    if n > 0 {
      PagesStep(c, t, n, q, limit, from);
      if k > 0 {
        PagesStep(c, t, k, q, limit, from);
        if PageOf(c, t, q, limit, from).nextCursor.Some? {
          EnoughRequests(c, t, n - 1, k - 1, q, limit, NextFrom(c, t, q, limit, from));
        }
      }
    }
  }

  /** From these rows' cut positions the end is fewer than m requests away. */
  ghost predicate EndsWithin(c: Codec, t: Table, n: nat, q: Query, limit: nat, lasts: set<JobId>, m: nat)
    requires limit >= 1
  {
    lasts <= t.Keys &&
    forall id :: id in lasts ==>
      var pages := Pages(c, t, n, q, limit, Some(CutToMillisecond(KeyOf(t, id))));
      Complete(pages) && |pages| < m
  }

  /** The last rows of the pages before the final one are all different: each is nearer to the end. */
  lemma {:induction false} LastRowsDiffer(c: Codec, t: Table, n: nat, q: Query, limit: nat, from: Option<Key>)
    returns (lasts: set<JobId>)
    requires limit >= 1 && Lawful(c) && Complete(Pages(c, t, n, q, limit, from))
    ensures lasts <= After(t, q, None) && |lasts| + 1 == |Pages(c, t, n, q, limit, from)|
    ensures EndsWithin(c, t, n, q, limit, lasts, |Pages(c, t, n, q, limit, from)|)
    decreases n
  {
    hide PageOf, Pages, Lawful, Listed, Complete, NextFrom, After, CutToMillisecond;
    NoPages(c, t, q, limit, from);
    lasts := {};
    PagesStep(c, t, n, q, limit, from);
    var page := PageOf(c, t, q, limit, from);
    if page.nextCursor.Some? {
      var next := NextFrom(c, t, q, limit, from);
      var last := LastOfPage(c, t, q, limit, from);
      var rest := LastRowsDiffer(c, t, n - 1, q, limit, next);
      var m := |Pages(c, t, n - 1, q, limit, next)|;
      lasts := rest + {last};
      forall id | id in lasts
        ensures var pages := Pages(c, t, n, q, limit, Some(CutToMillisecond(KeyOf(t, id)))); Complete(pages) && |pages| <= m
      {
        PagesBounded(c, t, n - 1, q, limit, Some(CutToMillisecond(KeyOf(t, id))));
        EnoughRequests(c, t, n - 1, n, q, limit, Some(CutToMillisecond(KeyOf(t, id))));
      }
    }
  }

  lemma LastOfPage(c: Codec, t: Table, q: Query, limit: nat, from: Option<Key>) returns (last: JobId)
    requires limit >= 1 && PageOf(c, t, q, limit, from).nextCursor.Some?
    ensures last in After(t, q, None) && NextFrom(c, t, q, limit, from) == Some(CutToMillisecond(KeyOf(t, last)))
  {
    hide PageOf, CursorAt, CutToMillisecond, Ordered, Precedes, Matches;
    PageFacts(c, t, q, limit, from);
    last := PageOf(c, t, q, limit, from).jobs[limit - 1];
    assert last in PageOf(c, t, q, limit, from).jobs;
  }

  lemma {:induction false} PagesBounded(c: Codec, t: Table, n: nat, q: Query, limit: nat, from: Option<Key>)
    requires limit >= 1 && Lawful(c)
    ensures |Pages(c, t, n, q, limit, from)| <= n
    decreases n
  {
    hide PageOf, Pages, Lawful, Listed, Complete, NextFrom;
    NoPages(c, t, q, limit, from);
    if n > 0 {
      PagesStep(c, t, n, q, limit, from);
      PagesBounded(c, t, n - 1, q, limit, NextFrom(c, t, q, limit, from));
    }
  }

  ghost predicate Ends(c: Codec, t: Table, q: Query, limit: nat)
    requires limit >= 1
  {
    exists n: nat :: Complete(Pages(c, t, n, q, limit, None))
  }

  /** A listing ends within one request per matching row and one more, or it never ends. */
  lemma EndsExactly(c: Codec, t: Table, q: Query, limit: nat)
    requires limit >= 1 && Lawful(c)
    ensures Ends(c, t, q, limit) <==> Complete(Pages(c, t, |After(t, q, None)| + 1, q, limit, None))
  {
    hide Pages, Lawful, Complete, After;
    if Ends(c, t, q, limit) {
      var n: nat :| Complete(Pages(c, t, n, q, limit, None));
      var lasts := LastRowsDiffer(c, t, n, q, limit, None);
      SmallerSet(lasts, After(t, q, None));
      EnoughRequests(c, t, n, |After(t, q, None)| + 1, q, limit, None);
    }
  }
}
