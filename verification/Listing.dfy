/** Newest-first listing with a cursor: a page, and the pages a client meets by following cursors. */
module Listing {
  import opened Model
  import opened Sorting

  datatype Cursor = Cursor(createdAt: Time, id: Uuid)

  /** An absent field of a filter matches everything; a limit of zero or less means no limit. */
  datatype Filter = Filter(taskName: string, status: Option<Status>, runId: Option<Uuid>, limit: int, before: Option<Cursor>)

  predicate Matches(e: Execution, f: Filter) {
    && (f.taskName != "" ==> e.taskName == f.taskName)
    && (f.status.Some? ==> e.status == f.status.value)
    && (f.runId.Some? ==> e.runId == f.runId)
    && (f.before.Some? ==> BeforeCursor(e, f.before.value))
  }

  predicate BeforeCursor(e: Execution, c: Cursor) {
    e.createdAt < c.createdAt || (e.createdAt == c.createdAt && e.id < c.id)
  }

  /** Listing order: newest first, equal times by descending id. */
  predicate Newer(a: Execution, b: Execution) {
    a.createdAt > b.createdAt || (a.createdAt == b.createdAt && a.id >= b.id)
  }

  lemma NewerIsPreorder()
    ensures Preorder(Newer)
  {
  }

  predicate Full(f: Filter, n: nat) { 0 < f.limit && f.limit == n }

  /** One page: the newest matching records, in order, up to the limit. */
  ghost predicate IsPage(es: Table, f: Filter, page: seq<Execution>) {
    && (forall i :: 0 <= i < |page| ==> page[i].id in es && es[page[i].id] == page[i] && Matches(page[i], f))
    && (forall i, j :: 0 <= i < j < |page| ==> page[i].id != page[j].id && Newer(page[i], page[j]))
    && (0 < f.limit ==> |page| <= f.limit)
    && (forall id :: id in es && Matches(es[id], f) && es[id] !in page ==>
          Full(f, |page|) && forall i :: 0 <= i < |page| ==> Newer(page[i], es[id]))
  }

  /** A page holds records that match, each the newest of those that match and do not come before it, by
      creation and then by id; and nothing is left out while the limit is not reached. */
  lemma PageMeans(es: Table, f: Filter, page: seq<Execution>, i: nat, id: Uuid)
    requires IsPage(es, f, page) && id in es && es[id].id == id && i < |page|
    ensures
      var x := page[i];
      && (f.taskName == "" || x.taskName == f.taskName) && (f.status.None? || x.status == f.status.value)
      && (f.runId.None? || x.runId == f.runId)
      && (f.before.None? || x.createdAt < f.before.value.createdAt || (x.createdAt == f.before.value.createdAt && x.id < f.before.value.id))
    ensures
      var e := es[id];
      && (f.taskName == "" || e.taskName == f.taskName) && (f.status.None? || e.status == f.status.value)
      && (f.runId.None? || e.runId == f.runId)
      && (f.before.None? || e.createdAt < f.before.value.createdAt || (e.createdAt == f.before.value.createdAt && e.id < f.before.value.id))
      ==>
        && (e !in page ==> 0 < f.limit && |page| == f.limit)
        && (e !in page[..i] ==> page[i].createdAt > e.createdAt || (page[i].createdAt == e.createdAt && page[i].id >= e.id))
  {
    var e := es[id];
    if e in page && e !in page[..i] {
      assert page == page[..i] + page[i..];
      assert e in page[i..];
    }
  }

  function CursorOf(e: Execution): Cursor { Cursor(e.createdAt, e.id) }

  /** The whole listing, ignoring limit and cursor. */
  function Unpaged(f: Filter): Filter { f.(limit := 0, before := None) }

  predicate Keyed(es: Table) {
    forall id :: id in es ==> es[id].id == id
  }

  lemma IndexIn(es: Table, f: Filter, all: seq<Execution>, e: Execution) returns (k: nat)
    requires Keyed(es) && IsPage(es, Unpaged(f), all) && e.id in es && es[e.id] == e && Matches(e, Unpaged(f))
    ensures k < |all| && all[k] == e
  {
    k :| 0 <= k < |all| && all[k] == e;
  }

  /** What lies before the cursor of the c-th item of the listing is what follows that item. */
  lemma BeforeIsAfter(es: Table, f: Filter, all: seq<Execution>, c: nat, k: nat)
    requires Keyed(es) && IsPage(es, Unpaged(f), all) && 0 < c <= |all| && k < |all|
    ensures BeforeCursor(all[k], CursorOf(all[c - 1])) <==> c <= k
  {
    if k < c - 1 {
      assert Newer(all[k], all[c - 1]);
    } else if c - 1 < k {
      assert Newer(all[c - 1], all[k]);
    }
  }

  /** The filter of the page after the first c items. */
  function PageFilter(f: Filter, all: seq<Execution>, c: nat): Filter
    requires c <= |all|
  {
    f.(before := if c == 0 then None else Some(CursorOf(all[c - 1])))
  }

  predicate InRest(all: seq<Execution>, c: nat, e: Execution)
    requires c <= |all|
  {
    e in all[c..]
  }

  /** The records behind a cursor are the rest of the listing. */
  lemma RestMatches(es: Table, f: Filter, all: seq<Execution>, c: nat, e: Execution)
    requires Keyed(es) && IsPage(es, Unpaged(f), all) && c <= |all| && e.id in es && es[e.id] == e
    ensures Matches(e, PageFilter(f, all, c)) <==> InRest(all, c, e)
  {
    if Matches(e, Unpaged(f)) {
      var k := IndexIn(es, f, all, e);
      if c > 0 {
        BeforeIsAfter(es, f, all, c, k);
      }
      if c <= k {
        assert all[c..][k - c] == e;
      }
    }
  }

  /** The j-th item after the first c. */
  function Nth(all: seq<Execution>, c: nat, j: nat): Execution
    requires c + j < |all|
  {
    all[c + j]
  }

  lemma NthIsLater(all: seq<Execution>, c: nat, page: seq<Execution>, i: nat, k: nat)
    requires i < |page| && c + i <= |all| && c + k < |all| && Nth(all, c, k) == page[i]
    requires forall j :: 0 <= j < i ==> page[j] == Nth(all, c, j) && page[j].id != page[i].id
    ensures i <= k
  {
  }

  lemma PageEntry(es: Table, f: Filter, all: seq<Execution>, c: nat, page: seq<Execution>, i: nat)
    requires Keyed(es) && IsPage(es, Unpaged(f), all) && c <= |all| && IsPage(es, PageFilter(f, all, c), page)
    requires i < |page| && c + i <= |all|
    requires forall j :: 0 <= j < i ==> page[j] == Nth(all, c, j)
    ensures c + i < |all| && page[i] == Nth(all, c, i)
  {
    RestMatches(es, f, all, c, page[i]);
    var k :| 0 <= k < |all| - c && all[c..][k] == page[i];
    NthIsLater(all, c, page, i, k);
    var e := Nth(all, c, i);
    assert all[c..][i] == e;
    RestMatches(es, f, all, c, e);
    var last := page[i];
    assert e == last || Newer(e, last);
  }

  function Least(a: int, b: int): int { if a <= b then a else b }

  function PageEnd(f: Filter, all: seq<Execution>, c: nat): (e: nat)
    requires c <= |all|
    ensures c <= e <= |all|
  {
    if 0 < f.limit then Least(c + f.limit, |all|) else |all|
  }

  lemma {:induction false} PageEntries(es: Table, f: Filter, all: seq<Execution>, c: nat, page: seq<Execution>, m: nat)
    requires Keyed(es) && IsPage(es, Unpaged(f), all) && c <= |all| && IsPage(es, PageFilter(f, all, c), page)
    requires m <= |page|
    ensures c + m <= |all| && forall j :: 0 <= j < m ==> page[j] == Nth(all, c, j)
  {
    if m > 0 {
      PageEntries(es, f, all, c, page, m - 1);
      PageEntry(es, f, all, c, page, m - 1);
    }
  }

  /** A page is determined: it is the next stretch of the whole listing. */
  lemma PageIsNextStretch(es: Table, f: Filter, all: seq<Execution>, c: nat, page: seq<Execution>)
    requires Keyed(es) && IsPage(es, Unpaged(f), all) && c <= |all| && IsPage(es, PageFilter(f, all, c), page)
    ensures page == all[c..PageEnd(f, all, c)]
  {
    PageEntries(es, f, all, c, page, |page|);
    var n := |page|;
    if c + n < |all| {
      var e := all[c + n];
      assert all[c..][n] == e;
      RestMatches(es, f, all, c, e);
      assert Full(PageFilter(f, all, c), n);
    }
  }

  function Concat(pages: seq<seq<Execution>>): seq<Execution> {
    if pages == [] then [] else Concat(pages[..|pages| - 1]) + pages[|pages| - 1]
  }

  function LastSeen(pages: seq<seq<Execution>>): Option<Cursor> {
    var seen := Concat(pages);
    if seen == [] then None else Some(CursorOf(seen[|seen| - 1]))
  }

  /** Pages a client has met: each asked for with the cursor of the last item seen, and none empty. */
  ghost predicate Followed(es: Table, f: Filter, pages: seq<seq<Execution>>) {
    forall p :: 0 <= p < |pages| ==> pages[p] != [] && IsPage(es, f.(before := LastSeen(pages[..p])), pages[p])
  }

  /** The page after a prefix of the listing continues it. */
  lemma NextPage(es: Table, f: Filter, all: seq<Execution>, pages: seq<seq<Execution>>, page: seq<Execution>)
    requires Keyed(es) && IsPage(es, Unpaged(f), all) && Concat(pages) <= all
    requires IsPage(es, f.(before := LastSeen(pages)), page)
    ensures Concat(pages) + page <= all
    ensures page == [] ==> Concat(pages) == all
  {
    var seen := Concat(pages);
    assert f.(before := LastSeen(pages)) == PageFilter(f, all, |seen|);
    PageIsNextStretch(es, f, all, |seen|, page);
  }

  /** However many pages a client has followed, they are so far a prefix of the whole listing, and
      there are no more of them than items: following cursors comes to an end. */
  lemma {:induction false} FollowingEnds(es: Table, f: Filter, all: seq<Execution>, pages: seq<seq<Execution>>)
    requires Keyed(es) && IsPage(es, Unpaged(f), all) && Followed(es, f, pages)
    ensures Concat(pages) <= all && |pages| <= |Concat(pages)| <= |all|
  {
    if pages != [] {
      var n := |pages| - 1;
      FollowedPrefix(es, f, pages, n);
      FollowingEnds(es, f, all, pages[..n]);
      NextPage(es, f, all, pages[..n], pages[n]);
    }
  }

  lemma FollowedPrefix(es: Table, f: Filter, pages: seq<seq<Execution>>, n: nat)
    requires Followed(es, f, pages) && n <= |pages|
    ensures Followed(es, f, pages[..n])
  {
    forall p | 0 <= p < n
      ensures pages[..n][p] != [] && IsPage(es, f.(before := LastSeen(pages[..n][..p])), pages[..n][p])
    {
      assert pages[..n][..p] == pages[..p];
    }
  }

  /** The page that ends it, the first empty one, is met exactly when the pages before are the whole
      sorted listing, without repetition or omission. */
  lemma PagesAreTheListing(es: Table, f: Filter, all: seq<Execution>, pages: seq<seq<Execution>>, page: seq<Execution>)
    requires Keyed(es) && IsPage(es, Unpaged(f), all) && Followed(es, f, pages)
    requires IsPage(es, f.(before := LastSeen(pages)), page)
    ensures page == [] <==> Concat(pages) == all
  {
    FollowingEnds(es, f, all, pages);
    NextPage(es, f, all, pages, page);
  }

  // ---------------------------------------------------------------------------------------------
  // The whole listing

  /** All matching records, each once, in order. */
  ghost predicate IsListing(es: Table, f: Filter, all: seq<Execution>) {
    && (forall x :: x in all <==> x.id in es && es[x.id] == x && Matches(x, f))
    && (forall i, j :: 0 <= i < j < |all| ==> all[i].id != all[j].id)
    && Sorted(Newer, all)
  }

  lemma ListingIsPage(es: Table, f: Filter, all: seq<Execution>)
    requires Keyed(es) && IsListing(es, Unpaged(f), all)
    ensures IsPage(es, Unpaged(f), all)
  {
    forall i | 0 <= i < |all|
      ensures all[i].id in es && es[all[i].id] == all[i] && Matches(all[i], Unpaged(f))
    {
      assert all[i] in all;
    }
  }

  lemma InsertedMembers(rest: seq<Execution>, e: Execution, all: seq<Execution>, x: Execution)
    requires multiset(all) == multiset(rest) + multiset{e}
    ensures x in all <==> x in rest || x == e
  {
    assert x in all <==> x in multiset(all);
    assert x in rest <==> x in multiset(rest);
  }

  lemma InsertedApart(rest: seq<Execution>, e: Execution, all: seq<Execution>)
    requires multiset(all) == multiset(rest) + multiset{e}
    requires forall x :: x in rest ==> x.id != e.id
    requires forall i, j :: 0 <= i < j < |rest| ==> rest[i].id != rest[j].id
    ensures forall i, j :: 0 <= i < j < |all| ==> all[i].id != all[j].id
  {
    var one := rest + [e];
    assert multiset(one) == multiset(all);
    PermutedDistinct(one, all);
    forall i, j | 0 <= i < j < |all|
      ensures all[i].id != all[j].id
    {
      assert all[i] in Elements(all) && all[j] in Elements(all);
    }
  }

  lemma InsertIntoListing(es: Table, f: Filter, rest: seq<Execution>, e: Execution)
    requires Keyed(es) && e.id in es && es[e.id] == e && IsListing(es - {e.id}, f, rest)
    ensures IsListing(es, f, if Matches(e, f) then InsertInto(Newer, e, rest) else rest)
  {
    if Matches(e, f) {
      var all := InsertInto(Newer, e, rest);
      NewerIsPreorder();
      InsertKeeps(Newer, e, rest);
      InsertedApart(rest, e, all);
      forall x
        ensures x in all <==> x in rest || x == e
      {
        InsertedMembers(rest, e, all, x);
      }
    }
  }

  /** There is a whole listing of any records. */
  lemma WholeListing(es: Table, f: Filter) returns (all: seq<Execution>)
    requires Keyed(es)
    ensures IsPage(es, Unpaged(f), all)
  {
    all := ListingOf(es, Unpaged(f));
    ListingIsPage(es, f, all);
  }

  lemma ListingOf(es: Table, f: Filter) returns (all: seq<Execution>)
    requires Keyed(es)
    ensures IsListing(es, f, all)
    decreases |es|
  {
    if es == map[] {
      all := [];
    } else {
      var id :| id in es;
      assert (es - {id}).Keys == es.Keys - {id};
      all := ListingOf(es - {id}, f);
      InsertIntoListing(es, f, all, es[id]);
      if Matches(es[id], f) {
        all := InsertInto(Newer, es[id], all);
      }
    }
  }

  /** One step of a client that follows cursors. */
  lemma FollowStep(es: Table, f: Filter, all: seq<Execution>, items: seq<Execution>, page: seq<Execution>)
    requires Keyed(es) && IsPage(es, Unpaged(f), all) && items <= all && IsPage(es, PageFilter(f, all, |items|), page)
    ensures items + page <= all
    ensures page == [] ==> items == all
    ensures page != [] ==> f.(before := Some(CursorOf(page[|page| - 1]))) == PageFilter(f, all, |items + page|)
  {
    PageIsNextStretch(es, f, all, |items|, page);
  }
}
