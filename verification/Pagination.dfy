/** Listing jobs newest first with a cursor (orchestrator/job_manager.py). */
module Pagination {
  import opened Bytes

  // ---------------------------------------------------------------- the order of job ids

  /** String comparison. */
  predicate Less(a: string, b: string)
    decreases |a|
  {
    |b| > 0 && (|a| == 0 || a[0] < b[0] || (a[0] == b[0] && Less(a[1..], b[1..])))
  }

  lemma {:induction false} LessTransitive(a: string, b: string, c: string)
    requires Less(a, b) && Less(b, c)
    ensures Less(a, c)
    decreases |a|
  {
    if |a| > 0 && a[0] == b[0] == c[0] {
      LessTransitive(a[1..], b[1..], c[1..]);
    }
  }

  lemma {:induction false} LessTotal(a: string, b: string)
    ensures Less(a, b) || a == b || Less(b, a)
    ensures !(Less(a, b) && Less(b, a)) && !Less(a, a)
    decreases |a|
  {
    if |a| > 0 {
      LessTotal(a[1..], a[1..]);
      if |b| > 0 && a[0] == b[0] {
        LessTotal(a[1..], b[1..]);
        assert a[1..] == b[1..] ==> a == [a[0]] + a[1..] == [b[0]] + b[1..] == b;
      }
    }
  }

  /** `a` comes before `b` when it is a proper prefix of it, or smaller at the first place where they
      differ. */
  lemma {:induction false} LessMeaning(a: string, b: string) returns (k: nat)
    ensures k <= |a| && k <= |b| && a[..k] == b[..k] && (k < |a| && k < |b| ==> a[k] != b[k])
    ensures Less(a, b) <==> k < |b| && (k == |a| || a[k] < b[k])
    decreases |a|
  {
    k := 0;
    if |a| > 0 && |b| > 0 && a[0] == b[0] {
      k := LessMeaning(a[1..], b[1..]);
      assert a[..k + 1] == [a[0]] + a[1..][..k] && b[..k + 1] == [b[0]] + b[1..][..k];
      k := k + 1;
    }
  }

  // ---------------------------------------------------------------- the listing

  /** Newest first, each once. */
  ghost predicate Descending(ids: seq<string>) {
    forall i, j :: 0 <= i < j < |ids| ==> Less(ids[j], ids[i])
  }

  /** The jobs of a status, newest first. */
  ghost predicate Listing(ids: seq<string>, jobs: map<string, string>, status: string) {
    Descending(ids) && forall id :: id in ids <==> id in jobs && jobs[id] == status
  }

  /** Ids strictly before the cursor; all of them without one. */
  function After(ids: seq<string>, since: Option<string>): seq<string>
    decreases |ids|
  {
    if since.None? || |ids| == 0 then ids
    else (if Less(ids[0], since.value) then [ids[0]] else []) + After(ids[1..], since)
  }

  /** Slicing with an upper bound that counts from the end when negative. */
  function Take<T>(s: seq<T>, limit: int): (r: seq<T>)
    ensures r <= s
  {
    if limit >= |s| then s
    else if limit >= 0 then s[..limit]
    else if |s| + limit >= 0 then s[..|s| + limit]
    else []
  }

  /** Next cursor: the last id returned, when more remain. */
  function NextCursor(matching: seq<string>, limit: int): Option<string> {
    var page := Take(matching, limit);
    if |matching| > limit && |page| > 0 then Some(page[|page| - 1]) else None
  }

  lemma DescendingInsert(ids: seq<string>, x: string, k: nat)
    requires Descending(ids) && k <= |ids|
    requires (forall i :: 0 <= i < k ==> Less(x, ids[i])) && (forall i :: k <= i < |ids| ==> Less(ids[i], x))
    ensures Descending(ids[..k] + [x] + ids[k..])
  {
    hide Less;
  }

  /** Sorts by id, descending. */
  method SortDescending(ids: set<string>) returns (sorted: seq<string>)
    ensures Descending(sorted) && forall id :: id in sorted <==> id in ids
  {
    hide Less;
    sorted := [];
    var todo := ids;
    while todo != {}
      invariant todo <= ids && Descending(sorted)
      invariant forall id :: id in sorted <==> id in ids && id !in todo
      decreases |todo|
    {
      var x :| x in todo;
      todo := todo - {x};
      var k := Place(sorted, x);
      DescendingInsert(sorted, x, k);
      assert forall id :: id in sorted <==> id in sorted[..k] || id in sorted[k..];
      sorted := sorted[..k] + [x] + sorted[k..];
    }
  }

  method Place(sorted: seq<string>, x: string) returns (k: nat)
    requires Descending(sorted) && x !in sorted
    ensures k <= |sorted|
    ensures (forall i :: 0 <= i < k ==> Less(x, sorted[i])) && (forall i :: k <= i < |sorted| ==> Less(sorted[i], x))
  {
    hide Less;
    k := 0;
    while k < |sorted| && Less(x, sorted[k])
      invariant k <= |sorted| && forall i :: 0 <= i < k ==> Less(x, sorted[i])
    {
      k := k + 1;
    }
    forall i | k <= i < |sorted| ensures Less(sorted[i], x) {
      LessTotal(sorted[k], x);
      assert x != sorted[k];
      if i > k {
        LessTransitive(sorted[i], sorted[k], x);
      }
    }
  }

  lemma AfterOne(ids: seq<string>, since: Option<string>, i: nat)
    requires i < |ids| && since.Some?
    ensures After(ids[i..], since) == (if Less(ids[i], since.value) then [ids[i]] else []) + After(ids[i + 1..], since)
  {
    assert ids[i..][1..] == ids[i + 1..];
  }

  method FilterSince(ids: seq<string>, since: string) returns (r: seq<string>)
    ensures r == After(ids, Some(since))
  {
    r := [];
    for i := 0 to |ids|
      invariant r + After(ids[i..], Some(since)) == After(ids, Some(since))
    {
      AfterOne(ids, Some(since), i);
      if Less(ids[i], since) {
        assert r + ([ids[i]] + After(ids[i + 1..], Some(since))) == (r + [ids[i]]) + After(ids[i + 1..], Some(since));
        r := r + [ids[i]];
      } else {
        assert [] + After(ids[i + 1..], Some(since)) == After(ids[i + 1..], Some(since));
      }
    }
  }

  /** There is only one listing, so every call pages through the same one. */
  lemma {:induction false} ListingUnique(a: seq<string>, b: seq<string>)
    requires Descending(a) && Descending(b) && forall id :: id in a <==> id in b
    ensures a == b
    decreases |a|
  {
    hide Less;
    EmptyTogether(a, b);
    if |a| > 0 {
      assert a[0] in b && |b| > 0;
      assert b[0] in a;
      var i :| 0 <= i < |b| && b[i] == a[0];
      var j :| 0 <= j < |a| && a[j] == b[0];
      LessTotal(a[0], b[0]);
      assert a[0] == b[0];
      forall id ensures id in a[1..] <==> id in b[1..] {
        LessTotal(a[0], a[0]);
        RestMembers(a, id);
        RestMembers(b, id);
      }
      ListingUnique(a[1..], b[1..]);
      assert a == [a[0]] + a[1..] && b == [b[0]] + b[1..];
    }
  }

  lemma EmptyTogether(a: seq<string>, b: seq<string>)
    requires forall id :: id in a <==> id in b
    ensures a == [] <==> b == []
  {
    if |b| > 0 {
      assert b[0] in a;
    }
    if |a| > 0 {
      assert a[0] in b;
    }
  }

  lemma RestMembers(a: seq<string>, id: string)
    requires |a| > 0 && Descending(a)
    ensures id in a[1..] <==> id in a && id != a[0]
  {
    hide Less;
    LessTotal(a[0], a[0]);
    if id in a[1..] {
      var i :| 0 <= i < |a| - 1 && a[1..][i] == id;
      assert Less(a[i + 1], a[0]);
    }
    if id in a && id != a[0] {
      var i :| 0 <= i < |a| && a[i] == id;
      assert a[1..][i - 1] == id;
    }
  }

  /** `list_jobs`: a page of the one listing of a status, and where to go on. */
  method ListJobs(jobs: map<string, string>, status: string, since: Option<string>, limit: int)
    returns (page: seq<string>, next: Option<string>)
    ensures exists all :: Listing(all, jobs, status)
    ensures forall all :: Listing(all, jobs, status) ==>
      page == Take(After(all, since), limit) && next == NextCursor(After(all, since), limit)
  {
    hide After, Descending;
    var matching := SortDescending(set id | id in jobs && jobs[id] == status);
    ghost var listing := matching;
    assert Listing(listing, jobs, status);
    forall all | Listing(all, jobs, status) ensures all == listing {
      ListingUnique(all, listing);
    }
    AfterNone(listing);
    if since.Some? {
      matching := FilterSince(matching, since.value);
    }
    page := Take(matching, limit);
    var hasMore := |matching| > limit;
    next := if hasMore && |page| > 0 then Some(page[|page| - 1]) else None;
  }

  lemma AfterNone(ids: seq<string>)
    ensures After(ids, None) == ids
  {
  }

  // ---------------------------------------------------------------- following the cursor

  /** What comes after an id of the listing is the rest of it. */
  lemma {:induction false} AfterCursor(ids: seq<string>, k: nat)
    requires Descending(ids) && k < |ids|
    ensures After(ids, Some(ids[k])) == ids[k + 1..]
    decreases |ids|
  {
    hide Less;
    LessTotal(ids[0], ids[0]);
    if k == 0 {
      AllAfter(ids[1..], ids[0]);
    } else {
      LessTotal(ids[0], ids[k]);
      AfterCursor(ids[1..], k - 1);
    }
  }

  lemma {:induction false} AllAfter(ids: seq<string>, since: string)
    requires forall i :: 0 <= i < |ids| ==> Less(ids[i], since)
    ensures After(ids, Some(since)) == ids
    decreases |ids|
  {
    hide Less;
    if |ids| > 0 {
      AllAfter(ids[1..], since);
      assert ids == [ids[0]] + ids[1..];
    }
  }

  /** A listing read from any cursor is an end of the listing. */
  lemma {:induction false} AfterIsEnd(ids: seq<string>, since: Option<string>)
    requires Descending(ids)
    ensures |After(ids, since)| <= |ids| && After(ids, since) == ids[|ids| - |After(ids, since)|..]
    decreases |ids|
  {
    hide Less;
    if since.Some? && |ids| > 0 {
      if Less(ids[0], since.value) {
        forall i | 0 <= i < |ids| ensures Less(ids[i], since.value) {
          if i > 0 {
            LessTransitive(ids[i], ids[0], since.value);
          }
        }
        AllAfter(ids, since.value);
      } else {
        AfterIsEnd(ids[1..], since);
      }
    }
  }

  /** What a cursor leaves: exactly the listed ids smaller than it. */
  lemma {:induction false} AfterMembers(ids: seq<string>, since: string, id: string)
    ensures id in After(ids, Some(since)) <==> id in ids && Less(id, since)
    decreases |ids|
  {
    hide Less;
    if |ids| > 0 {
      AfterMembers(ids[1..], since, id);
      assert ids == [ids[0]] + ids[1..];
    }
  }

  /** The size of a page: the limit, or what is left; a negative limit leaves out that many at the end.
      A cursor is given exactly when ids remain behind a page that is not empty, and is its last id. */
  lemma PageMeaning(left: seq<string>, limit: int)
    ensures var page, next := Take(left, limit), NextCursor(left, limit);
      && page == left[..|page|]
      && |page| == (if limit >= |left| then |left| else if limit >= 0 then limit else if |left| >= -limit then |left| + limit else 0)
      && (next.Some? <==> 0 < |page| < |left|)
      && (next.Some? ==> next.value == left[|page| - 1])
  {
  }

  /** A page and its cursor split what is left. */
  lemma PageSplits(ids: seq<string>, since: Option<string>, limit: int)
    requires Descending(ids) && NextCursor(After(ids, since), limit).Some?
    ensures var left := After(ids, since);
      && |Take(left, limit)| > 0
      && left == Take(left, limit) + After(ids, NextCursor(left, limit))
  {
    hide Less, Descending;
    var left := After(ids, since);
    var page := Take(left, limit);
    AfterIsEnd(ids, since);
    var k := |ids| - |left| + |page| - 1;
    assert page[|page| - 1] == left[|page| - 1] == ids[k];
    AfterCursor(ids, k);
    assert left[|page|..] == ids[k + 1..];
  }

  /** All pages, following the cursor to the end. */
  function Follow(ids: seq<string>, since: Option<string>, limit: int): seq<string>
    requires Descending(ids)
    decreases |After(ids, since)|
  {
    var left := After(ids, since);
    var page := Take(left, limit);
    match NextCursor(left, limit)
    case None => page
    case Some(id) =>
      PageSplits(ids, since, limit);
      page + Follow(ids, Some(id), limit)
  }

  /** From any cursor, the pages followed to the end are all remaining jobs, each once, in
      descending order, exactly when the limit is positive or nothing remains. */
  lemma {:induction false} FollowIsComplete(ids: seq<string>, since: Option<string>, limit: int)
    requires Descending(ids)
    ensures Follow(ids, since, limit) == After(ids, since) <==> limit >= 1 || After(ids, since) == []
    ensures Follow(ids, since, limit) <= After(ids, since)
    decreases |After(ids, since)|
  {
    hide Less, Descending, After;
    var left := After(ids, since);
    var next := NextCursor(left, limit);
    if next.Some? {
      PageSplits(ids, since, limit);
      FollowIsComplete(ids, next, limit);
      var page, rest := Take(left, limit), After(ids, next);
      assert Follow(ids, since, limit) == page + Follow(ids, next, limit);
      assert limit < 1 ==> |rest| > 0;
    }
  }

  /** The whole listing from the first page on. */
  lemma EveryJobOnce(jobs: map<string, string>, status: string, all: seq<string>, limit: int)
    requires Listing(all, jobs, status) && limit >= 1
    ensures Follow(all, None, limit) == all
  {
    FollowIsComplete(all, None, limit);
  }
}
