/** Keep-last-N retention over one dump folder (the pure part of
    `cleanup_old_dumps` in scheduled_dumps.py).

    A folder is a finite map from file name to modification time. A
    listing is the order in which `os.listdir` happened to return the
    names: every name of the folder exactly once, in no particular order.
    Cleanup keeps the `.sql` names of the listing, orders them newest
    first with a stable sort, and deletes every name at position >= keep.
 */
module Retention {

  type Folder = map<string, nat>

  /** `s.endswith(suffix)` */
  predicate EndsWith(s: string, suffix: string)
  {
    |suffix| <= |s| && s[|s| - |suffix|..] == suffix
  }

  const SqlSuffix: string := ".sql"

  /** `name.endswith(".sql")` */
  predicate IsSql(name: string)
  {
    EndsWith(name, SqlSuffix)
  }

  /** A name passes the filter exactly when it is some stem, possibly
      empty, followed by `.sql`; so `.sql` itself passes and `a.SQL` or
      `a.sql.bak` do not. */
  lemma IsSqlSuffix(name: string, stem: string)
    ensures IsSql(name) <==> |name| >= 4 && name == name[..|name| - 4] + ".sql"
    ensures IsSql(stem + ".sql")
  {
    assert (stem + ".sql")[|stem|..] == ".sql";
    if |name| >= 4 {
      assert name == name[..|name| - 4] + name[|name| - 4..];
    }
  }

  /** The names of a sequence, as a set. */
  function Elems(s: seq<string>): set<string>
  {
    set x | x in s
  }

  predicate Distinct(s: seq<string>)
  {
    forall i, j :: 0 <= i < j < |s| ==> s[i] != s[j]
  }

  /** What `os.listdir` may return for a folder: each name exactly once. */
  predicate IsListing(listing: seq<string>, d: Folder)
  {
    && Distinct(listing)
    && (forall f :: f in listing ==> f in d)
    && (forall f :: f in d ==> f in listing)
  }

  /** The `.sql` files present in a folder. */
  function SqlNames(d: Folder): set<string>
  {
    set f | f in d && IsSql(f)
  }

  /** The list comprehension keeping the names that end in `.sql`, in
      listing order. */
  function Candidates(listing: seq<string>): (r: seq<string>)
    ensures forall f :: f in r <==> f in listing && IsSql(f)
    ensures |r| <= |listing|
  {
    if listing == [] then []
    else if IsSql(listing[0]) then [listing[0]] + Candidates(listing[1..])
    else Candidates(listing[1..])
  }

  /** Newest first: mtimes never increase along the sequence. */
  predicate NewestFirstOrder(s: seq<string>, d: Folder)
    requires forall f :: f in s ==> f in d
  {
    forall i, j :: 0 <= i < j < |s| ==> d[s[i]] >= d[s[j]]
  }

  /** Insert `x` before the first element that is not newer than it.
      Since `x` comes first in the input, this keeps the relative order
      of equal mtimes, as Python's stable `sort(reverse=True)` does. */
  function Insert(x: string, s: seq<string>, d: Folder): (r: seq<string>)
    requires x in d && forall f :: f in s ==> f in d
    ensures forall f :: f in r <==> f == x || f in s
  {
    if s == [] then [x]
    else if d[x] >= d[s[0]] then [x] + s
    else [s[0]] + Insert(x, s[1..], d)
  }

  /** `files.sort(key=os.path.getmtime, reverse=True)` */
  function NewestFirst(s: seq<string>, d: Folder): (r: seq<string>)
    requires forall f :: f in s ==> f in d
    ensures forall f :: f in r <==> f in s
  {
    if s == [] then [] else Insert(s[0], NewestFirst(s[1..], d), d)
  }

  /** The `.sql` names of the listing, newest first. */
  function Ranked(d: Folder, listing: seq<string>): seq<string>
    requires forall f :: f in listing ==> f in d
  {
    NewestFirst(Candidates(listing), d)
  }

  /** How many of n ranked files survive: min(n, keep). */
  function Kept(n: nat, keep: nat): nat
  {
    if keep < n then keep else n
  }

  /** `files[keep:]`: Python slicing yields [] once keep reaches the length. */
  function Victims(d: Folder, listing: seq<string>, keep: nat): (r: seq<string>)
    requires forall f :: f in listing ==> f in d
    ensures forall f :: f in r ==> f in listing && IsSql(f)
  {
    var sorted := Ranked(d, listing);
    if keep < |sorted| then sorted[keep..] else []
  }

  /** The folder after every victim has been removed. */
  function Prune(d: Folder, listing: seq<string>, keep: nat): (r: Folder)
    requires forall f :: f in listing ==> f in d
    ensures forall f :: f in r ==> f in d && r[f] == d[f]
    ensures forall f :: f in d && !IsSql(f) ==> f in r
  {
    d - Elems(Victims(d, listing, keep))
  }

  // ---------------------------------------------------------------------
  // The sort: a newest-first permutation of its input.

  lemma DistinctTail(s: seq<string>)
    requires Distinct(s) && s != []
    ensures Distinct(s[1..]) && s[0] !in s[1..]
  {
    forall k | 0 <= k < |s| - 1
      ensures s[1..][k] != s[0]
    {
      assert s[1..][k] == s[k + 1];
    }
  }

  lemma DistinctCons(x: string, s: seq<string>)
    requires Distinct(s) && x !in s
    ensures Distinct([x] + s)
  {
    forall i, j | 0 <= i < j < |[x] + s|
      ensures ([x] + s)[i] != ([x] + s)[j]
    {
      if i == 0 {
        assert ([x] + s)[j] in s;
      }
    }
  }

  lemma {:induction false} InsertPerm(x: string, s: seq<string>, d: Folder)
    requires x in d && forall f :: f in s ==> f in d
    ensures multiset(Insert(x, s, d)) == multiset(s) + multiset{x}
    ensures |Insert(x, s, d)| == |s| + 1
  {
    if s != [] && d[x] < d[s[0]] {
      InsertPerm(x, s[1..], d);
      assert s == [s[0]] + s[1..];
    }
  }

  lemma SortedCons(y: string, t: seq<string>, d: Folder)
    requires y in d && forall f :: f in t ==> f in d
    requires NewestFirstOrder(t, d)
    requires forall z :: z in t ==> d[y] >= d[z]
    ensures NewestFirstOrder([y] + t, d)
  {
    forall i, j | 0 <= i < j < |[y] + t|
      ensures d[([y] + t)[i]] >= d[([y] + t)[j]]
    {
      assert ([y] + t)[j] == t[j - 1];
      if i > 0 {
        assert ([y] + t)[i] == t[i - 1];
      }
    }
  }

  lemma SortedHead(s: seq<string>, d: Folder)
    requires s != [] && forall f :: f in s ==> f in d
    requires NewestFirstOrder(s, d)
    ensures NewestFirstOrder(s[1..], d)
    ensures forall z :: z in s ==> d[s[0]] >= d[z]
  {
    forall z | z in s ensures d[s[0]] >= d[z] {
      var k :| 0 <= k < |s| && s[k] == z;
    }
  }

  lemma {:induction false} InsertSorted(x: string, s: seq<string>, d: Folder)
    requires x in d && forall f :: f in s ==> f in d
    requires NewestFirstOrder(s, d)
    ensures NewestFirstOrder(Insert(x, s, d), d)
  {
    if s == [] {
    } else if d[x] >= d[s[0]] {
      SortedHead(s, d);
      SortedCons(x, s, d);
    } else {
      SortedHead(s, d);
      InsertSorted(x, s[1..], d);
      SortedCons(s[0], Insert(x, s[1..], d), d);
    }
  }

  /** The sort returns a newest-first permutation of its input. */
  lemma {:induction false} NewestFirstFacts(s: seq<string>, d: Folder)
    requires forall f :: f in s ==> f in d
    ensures multiset(NewestFirst(s, d)) == multiset(s)
    ensures |NewestFirst(s, d)| == |s|
    ensures NewestFirstOrder(NewestFirst(s, d), d)
  {
    if s != [] {
      NewestFirstFacts(s[1..], d);
      InsertPerm(s[0], NewestFirst(s[1..], d), d);
      InsertSorted(s[0], NewestFirst(s[1..], d), d);
      assert s == [s[0]] + s[1..];
    }
  }

  lemma {:induction false} InsertDistinct(x: string, s: seq<string>, d: Folder)
    requires x in d && forall f :: f in s ==> f in d
    requires Distinct(s) && x !in s
    ensures Distinct(Insert(x, s, d))
  {
    if s == [] {
    } else if d[x] >= d[s[0]] {
      DistinctCons(x, s);
    } else {
      DistinctTail(s);
      InsertDistinct(x, s[1..], d);
      DistinctCons(s[0], Insert(x, s[1..], d));
    }
  }

  lemma {:induction false} NewestFirstDistinct(s: seq<string>, d: Folder)
    requires forall f :: f in s ==> f in d
    requires Distinct(s)
    ensures Distinct(NewestFirst(s, d))
  {
    if s != [] {
      DistinctTail(s);
      NewestFirstDistinct(s[1..], d);
      InsertDistinct(s[0], NewestFirst(s[1..], d), d);
    }
  }

  lemma {:induction false} CandidatesDistinct(listing: seq<string>)
    requires Distinct(listing)
    ensures Distinct(Candidates(listing))
  {
    if listing != [] {
      DistinctTail(listing);
      CandidatesDistinct(listing[1..]);
      if IsSql(listing[0]) {
        DistinctCons(listing[0], Candidates(listing[1..]));
      }
    }
  }

  /** A sequence without repetitions has as many elements as its set. */
  lemma {:induction false} DistinctCard(s: seq<string>)
    requires Distinct(s)
    ensures |Elems(s)| == |s|
  {
    if s != [] {
      DistinctTail(s);
      DistinctCard(s[1..]);
      assert Elems(s) == {s[0]} + Elems(s[1..]);
    }
  }

  // ---------------------------------------------------------------------
  // Facts about one cleanup.

  /** The newest-first list of candidates, of length n = |SqlNames(d)|,
      holding every `.sql` file once. */
  lemma SortedCandidates(d: Folder, listing: seq<string>)
    requires IsListing(listing, d)
    ensures Distinct(Ranked(d, listing)) && NewestFirstOrder(Ranked(d, listing), d)
    ensures Elems(Ranked(d, listing)) == SqlNames(d)
    ensures |Ranked(d, listing)| == |SqlNames(d)|
  {
    var c := Candidates(listing);
    CandidatesDistinct(listing);
    NewestFirstFacts(c, d);
    NewestFirstDistinct(c, d);
    var sorted := NewestFirst(c, d);
    assert Elems(sorted) == SqlNames(d);
    DistinctCard(sorted);
  }

  /** The pruned folder: the first min(n, keep) sorted names are what is
      left of the `.sql` files. */
  lemma PruneSplit(d: Folder, listing: seq<string>, keep: nat)
    requires IsListing(listing, d)
    ensures Victims(d, listing, keep) == Ranked(d, listing)[Kept(|Ranked(d, listing)|, keep)..]
    ensures SqlNames(Prune(d, listing, keep)) == Elems(Ranked(d, listing)[..Kept(|Ranked(d, listing)|, keep)])
    ensures Elems(Ranked(d, listing)[..Kept(|Ranked(d, listing)|, keep)])
         !! Elems(Ranked(d, listing)[Kept(|Ranked(d, listing)|, keep)..])
  {
    var sorted := Ranked(d, listing);
    SortedCandidates(d, listing);
    var k := Kept(|sorted|, keep);
    assert sorted == sorted[..k] + sorted[k..];
    forall x | x in Elems(sorted[..k])
      ensures x !in Elems(sorted[k..])
    {
      var i :| 0 <= i < k && sorted[i] == x;
      forall j | 0 <= j < |sorted| - k
        ensures sorted[k..][j] != x
      {
        assert sorted[k..][j] == sorted[k + j];
      }
    }
    assert Elems(sorted) == Elems(sorted[..k]) + Elems(sorted[k..]);
  }

  /** Cleanup deletes max(0, n - keep) files and leaves min(n, keep) `.sql`
      files, where n is the number of `.sql` files before it. */
  lemma CleanupCounts(d: Folder, listing: seq<string>, keep: nat)
    requires IsListing(listing, d)
    ensures var n := |SqlNames(d)|;
      && |Victims(d, listing, keep)| == (if n > keep then n - keep else 0)
      && |SqlNames(Prune(d, listing, keep))| == (if n < keep then n else keep)
  {
    var sorted := Ranked(d, listing);
    SortedCandidates(d, listing);
    PruneSplit(d, listing, keep);
    var k := Kept(|sorted|, keep);
    assert Distinct(sorted[..k]);
    DistinctCard(sorted[..k]);
  }

  /** What is deleted is exactly the `.sql` files beyond the first keep of
      the newest-first order; files are only removed, never changed. */
  lemma CleanupDeletesOnlySql(d: Folder, listing: seq<string>, keep: nat)
    requires IsListing(listing, d)
    ensures Elems(Victims(d, listing, keep)) <= SqlNames(d)
    ensures Prune(d, listing, keep).Keys == d.Keys - Elems(Victims(d, listing, keep))
    ensures forall f :: f in Prune(d, listing, keep) ==> Prune(d, listing, keep)[f] == d[f]
  {
    SortedCandidates(d, listing);
    PruneSplit(d, listing, keep);
    var sorted := Ranked(d, listing);
    var k := Kept(|sorted|, keep);
    assert forall x :: x in sorted[k..] ==> x in sorted;
  }

  /** Files whose names do not end in `.sql` are left exactly as they were. */
  lemma NonSqlUntouched(d: Folder, listing: seq<string>, keep: nat, f: string)
    requires IsListing(listing, d)
    requires f in d && !IsSql(f)
    ensures f in Prune(d, listing, keep) && Prune(d, listing, keep)[f] == d[f]
  {
    CleanupDeletesOnlySql(d, listing, keep);
  }

  /** In a newest-first list, a name before position k is at least as new
      as a name from position k on. */
  lemma SplitOrder(d: Folder, sorted: seq<string>, k: nat, r: string, v: string)
    requires forall f :: f in sorted ==> f in d
    requires NewestFirstOrder(sorted, d) && k <= |sorted|
    requires r in sorted && r !in sorted[k..] && v in sorted[k..]
    ensures d[r] >= d[v]
  {
    assert sorted == sorted[..k] + sorted[k..];
    assert r in sorted[..k];
    var i :| 0 <= i < k && sorted[..k][i] == r;
    var j :| 0 <= j < |sorted| - k && sorted[k..][j] == v;
    assert sorted[i] == r && sorted[k + j] == v;
  }

  /** Every retained `.sql` file is at least as new as every deleted one. */
  lemma RetainedAreNewest(d: Folder, listing: seq<string>, keep: nat, r: string, v: string)
    requires IsListing(listing, d)
    requires r in SqlNames(d) && r !in Victims(d, listing, keep)
    requires v in Victims(d, listing, keep)
    ensures d[r] >= d[v]
  {
    var sorted := Ranked(d, listing);
    SortedCandidates(d, listing);
    PruneSplit(d, listing, keep);
    var k := Kept(|sorted|, keep);
    assert r in Elems(sorted);
    SplitOrder(d, sorted, k, r, v);
  }

  /** keep = 0 deletes every `.sql` file. */
  lemma KeepZeroDeletesAllSql(d: Folder, listing: seq<string>)
    requires IsListing(listing, d)
    ensures SqlNames(Prune(d, listing, 0)) == {}
    ensures Elems(Victims(d, listing, 0)) == SqlNames(d)
  {
    SortedCandidates(d, listing);
    PruneSplit(d, listing, 0);
    var sorted := Ranked(d, listing);
    assert sorted[0..] == sorted;
  }

  /** keep >= n deletes nothing. */
  lemma KeepAtLeastCountDeletesNone(d: Folder, listing: seq<string>, keep: nat)
    requires IsListing(listing, d)
    requires keep >= |SqlNames(d)|
    ensures Victims(d, listing, keep) == []
    ensures Prune(d, listing, keep) == d
  {
    SortedCandidates(d, listing);
  }

  /** A second cleanup, whatever order `os.listdir` returns this time,
      deletes nothing. */
  lemma CleanupIdempotent(d: Folder, listing: seq<string>, keep: nat, listing2: seq<string>)
    requires IsListing(listing, d)
    requires IsListing(listing2, Prune(d, listing, keep))
    ensures Victims(Prune(d, listing, keep), listing2, keep) == []
    ensures Prune(Prune(d, listing, keep), listing2, keep) == Prune(d, listing, keep)
  {
    CleanupCounts(d, listing, keep);
    KeepAtLeastCountDeletesNone(Prune(d, listing, keep), listing2, keep);
  }

  // ---------------------------------------------------------------------
  // The retained set described by counting, independently of positions.

  lemma {:induction false} SubsetCard(a: set<string>, b: set<string>)
    requires a <= b
    ensures |a| <= |b|
  {
    if a != {} {
      var x :| x in a;
      SubsetCard(a - {x}, b - {x});
    }
  }

  /** The `.sql` files strictly newer than `f`. */
  function Newer(d: Folder, f: string): set<string>
    requires f in d
  {
    set g | g in SqlNames(d) && d[g] > d[f]
  }

  /** The other `.sql` files at least as new as `f`. */
  function NotOlder(d: Folder, f: string): set<string>
    requires f in d
  {
    set g | g in SqlNames(d) && g != f && d[g] >= d[f]
  }

  /** In a distinct newest-first list of a folder's `.sql` files, the file
      at position i has at least i others at least as new as itself. */
  lemma PrefixNotOlder(d: Folder, sorted: seq<string>, i: nat)
    requires forall f :: f in sorted ==> f in d
    requires Distinct(sorted) && NewestFirstOrder(sorted, d) && Elems(sorted) == SqlNames(d)
    requires i < |sorted|
    ensures |NotOlder(d, sorted[i])| >= i
  {
    var f := sorted[i];
    assert Distinct(sorted[..i]);
    DistinctCard(sorted[..i]);
    forall g | g in Elems(sorted[..i]) ensures g in NotOlder(d, f) {
      var j :| 0 <= j < i && sorted[j] == g;
    }
    SubsetCard(Elems(sorted[..i]), NotOlder(d, f));
  }

  /** ... and at most i strictly newer ones. */
  lemma NewerInPrefix(d: Folder, sorted: seq<string>, i: nat)
    requires forall f :: f in sorted ==> f in d
    requires Distinct(sorted) && NewestFirstOrder(sorted, d) && Elems(sorted) == SqlNames(d)
    requires i < |sorted|
    ensures |Newer(d, sorted[i])| <= i
  {
    var f := sorted[i];
    assert Distinct(sorted[..i]);
    DistinctCard(sorted[..i]);
    forall g | g in Newer(d, f) ensures g in Elems(sorted[..i]) {
      assert g in Elems(sorted);
      var j :| 0 <= j < |sorted| && sorted[j] == g;
      assert j < i;
    }
    SubsetCard(Newer(d, f), Elems(sorted[..i]));
  }

  /** A deleted file has at least keep other `.sql` files at least as new
      as itself; a retained `.sql` file has fewer than keep strictly newer
      ones. */
  lemma VictimsByCounting(d: Folder, listing: seq<string>, keep: nat, f: string)
    requires IsListing(listing, d)
    requires f in SqlNames(d)
    ensures f in Victims(d, listing, keep) ==> |NotOlder(d, f)| >= keep
    ensures f !in Victims(d, listing, keep) ==> |Newer(d, f)| < keep
  {
    var sorted := Ranked(d, listing);
    SortedCandidates(d, listing);
    PruneSplit(d, listing, keep);
    var k := Kept(|sorted|, keep);
    assert f in Elems(sorted);
    var i :| 0 <= i < |sorted| && sorted[i] == f;
    if i >= k {
      assert f in Elems(sorted[k..]);
      PrefixNotOlder(d, sorted, i);
    } else {
      assert f in Elems(sorted[..k]);
      assert f !in Elems(sorted[k..]);
      NewerInPrefix(d, sorted, i);
    }
  }

  /** When no two `.sql` files share an mtime, a file is deleted exactly
      when at least keep `.sql` files are newer than it. */
  lemma VictimsWithDistinctMtimes(d: Folder, listing: seq<string>, keep: nat, f: string)
    requires IsListing(listing, d)
    requires forall g, h :: g in SqlNames(d) && h in SqlNames(d) && g != h ==> d[g] != d[h]
    requires f in SqlNames(d)
    ensures f in Victims(d, listing, keep) <==> |Newer(d, f)| >= keep
  {
    VictimsByCounting(d, listing, keep, f);
    assert NotOlder(d, f) == Newer(d, f);
  }
}
