/** Which backup copies a prune keeps (backup.py): the newest daily ones, the
    newest Sunday ones, and every copy from before a fixed day. A copy is its UTC
    day number. */
module Retention {
  import opened SortedSets

  /** 2026-09-14 */
  const PRUNE_FROM := 20710

  /** Day 0 was a Thursday. */
  predicate Sunday(d: int) { d % 7 == 3 }

  /** Day 0 is a Thursday, the first of January 1970: the third day after it, and every
      seventh from there. */
  lemma SundayIs(d: int)
    ensures Sunday(d) <==> exists weeks :: d == 3 + 7 * weeks
  {
    if Sunday(d) { assert d == 3 + 7 * (d / 7); }
  }

  /** The fourteenth of September 2026: fifty-six years, fourteen leap days, eight months and
      thirteen days on. */
  lemma PruneFromIs()
    ensures PRUNE_FROM == 56 * 365 + 14 + (31 + 28 + 31 + 30 + 31 + 30 + 31 + 31) + 13
  {}

  function Above(s: set<int>, d: int): set<int> { set e | e in s && e > d }

  function Rank(s: set<int>, d: int): nat { |Above(s, d)| }

  function Sundays(s: set<int>): set<int> { set e | e in s && Sunday(e) }

  predicate Kept(s: set<int>, daily: nat, weekly: nat, d: int) {
    d < PRUNE_FROM || Rank(s, d) < daily || (Sunday(d) && Rank(Sundays(s), d) < weekly)
  }

  /** The copies that survive a prune of s. */
  function Pruned(s: set<int>, daily: nat, weekly: nat): set<int> {
    set d | d in s && Kept(s, daily, weekly, d)
  }

  // ---- ranks ----

  function Top(s: set<int>, k: nat): set<int> { set e | e in s && Rank(s, e) < k }

  lemma SubsetSize(a: set<int>, b: set<int>)
    requires a <= b
    ensures |a| <= |b|
  {
    assert b == a + (b - a);
  }

  lemma RankMonotone(a: set<int>, b: set<int>, d: int)
    requires a <= b
    ensures Rank(a, d) <= Rank(b, d)
  {
    SubsetSize(Above(a, d), Above(b, d));
  }

  lemma {:induction false} Least(s: set<int>) returns (m: int)
    requires s != {}
    ensures m in s && forall e :: e in s ==> m <= e
    decreases |s|
  {
    NonEmpty(s);
    m :| m in s;
    var rest := s - {m};
    if rest != {} {
      var n := Least(rest);
      if n < m { m := n; }
      assert forall e :: e in s ==> e in rest || e == m || n <= e;
    }
  }

  /** The top k of a set number k, or all of it. */
  lemma {:induction false} TopSize(s: set<int>, k: nat)
    ensures |Top(s, k)| == if k < |s| then k else |s|
    decreases |s|
  {
    if s == {} {
      assert Top(s, k) == {};
    } else {
      var m := Least(s);
      var rest := s - {m};
      TopSize(rest, k);
      assert Above(s, m) == rest;
      forall e | e in rest
        ensures Rank(s, e) == Rank(rest, e)
      {
        assert Above(s, e) == Above(rest, e);
      }
      assert Top(s, k) == Top(rest, k) + (if |rest| < k then {m} else {});
    }
  }

  /** Being in the top k does not change when only others outside it are gone. */
  lemma TopStable(small: set<int>, big: set<int>, k: nat, d: int)
    requires small <= big && Top(big, k) <= small && d in big
    ensures Rank(small, d) < k <==> Rank(big, d) < k
  {
    RankMonotone(small, big, d);
    if k <= Rank(big, d) {
      TopSize(big, k);
      SubsetSize(Above(big, d), big);
      forall e | e in Top(big, k)
        ensures e in Above(small, d)
      {
        if e <= d { SubsetSize(Above(big, d), Above(big, e)); }
      }
      SubsetSize(Top(big, k), Above(small, d));
    }
  }

  // ---- the laws ----

  lemma KeptSurvive(s: set<int>, x: int, daily: nat, weekly: nat)
    ensures Top(s + {x}, daily) <= Pruned(s, daily, weekly) + {x}
    ensures Top(Sundays(s + {x}), weekly) <= Sundays(Pruned(s, daily, weekly) + {x})
  {
    forall e | e in s
      ensures Rank(s, e) <= Rank(s + {x}, e)
      ensures Rank(Sundays(s), e) <= Rank(Sundays(s + {x}), e)
    {
      RankMonotone(s, s + {x}, e);
      RankMonotone(Sundays(s), Sundays(s + {x}), e);
    }
  }

  /** Pruning before a new copy arrives changes nothing: what survives is one
      prune of everything. */
  lemma PruneThenAdd(s: set<int>, x: int, daily: nat, weekly: nat)
    ensures Pruned(Pruned(s, daily, weekly) + {x}, daily, weekly) == Pruned(s + {x}, daily, weekly)
  {
    var small, big := Pruned(s, daily, weekly) + {x}, s + {x};
    KeptSurvive(s, x, daily, weekly);
    forall d | d in big
      ensures d in Pruned(big, daily, weekly) ==> d in small
      ensures Kept(small, daily, weekly, d) <==> Kept(big, daily, weekly, d)
    {
      TopStable(small, big, daily, d);
      if Sunday(d) { TopStable(Sundays(small), Sundays(big), weekly, d); }
      RankMonotone(s, big, d);
      RankMonotone(Sundays(s), Sundays(big), d);
    }
  }

  function AllOf(days: seq<int>): set<int> {
    if days == [] then {} else AllOf(days[..|days| - 1]) + {days[|days| - 1]}
  }

  /** One copy a day, each followed by a prune. */
  function Nightly(start: set<int>, days: seq<int>, daily: nat, weekly: nat): set<int> {
    if days == [] then start
    else Pruned(Nightly(start, days[..|days| - 1], daily, weekly) + {days[|days| - 1]}, daily, weekly)
  }

  /** After any number of nights the survivors are one prune of all copies ever. */
  lemma {:induction false} NightlyIsOnePrune(start: set<int>, days: seq<int>, daily: nat, weekly: nat)
    requires days != []
    ensures Nightly(start, days, daily, weekly) == Pruned(start + AllOf(days), daily, weekly)
  {
    var init, x := days[..|days| - 1], days[|days| - 1];
    if init == [] {
      assert start + AllOf(days) == start + {x};
    } else {
      NightlyIsOnePrune(start, init, daily, weekly);
      PruneThenAdd(start + AllOf(init), x, daily, weekly);
      assert start + AllOf(init) + {x} == start + AllOf(days);
    }
  }

  /** The newest copy always survives when at least one daily is kept. */
  lemma NewestSurvives(s: set<int>, newest: int, daily: nat, weekly: nat)
    requires daily >= 1 && newest in s && forall d :: d in s ==> d <= newest
    ensures newest in Pruned(s, daily, weekly)
  {
    assert Above(s, newest) == {};
  }

  /** Apart from the protected copies at most daily + weekly survive, and as many
      as there are when fewer. */
  lemma SurvivorsBounded(s: set<int>, daily: nat, weekly: nat)
    ensures |set d | d in Pruned(s, daily, weekly) && d >= PRUNE_FROM| <= daily + weekly
    ensures |Pruned(s, daily, weekly)| >= if daily < |s| then daily else |s|
  {
    var loose := set d | d in Pruned(s, daily, weekly) && d >= PRUNE_FROM;
    var top, tops := Top(s, daily), Top(Sundays(s), weekly);
    TopSize(s, daily);
    TopSize(Sundays(s), weekly);
    assert loose <= top + tops;
    SubsetSize(loose, top + tops);
    assert top <= Pruned(s, daily, weekly);
    SubsetSize(top, Pruned(s, daily, weekly));
  }

  // ---- the prune in place ----

  lemma AboveNext(s: seq<int>, all: set<int>, i: nat)
    requires Increasing(s) && i + 1 < |s| && forall d :: d in all <==> d in s
    ensures Above(all, s[i]) == Above(all, s[i + 1]) + {s[i + 1]}
  {
    forall e | e in Above(all, s[i])
      ensures e == s[i + 1] || e in Above(all, s[i + 1])
    {
      var j :| 0 <= j < |s| && s[j] == e;
    }
  }

  /** In a sorted listing the rank is the number of places after it. */
  lemma {:induction false} RankInOrder(s: seq<int>, all: set<int>, i: nat)
    requires Increasing(s) && i < |s| && forall d :: d in all <==> d in s
    ensures Rank(all, s[i]) == |s| - 1 - i
    decreases |s| - i
  {
    if i == |s| - 1 {
      assert Above(all, s[i]) == {};
    } else {
      RankInOrder(s, all, i + 1);
      AboveNext(s, all, i);
    }
  }

  /** s[max(0, len(s) - k):] */
  function Last(s: seq<int>, k: nat): seq<int> { s[if k < |s| then |s| - k else 0..] }

  class BackupDir {
    var copies: set<int>

    constructor (copies: set<int>)
      ensures this.copies == copies
    {
      this.copies := copies;
    }

    /** The dated copies, oldest first. */
    method Listing() returns (s: seq<int>)
      ensures Increasing(s) && forall d :: d in s <==> d in copies
    {
      s := Listed(copies);
    }

    method SundayFiles(files: seq<int>) returns (sundays: seq<int>)
      requires Increasing(files)
      ensures Increasing(sundays) && forall d :: d in sundays <==> d in files && Sunday(d)
    {
      sundays := [];
      for i := 0 to |files|
        invariant Increasing(sundays) && forall d :: d in sundays <==> d in files[..i] && Sunday(d)
      {
        assert files[..i + 1] == files[..i] + [files[i]];
        if Sunday(files[i]) {
          assert forall k :: 0 <= k < |sundays| ==> sundays[k] in sundays;
          sundays := sundays + [files[i]];
        }
      }
      assert files[..|files|] == files;
    }

    /** Delete what is neither among the newest, nor protected. */
    method Prune(daily: nat, weekly: nat) returns (deleted: seq<int>)
      modifies this
      ensures copies == Pruned(old(copies), daily, weekly)
      ensures Increasing(deleted) && forall d :: d in deleted <==> d in old(copies) && d !in copies
    {
      var files := Listing();
      var sundays := SundayFiles(files);
      var dailies := Last(files, daily);
      var weeklies := Last(sundays, weekly);
      var keep := (set d | d in dailies) + (set d | d in weeklies);
      assert (set d | d in dailies) == Top(copies, daily) by { KeepIsTop(files, copies, daily); }
      assert (set d | d in weeklies) == Top(Sundays(copies), weekly) by {
        KeepIsTop(sundays, Sundays(copies), weekly);
      }
      deleted := Unlink(files, keep);
      DeletedLeavesPruned(old(copies), daily, weekly, set d | d in deleted);
    }

    /** The deletion loop: every listed copy that is not kept and not protected. */
    method Unlink(files: seq<int>, keep: set<int>) returns (deleted: seq<int>)
      requires Increasing(files)
      modifies this
      ensures forall d :: d in deleted <==> d in files && d !in keep && d >= PRUNE_FROM
      ensures Increasing(deleted) && copies == old(copies) - (set d | d in deleted)
    {
      deleted := [];
      for i := 0 to |files|
        invariant Increasing(deleted) && forall k :: 0 <= k < |deleted| ==> deleted[k] in files[..i]
        invariant forall d :: d in deleted <==> d in files[..i] && d !in keep && d >= PRUNE_FROM
        invariant copies == old(copies) - (set d | d in deleted)
      {
        assert files[..i + 1] == files[..i] + [files[i]];
        if files[i] !in keep && files[i] >= PRUNE_FROM {
          copies := copies - {files[i]};
          deleted := deleted + [files[i]];
        }
      }
      assert files[..|files|] == files;
    }
  }

  lemma DeletedLeavesPruned(s: set<int>, daily: nat, weekly: nat, gone: set<int>)
    requires var keep := Top(s, daily) + Top(Sundays(s), weekly); forall d :: d in gone <==> d in s && d !in keep && d >= PRUNE_FROM
    ensures s - gone == Pruned(s, daily, weekly)
  {
    forall d | d in s
      ensures d in gone <==> !Kept(s, daily, weekly, d)
    {
      assert d in Top(s, daily) + Top(Sundays(s), weekly) <==> Rank(s, d) < daily || (Sunday(d) && Rank(Sundays(s), d) < weekly);
    }
  }

  /** The last k of a sorted listing are the top k. */
  lemma KeepIsTop(s: seq<int>, all: set<int>, k: nat)
    requires Increasing(s) && forall d :: d in all <==> d in s
    ensures forall d :: d in Last(s, k) <==> d in all && Rank(all, d) < k
  {
    var from := if k < |s| then |s| - k else 0;
    forall d | d in all
      ensures d in s[from..] <==> Rank(all, d) < k
    {
      var i :| 0 <= i < |s| && s[i] == d;
      RankInOrder(s, all, i);
      if i >= from { assert s[from..][i - from] == d; }
      if d in s[from..] { var j :| 0 <= j < |s| - from && s[from..][j] == d; assert s[from + j] == d; }
    }
  }
}
