/** The sub-category view: group totals sorted by value, largest first, and
    cut to the first ten (`sort_values("Profit", ascending=False).head(10)`). */
module Ranking {
  import opened Aggregation

  /** How many groups `head` keeps. */
  const TopCount: nat := 10

  predicate NonIncreasing(s: seq<Group>)
  {
    forall i, j :: 0 <= i < j < |s| ==> s[i].total >= s[j].total
  }

  /** Places `g` in a list sorted largest first, ahead of the first entry it is not below. */
  function Insert(g: Group, s: seq<Group>): (r: seq<Group>)
    ensures multiset(r) == multiset(s) + multiset{g}
    decreases |s|
  {
    if s == [] || g.total >= s[0].total then
      [g] + s
    else
      assert s == [s[0]] + s[1..];
      [s[0]] + Insert(g, s[1..])
  }

  lemma {:induction false} InsertSorted(g: Group, s: seq<Group>)
    requires NonIncreasing(s)
    ensures NonIncreasing(Insert(g, s))
    decreases |s|
  {
    if s != [] && g.total < s[0].total {
      var rest := Insert(g, s[1..]);
      InsertSorted(g, s[1..]);
      forall k | 0 <= k < |rest|
        ensures s[0].total >= rest[k].total
      {
        assert rest[k] in multiset(rest);
        if rest[k] != g {
          assert rest[k] in multiset(s[1..]);
          var m :| 0 <= m < |s[1..]| && s[1..][m] == rest[k];
          assert s[m + 1] == rest[k];
        }
      }
      assert Insert(g, s) == [s[0]] + rest;
    }
  }

  /** The groups sorted by total, largest first. Ties keep no promised order:
      pandas' default quicksort is not stable. */
  function SortDescending(gs: seq<Group>): (r: seq<Group>)
    ensures NonIncreasing(r)
    ensures multiset(r) == multiset(gs)
    decreases |gs|
  {
    if gs == [] then []
    else
      assert gs == [gs[0]] + gs[1..];
      InsertSorted(gs[0], SortDescending(gs[1..]));
      Insert(gs[0], SortDescending(gs[1..]))
  }

  /** The ten groups with the largest totals (fewer when there are fewer). */
  function Top(gs: seq<Group>): seq<Group>
  {
    var sorted := SortDescending(gs);
    sorted[..if |sorted| < TopCount then |sorted| else TopCount]
  }

  /** A prefix of a list sorted largest first is sorted too, and is part of it. */
  lemma PrefixSorted(s: seq<Group>, n: nat)
    requires NonIncreasing(s) && n <= |s|
    ensures NonIncreasing(s[..n])
    ensures multiset(s[..n]) <= multiset(s)
  {
    assert s == s[..n] + s[n..];
  }

  /** In a list sorted largest first, an entry beyond the first `n` is no
      larger than the n-th. */
  lemma BeyondPrefix(s: seq<Group>, n: nat, g: Group)
    requires NonIncreasing(s) && n <= |s|
    requires g in s && g !in s[..n]
    ensures 0 < n ==> g.total <= s[n - 1].total
    ensures n < |s|
  {
    var j :| 0 <= j < |s| && s[j] == g;
    assert j >= n;
  }

  /** The view is as long as it can be up to ten, sorted largest first, made of
      the input's groups, and every group left out has a total no greater than
      the last one shown. */
  lemma TopSpec(gs: seq<Group>)
    ensures var t := Top(gs);
      && |t| == (if |gs| < TopCount then |gs| else TopCount)
      && NonIncreasing(t)
      && multiset(t) <= multiset(gs)
      && forall g :: g in gs && g !in t ==> 0 < |t| && g.total <= t[|t| - 1].total
  {
    var sorted := SortDescending(gs);
    var n := if |sorted| < TopCount then |sorted| else TopCount;
    var t := Top(gs);
    assert |sorted| == |multiset(gs)| == |gs|;
    PrefixSorted(sorted, n);
    forall g | g in gs && g !in t
      ensures 0 < |t| && g.total <= t[|t| - 1].total
    {
      assert g in multiset(sorted);
      BeyondPrefix(sorted, n, g);
    }
  }

  /** Every group the view shows is one of the input's groups. */
  lemma TopMembers(gs: seq<Group>, x: Group)
    requires x in Top(gs)
    ensures x in gs
  {
    TopSpec(gs);
    assert x in multiset(Top(gs));
  }
}
