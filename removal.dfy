/** Removing from a list while a `for` loop walks over it. The loop strikes each element it visits
    that stands in the zone and removes it when the blow is lethal; the list iterator's index
    still advances, so the element just after a removed one is never visited. */
module Removal {

  /** What the walk does to the element at one original index. */
  datatype Fate = Untouched | Struck | Killed

  /** The fate of original element `k`. Element `k` is visited unless element `k - 1` was removed
      (then the shifted list puts `k` under the index just examined); a visited element in the
      zone is struck, and removed when the blow is lethal. */
  function FateAt(zone: seq<bool>, lethal: seq<bool>, k: int): Fate
    requires |zone| == |lethal| && 0 <= k < |zone|
  {
    if k > 0 && FateAt(zone, lethal, k - 1) == Killed then Untouched
    else if !zone[k] then Untouched
    else if lethal[k] then Killed
    else Struck
  }

  function Fates(zone: seq<bool>, lethal: seq<bool>): (f: seq<Fate>)
    requires |zone| == |lethal|
    ensures |f| == |zone|
    ensures forall k :: 0 <= k < |f| ==> f[k] == FateAt(zone, lethal, k)
  {
    seq(|zone|, k requires 0 <= k < |zone| => FateAt(zone, lethal, k))
  }

  /** The elements left in the list once the walk is over, in their original order. */
  function Survivors<T>(s: seq<T>, f: seq<Fate>): (r: seq<T>)
    requires |s| == |f|
    ensures |r| <= |s|
  {
    if |s| == 0 then []
    else Survivors(s[..|s| - 1], f[..|f| - 1]) + (if f[|f| - 1] == Killed then [] else [s[|s| - 1]])
  }

  /** The original indices of the survivors. */
  function Kept(f: seq<Fate>): (r: seq<int>)
    ensures forall m :: 0 <= m < |r| ==> 0 <= r[m] < |f| && f[r[m]] != Killed
    ensures forall m, m' :: 0 <= m < m' < |r| ==> r[m] < r[m']
    ensures forall k :: 0 <= k < |f| && f[k] != Killed ==> k in r
  {
    if |f| == 0 then []
    else Kept(f[..|f| - 1]) + (if f[|f| - 1] == Killed then [] else [|f| - 1])
  }

  /** How many elements the walk removes. */
  function KillCount(f: seq<Fate>): nat {
    if |f| == 0 then 0 else KillCount(f[..|f| - 1]) + (if f[|f| - 1] == Killed then 1 else 0)
  }

  /** The survivors are exactly the elements at the kept indices, in increasing index order: the
      walk keeps the relative order of what it does not remove and never adds anything. */
  lemma {:induction false} SurvivorsAreKept<T>(s: seq<T>, f: seq<Fate>)
    requires |s| == |f|
    ensures |Survivors(s, f)| == |Kept(f)| == |s| - KillCount(f)
    ensures forall m :: 0 <= m < |Kept(f)| ==> Survivors(s, f)[m] == s[Kept(f)[m]]
  {
    if |s| > 0 {
      var s', f' := s[..|s| - 1], f[..|f| - 1];
      SurvivorsAreKept(s', f');
      forall m | 0 <= m < |Kept(f')| ensures Survivors(s, f)[m] == s[Kept(f)[m]] {
        assert Survivors(s, f)[m] == Survivors(s', f')[m];
        assert Kept(f)[m] == Kept(f')[m];
      }
    }
  }

  /** With distinct elements, an element is left in the list exactly when it was there and was
      not removed. */
  lemma {:induction false} SurvivorMembership<T>(s: seq<T>, f: seq<Fate>, t: T)
    requires |s| == |f|
    requires Distinct(s)
    ensures t in Survivors(s, f) <==> exists k :: 0 <= k < |s| && s[k] == t && f[k] != Killed
  {
    if |s| > 0 {
      var s', f' := s[..|s| - 1], f[..|f| - 1];
      SurvivorMembership(s', f', t);
      if t in Survivors(s, f) && t !in Survivors(s', f') {
        assert t == s[|s| - 1] && f[|s| - 1] != Killed;
      }
      if exists k :: 0 <= k < |s| && s[k] == t && f[k] != Killed {
        var k :| 0 <= k < |s| && s[k] == t && f[k] != Killed;
        if k < |s| - 1 {
          assert s'[k] == t && f'[k] != Killed;
        }
      }
    }
  }

  /** No element twice. */
  ghost predicate Distinct<T>(s: seq<T>) {
    forall a, b :: 0 <= a < b < |s| ==> s[a] != s[b]
  }

  /** No element twice, counted: every element of the list occurs in it exactly once. */
  lemma {:induction false} DistinctCounts<T>(s: seq<T>)
    ensures Distinct(s) <==> forall x | x in s :: multiset(s)[x] == 1
    decreases |s|
  {
    if |s| > 0 {
      var s', last := s[..|s| - 1], s[|s| - 1];
      DistinctCounts(s');
      assert s == s' + [last];
      assert multiset(s) == multiset(s') + multiset{last};
      if Distinct(s) {
        assert Distinct(s');
        assert last !in s';
      }
      if forall x | x in s :: multiset(s)[x] == 1 {
        assert last in s;
        assert multiset(s')[last] == 0;
        forall x | x in s' ensures multiset(s')[x] == 1 {
          assert x in s;
        }
        forall a, b | 0 <= a < b < |s| ensures s[a] != s[b] {
          if b < |s| - 1 {
            assert s'[a] == s[a] && s'[b] == s[b];
          } else {
            assert s'[a] == s[a];
          }
        }
      }
    }
  }

  /** A joined list has no element twice exactly when neither part has and no element is in both. */
  lemma {:induction false} DistinctJoin<T>(a: seq<T>, b: seq<T>)
    ensures Distinct(a + b) <==>
            Distinct(a) && Distinct(b) && forall i, j :: 0 <= i < |a| && 0 <= j < |b| ==> a[i] != b[j]
  {
    if Distinct(a + b) {
      forall i, j | 0 <= i < j < |a| ensures a[i] != a[j] {
        assert (a + b)[i] == a[i] && (a + b)[j] == a[j];
      }
      forall i, j | 0 <= i < j < |b| ensures b[i] != b[j] {
        assert (a + b)[|a| + i] == b[i] && (a + b)[|a| + j] == b[j];
      }
      forall i, j | 0 <= i < |a| && 0 <= j < |b| ensures a[i] != b[j] {
        assert (a + b)[i] == a[i] && (a + b)[|a| + j] == b[j];
      }
    }
  }

  /** Parts drawn from two lists that hold no element twice between them hold none twice between
      them either, if neither part repeats an element; counted the same way. */
  lemma {:induction false} DistinctJoinOfParts<T>(a: seq<T>, b: seq<T>, a': seq<T>, b': seq<T>)
    requires forall x | x in a + b :: multiset(a + b)[x] == 1
    requires Distinct(a') && Distinct(b')
    requires forall k :: 0 <= k < |a'| ==> a'[k] in a
    requires forall k :: 0 <= k < |b'| ==> b'[k] in b
    ensures Distinct(a' + b') && forall x | x in a' + b' :: multiset(a' + b')[x] == 1
  {
    DistinctCounts(a + b);
    DistinctCounts(a' + b');
    DistinctJoin(a, b);
    DistinctJoin(a', b');
    forall i, j | 0 <= i < |a'| && 0 <= j < |b'| ensures a'[i] != b'[j] {
      var m :| 0 <= m < |a| && a[m] == a'[i];
      var n :| 0 <= n < |b| && b[n] == b'[j];
    }
  }

  /** The survivors of a list of distinct elements are distinct elements of the list. */
  lemma {:induction false} SurvivorsOfDistinct<T>(s: seq<T>, f: seq<Fate>)
    requires |s| == |f| && Distinct(s)
    ensures Distinct(Survivors(s, f))
    ensures forall t :: t in Survivors(s, f) ==> t in s
  {
    SurvivorsAreKept(s, f);
    var r := Survivors(s, f);
    forall a, b | 0 <= a < b < |r| ensures r[a] != r[b] {
      assert Kept(f)[a] < Kept(f)[b];
    }
    forall t | t in r ensures t in s {
      var m :| 0 <= m < |r| && r[m] == t;
      assert s[Kept(f)[m]] == t;
    }
  }

  /** The prefix form the walk's loop maintains: one more original index appends its element
      unless it was removed. */
  lemma {:induction false} SurvivorsPrefix<T>(s: seq<T>, f: seq<Fate>, k: int)
    requires |s| == |f| && 0 <= k < |s|
    ensures Survivors(s[..k + 1], f[..k + 1]) ==
            Survivors(s[..k], f[..k]) + (if f[k] == Killed then [] else [s[k]])
  {
    assert s[..k + 1][..k] == s[..k];
    assert f[..k + 1][..k] == f[..k];
  }

  /** The walk's loop state after original index `k`: the list holds the survivors of the first
      `k` elements followed by the elements not reached yet; the loop index `i` points at original
      element `k`, or past the end of the list once every element has been dealt with. */
  ghost predicate Walk<T>(s: seq<T>, f: seq<Fate>, k: int, list: seq<T>, i: int) {
    && |s| == |f| && 0 <= k <= |s|
    && list == Survivors(s[..k], f[..k]) + s[k..]
    && (k < |s| ==> i == |Survivors(s[..k], f[..k])| && (k > 0 ==> f[k - 1] != Killed))
    && (k == |s| ==> i >= |list|)
  }

  /** The walk starts on the whole list at index 0. */
  lemma {:induction false} WalkStart<T>(s: seq<T>, f: seq<Fate>)
    requires |s| == |f|
    ensures Walk(s, f, 0, s, 0)
  {
    assert s[..0] == [] && f[..0] == [] && s[0..] == s;
  }

  /** The loop goes on exactly while original elements are left, and then looks at the next one. */
  lemma {:induction false} WalkLooksAt<T>(s: seq<T>, f: seq<Fate>, k: int, list: seq<T>, i: int)
    requires Walk(s, f, k, list, i)
    ensures 0 <= i < |list| <==> k < |s|
    ensures k < |s| ==> list[i] == s[k]
    ensures k == |s| ==> list == Survivors(s, f)
  {
    if k < |s| {
      assert list[i] == s[k..][0];
    } else {
      assert s[..k] == s && f[..k] == f && s[k..] == [];
    }
  }

  /** An element that stays in the list: the index moves on to the next original element. */
  lemma {:induction false} WalkKeeps<T>(s: seq<T>, f: seq<Fate>, k: int, list: seq<T>, i: int)
    requires Walk(s, f, k, list, i) && k < |s| && f[k] != Killed
    ensures Walk(s, f, k + 1, list, i + 1)
  {
    SurvivorsPrefix(s, f, k);
    assert s[k..] == [s[k]] + s[k + 1..];
  }

  /** An element removed from the list: its successor shifts under the index just examined, so
      the next iteration looks at the element after that one, and the successor is left alone. */
  lemma {:induction false} WalkRemoves<T>(s: seq<T>, f: seq<Fate>, k: int, list: seq<T>, i: int)
    requires Walk(s, f, k, list, i) && k < |s| && f[k] == Killed
    requires k + 1 < |s| ==> f[k + 1] == Untouched
    ensures Walk(s, f, if k + 1 < |s| then k + 2 else k + 1, list[..i] + list[i + 1..], i + 1)
  {
    DropAt(Survivors(s[..k], f[..k]), s[k..], i);
    assert s[k..][1..] == s[k + 1..];
    SurvivorsPrefix(s, f, k);
    if k + 1 < |s| {
      SurvivorsPrefix(s, f, k + 1);
      assert s[k + 1..] == [s[k + 1]] + s[k + 2..];
    }
  }

  /** `list.remove` of the element at index `i`, the first one after the prefix `p`. */
  lemma {:induction false} DropAt<T>(p: seq<T>, rest: seq<T>, i: int)
    requires |p| == i && 0 < |rest|
    ensures (p + rest)[..i] + (p + rest)[i + 1..] == p + rest[1..]
  {
    assert (p + rest)[..i] == p;
    assert (p + rest)[i + 1..] == rest[1..];
  }

  /** Removal is exactly a visited, lethal blow; nothing outside the zone is touched. */
  lemma {:induction false} KilledMeansLethal(zone: seq<bool>, lethal: seq<bool>, k: int)
    requires |zone| == |lethal| && 0 <= k < |zone|
    ensures FateAt(zone, lethal, k) == Killed <==> FateAt(zone, lethal, k) != Untouched && lethal[k]
    ensures FateAt(zone, lethal, k) != Untouched ==> zone[k]
  {
  }

  /** The element right after a removed one is not visited, whatever its zone and health. */
  lemma {:induction false} SkipsAfterRemoval(zone: seq<bool>, lethal: seq<bool>, k: int)
    requires |zone| == |lethal| && 0 <= k < |zone| - 1
    requires FateAt(zone, lethal, k) == Killed
    ensures FateAt(zone, lethal, k + 1) == Untouched
  {
  }

  /** Two lethal targets side by side in the zone: the first is removed, the second is neither
      struck nor removed. */
  lemma {:induction false} AdjacentKillSkipsNext()
    ensures Fates([true, true], [true, true]) == [Killed, Untouched]
  {
    assert FateAt([true, true], [true, true], 0) == Killed;
  }

  /** Visited means: in the zone and not right after a removal. */
  lemma {:induction false} VisitedIff(zone: seq<bool>, lethal: seq<bool>, k: int)
    requires |zone| == |lethal| && 0 <= k < |zone|
    ensures FateAt(zone, lethal, k) != Untouched <==>
            zone[k] && (k == 0 || FateAt(zone, lethal, k - 1) != Killed)
  {
  }

  /** When no two elements of the zone are adjacent in the list, the skip never matters: every
      element in the zone is struck and every lethal one is removed. */
  lemma {:induction false} SparseZoneIsExact(zone: seq<bool>, lethal: seq<bool>, k: int)
    requires |zone| == |lethal| && 0 <= k < |zone|
    requires forall m :: 0 <= m < |zone| - 1 ==> !(zone[m] && zone[m + 1])
    ensures FateAt(zone, lethal, k) == (if !zone[k] then Untouched else if lethal[k] then Killed else Struck)
  {
    if k > 0 {
      SparseZoneIsExact(zone, lethal, k - 1);
    }
  }
}
