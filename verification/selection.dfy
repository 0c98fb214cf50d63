/** Choosing the weak and the strong areas from the curated contributions:
    a stable sort on the contribution, a sign filter, and a cut to a limit. */
module Selection {
  import opened Features
  import opened Attribution

  /** The sort key: the contribution itself for the ascending sort, its
      negation for the descending one (a stable sort in reverse order keeps
      equal keys in their original order, as an ascending sort on the negated
      key does). */
  function Key(x: Item, descending: bool): real {
    if descending then -x.value else x.value
  }

  /** a comes before b in the stable sort of curated entries: a smaller key,
      or an equal key and an earlier place in the curated list. */
  predicate Before(a: Item, b: Item, descending: bool) {
    || Key(a, descending) < Key(b, descending)
    || (Key(a, descending) == Key(b, descending) && CuratedRank(a.feature) < CuratedRank(b.feature))
  }

  predicate Ranked(s: seq<Item>, descending: bool) {
    forall i, j :: 0 <= i < j < |s| ==> Before(s[i], s[j], descending)
  }

  /** The entries are listed in curated order. */
  predicate RankIncreasing(s: seq<Item>) {
    forall i, j :: 0 <= i < j < |s| ==> CuratedRank(s[i].feature) < CuratedRank(s[j].feature)
  }

  /** Places x in front of the first element whose key is not smaller. */
  function Insert(x: Item, t: seq<Item>, descending: bool): (r: seq<Item>)
    ensures multiset(r) == multiset(t) + multiset{x}
    ensures forall y :: y in r <==> y == x || y in t
    decreases |t|
  {
    if t == [] then [x]
    else if Key(x, descending) <= Key(t[0], descending) then [x] + t
    else
      var rest := Insert(x, t[1..], descending);
      assert t == [t[0]] + t[1..];
      [t[0]] + rest
  }

  /** Insertion sort on the key; an element is inserted ahead of every later
      element with an equal key, which keeps the sort stable. */
  function Sort(s: seq<Item>, descending: bool): (r: seq<Item>)
    ensures multiset(r) == multiset(s)
    ensures |r| == |s|
    ensures forall y :: y in r <==> y in s
    decreases |s|
  {
    if s == [] then []
    else
      assert s == [s[0]] + s[1..];
      Insert(s[0], Sort(s[1..], descending), descending)
  }

  /** The first entry of a ranked sequence has the smallest key. */
  lemma RankedFirstSmallest(t: seq<Item>, descending: bool)
    requires Ranked(t, descending) && t != []
    ensures forall y :: y in t ==> Key(t[0], descending) <= Key(y, descending)
  {
    forall y | y in t ensures Key(t[0], descending) <= Key(y, descending) {
      var k :| 0 <= k < |t| && t[k] == y;
      if k > 0 {
        assert Before(t[0], t[k], descending);
      }
    }
  }

  lemma {:induction false} InsertRanked(x: Item, t: seq<Item>, descending: bool)
    requires Ranked(t, descending)
    requires forall y :: y in t ==> CuratedRank(x.feature) < CuratedRank(y.feature)
    ensures Ranked(Insert(x, t, descending), descending)
  {
    if t == [] {
    } else if Key(x, descending) <= Key(t[0], descending) {
      RankedFirstSmallest(t, descending);
      ConsRankedAny(x, t, descending);
    } else {
      var rest := Insert(x, t[1..], descending);
      RankedTail(t, descending);
      InsertRanked(x, t[1..], descending);
      RankedFirstSmallest(t, descending);
      forall y | y in rest ensures Before(t[0], y, descending) {
        if y != x {
          var k :| 0 <= k < |t[1..]| && t[1..][k] == y;
          assert t[k + 1] == y;
          assert Before(t[0], t[k + 1], descending);
        }
      }
      assert Insert(x, t, descending) == [t[0]] + rest;
      ConsRankedAny(t[0], rest, descending);
    }
  }

  /** An entry that comes before every entry of a ranked sequence can go in
      front of it. */
  lemma ConsRankedAny(x: Item, t: seq<Item>, descending: bool)
    requires Ranked(t, descending)
    requires forall y :: y in t ==> Before(x, y, descending)
    ensures Ranked([x] + t, descending)
  {
    var r := [x] + t;
    forall i, j | 0 <= i < j < |r| ensures Before(r[i], r[j], descending) {
      assert r[j] == t[j - 1] && r[j] in t;
      if i > 0 {
        assert r[i] == t[i - 1];
      }
    }
  }

  /** Sorting entries that are in curated order yields them ordered by key,
      ties in curated order. */
  lemma {:induction false} SortRanked(s: seq<Item>, descending: bool)
    requires RankIncreasing(s)
    ensures Ranked(Sort(s, descending), descending)
  {
    if s != [] {
      SortRanked(s[1..], descending);
      forall y | y in Sort(s[1..], descending)
        ensures CuratedRank(s[0].feature) < CuratedRank(y.feature)
      {
        var k :| 0 <= k < |s[1..]| && s[1..][k] == y;
        assert s[k + 1] == y;
      }
      InsertRanked(s[0], Sort(s[1..], descending), descending);
    }
  }

  lemma RankedTail(a: seq<Item>, descending: bool)
    requires Ranked(a, descending) && a != []
    ensures Ranked(a[1..], descending)
  {
    forall i, j | 0 <= i < j < |a[1..]| ensures Before(a[1..][i], a[1..][j], descending) {
      assert Before(a[i + 1], a[j + 1], descending);
    }
  }

  /** Two ranked arrangements of the same entries start with the same entry. */
  lemma RankedHeads(a: seq<Item>, b: seq<Item>, descending: bool)
    requires Ranked(a, descending) && Ranked(b, descending)
    requires multiset(a) == multiset(b) && a != []
    ensures b != [] && a[0] == b[0]
  {
    assert |b| == |multiset(b)| == |multiset(a)| == |a|;
    assert a[0] in multiset(b);
    assert b[0] in multiset(a);
    var i :| 0 <= i < |b| && b[i] == a[0];
    var j :| 0 <= j < |a| && a[j] == b[0];
    assert i == 0 || Before(b[0], a[0], descending);
    assert j == 0 || Before(a[0], b[0], descending);
  }

  /** Two ranked arrangements of the same entries are the same sequence. */
  lemma {:induction false} RankedUnique(a: seq<Item>, b: seq<Item>, descending: bool)
    requires Ranked(a, descending) && Ranked(b, descending)
    requires multiset(a) == multiset(b)
    ensures a == b
  {
    if a == [] {
      assert |b| == |multiset(b)| == 0;
    } else {
      RankedHeads(a, b, descending);
      assert a == [a[0]] + a[1..];
      assert b == [b[0]] + b[1..];
      assert multiset(a[1..]) == multiset(a) - multiset{a[0]};
      assert multiset(b[1..]) == multiset(b) - multiset{b[0]};
      RankedTail(a, descending);
      RankedTail(b, descending);
      RankedUnique(a[1..], b[1..], descending);
    }
  }

  /** Any stable sort of entries given in curated order, that is any ranked
      permutation of them, is exactly Sort. */
  lemma StableSortIsSort(s: seq<Item>, r: seq<Item>, descending: bool)
    requires RankIncreasing(s)
    requires multiset(r) == multiset(s) && Ranked(r, descending)
    ensures r == Sort(s, descending)
  {
    SortRanked(s, descending);
    RankedUnique(r, Sort(s, descending), descending);
  }

  /** Keeps the entries whose key is negative: the negative contributions
      for the ascending sort, the positive ones for the descending sort. */
  function KeepNegative(s: seq<Item>, descending: bool): (r: seq<Item>)
    ensures forall y :: y in r <==> y in s && Key(y, descending) < 0.0
    decreases |s|
  {
    if s == [] then []
    else (if Key(s[0], descending) < 0.0 then [s[0]] else []) + KeepNegative(s[1..], descending)
  }

  lemma {:induction false} KeepRanked(s: seq<Item>, descending: bool)
    requires Ranked(s, descending)
    ensures Ranked(KeepNegative(s, descending), descending)
  {
    if s != [] {
      forall i, j | 0 <= i < j < |s[1..]| ensures Before(s[1..][i], s[1..][j], descending) {
        assert Before(s[i + 1], s[j + 1], descending);
      }
      KeepRanked(s[1..], descending);
      var rest := KeepNegative(s[1..], descending);
      if Key(s[0], descending) < 0.0 {
        var r := [s[0]] + rest;
        forall i, j | 0 <= i < j < |r| ensures Before(r[i], r[j], descending) {
          assert r[j] == rest[j - 1];
          if i == 0 {
            assert r[j] in s[1..];
            var k :| 0 <= k < |s[1..]| && s[1..][k] == r[j];
            assert s[k + 1] == r[j];
          } else {
            assert r[i] == rest[i - 1];
          }
        }
      } else {
        assert KeepNegative(s, descending) == rest;
      }
    }
  }

  /** The feature names of a list of entries. */
  function Names(s: seq<Item>): seq<Feature> {
    seq(|s|, i requires 0 <= i < |s| => s[i].feature)
  }

  /** The contribution of f, negated for the descending selection. */
  function SignedContrib(fc: map<Feature, real>, f: Feature, descending: bool): real
    requires f in fc
  {
    if descending then -fc[f] else fc[f]
  }

  /** The curated entries on the wanted side of zero, in sorted order. */
  function Kept(fc: map<Feature, real>, descending: bool): seq<Item>
    requires forall f :: f in Curated ==> f in fc
  {
    KeepNegative(Sort(ContribFiltered(fc), descending), descending)
  }

  lemma KeptSpec(fc: map<Feature, real>, descending: bool)
    requires forall f :: f in Curated ==> f in fc
    ensures Ranked(Kept(fc, descending), descending)
    ensures forall y :: y in Kept(fc, descending) ==>
              && y.feature in Curated
              && y.value == fc[y.feature]
              && SignedContrib(fc, y.feature, descending) == Key(y, descending) < 0.0
    ensures forall f :: f in Curated && SignedContrib(fc, f, descending) < 0.0 ==>
              Item(f, fc[f]) in Kept(fc, descending)
  {
    var items := ContribFiltered(fc);
    SortRanked(items, descending);
    KeepRanked(Sort(items, descending), descending);
  }

  /** Sort the curated contributions, keep those on the wanted side of zero,
      and take the names of at most `limit` of them. */
  function Select(fc: map<Feature, real>, descending: bool, limit: nat): seq<Feature>
    requires forall f :: f in Curated ==> f in fc
  {
    var kept := Kept(fc, descending);
    Names(kept[..Min(limit, |kept|)])
  }

  /** The selection is the features of the first `limit` kept entries. */
  lemma SelectPrefix(fc: map<Feature, real>, descending: bool, limit: nat)
    requires forall f :: f in Curated ==> f in fc
    ensures |Select(fc, descending, limit)| == Min(limit, |Kept(fc, descending)|)
    ensures forall i :: 0 <= i < |Select(fc, descending, limit)| ==>
              Select(fc, descending, limit)[i] == Kept(fc, descending)[i].feature
  {
  }

  /** What is selected is within the limit, on the wanted side of zero, and
      ordered by signed contribution with ties in curated order. */
  lemma SelectSound(fc: map<Feature, real>, descending: bool, limit: nat)
    requires forall f :: f in Curated ==> f in fc
    ensures |Select(fc, descending, limit)| <= limit
    ensures forall i :: 0 <= i < |Select(fc, descending, limit)| ==>
              && Select(fc, descending, limit)[i] in Curated
              && SignedContrib(fc, Select(fc, descending, limit)[i], descending) < 0.0
    ensures forall i, j :: 0 <= i < j < |Select(fc, descending, limit)| ==>
              var a, b := Select(fc, descending, limit)[i], Select(fc, descending, limit)[j];
              || SignedContrib(fc, a, descending) < SignedContrib(fc, b, descending)
              || (SignedContrib(fc, a, descending) == SignedContrib(fc, b, descending) && CuratedRank(a) < CuratedRank(b))
  {
    var kept := Kept(fc, descending);
    KeptSpec(fc, descending);
    SelectPrefix(fc, descending, limit);
    var r := Select(fc, descending, limit);
    forall i | 0 <= i < |r|
      ensures r[i] in Curated && SignedContrib(fc, r[i], descending) < 0.0
    {
      assert r[i] == kept[i].feature;
      assert kept[i] in kept;
    }
    forall i, j | 0 <= i < j < |r|
      ensures || SignedContrib(fc, r[i], descending) < SignedContrib(fc, r[j], descending)
              || (SignedContrib(fc, r[i], descending) == SignedContrib(fc, r[j], descending) && CuratedRank(r[i]) < CuratedRank(r[j]))
    {
      assert kept[i] in kept && kept[j] in kept;
      assert Before(kept[i], kept[j], descending);
    }
  }

  /** A curated feature on the wanted side of zero is left out only when the
      limit is reached and every selected feature is at least as far from
      zero as it is. */
  lemma SelectMaximal(fc: map<Feature, real>, descending: bool, limit: nat, f: Feature)
    requires forall g :: g in Curated ==> g in fc
    requires f in Curated && SignedContrib(fc, f, descending) < 0.0
    requires f !in Select(fc, descending, limit)
    ensures |Select(fc, descending, limit)| == limit
    ensures forall i :: 0 <= i < |Select(fc, descending, limit)| ==>
              && Select(fc, descending, limit)[i] in Curated
              && SignedContrib(fc, Select(fc, descending, limit)[i], descending) <= SignedContrib(fc, f, descending)
  {
    SelectSound(fc, descending, limit);
    var kept := Kept(fc, descending);
    KeptSpec(fc, descending);
    SelectPrefix(fc, descending, limit);
    var m := Min(limit, |kept|);
    var r := Select(fc, descending, limit);
    var y := Item(f, fc[f]);
    assert y in kept;
    var j :| 0 <= j < |kept| && kept[j] == y;
    assert forall i :: 0 <= i < m ==> r[i] == kept[i].feature;
    assert m <= j;
    forall i | 0 <= i < |r|
      ensures SignedContrib(fc, r[i], descending) <= SignedContrib(fc, f, descending)
    {
      assert kept[i] in kept;
      assert Before(kept[i], kept[j], descending);
    }
  }

  /** Nothing is selected exactly when no curated feature is on the wanted
      side of zero. */
  lemma SelectEmpty(fc: map<Feature, real>, descending: bool, limit: nat)
    requires forall g :: g in Curated ==> g in fc
    requires limit > 0
    ensures Select(fc, descending, limit) == [] <==>
              forall f :: f in Curated ==> SignedContrib(fc, f, descending) >= 0.0
  {
    SelectSound(fc, descending, limit);
    if Select(fc, descending, limit) == [] {
      forall f | f in Curated ensures SignedContrib(fc, f, descending) >= 0.0 {
        if SignedContrib(fc, f, descending) < 0.0 {
          SelectMaximal(fc, descending, limit, f);
        }
      }
    } else {
      var f := Select(fc, descending, limit)[0];
      assert f in Curated && SignedContrib(fc, f, descending) < 0.0;
    }
  }

  /** The areas to improve: at most three curated features with a negative
      contribution, most negative first, ties in curated order. A negative
      curated feature is left out only when three are already chosen and
      none of them is less negative than it. */
  function WeakAreas(fc: map<Feature, real>): (r: seq<Feature>)
    requires forall f :: f in Curated ==> f in fc
    ensures |r| <= 3
    ensures forall i :: 0 <= i < |r| ==> r[i] in Curated && fc[r[i]] < 0.0
    ensures forall i, j :: 0 <= i < j < |r| ==>
              fc[r[i]] < fc[r[j]] || (fc[r[i]] == fc[r[j]] && CuratedRank(r[i]) < CuratedRank(r[j]))
    ensures Distinct(r)
    ensures forall f :: f in Curated && fc[f] < 0.0 && f !in r ==>
              |r| == 3 && forall i :: 0 <= i < |r| ==> fc[r[i]] <= fc[f]
    ensures r == [] <==> forall f :: f in Curated ==> fc[f] >= 0.0
  {
    SelectSound(fc, false, 3);
    SelectEmpty(fc, false, 3);
    forall f | f in Curated && fc[f] < 0.0 && f !in Select(fc, false, 3) {
      SelectMaximal(fc, false, 3, f);
    }
    Select(fc, false, 3)
  }

  /** The strengths: at most two curated features with a positive
      contribution, most positive first, ties in curated order. A positive
      curated feature is left out only when two are already chosen and none
      of them is less positive than it. */
  function StrongAreas(fc: map<Feature, real>): (r: seq<Feature>)
    requires forall f :: f in Curated ==> f in fc
    ensures |r| <= 2
    ensures forall i :: 0 <= i < |r| ==> r[i] in Curated && fc[r[i]] > 0.0
    ensures forall i, j :: 0 <= i < j < |r| ==>
              fc[r[i]] > fc[r[j]] || (fc[r[i]] == fc[r[j]] && CuratedRank(r[i]) < CuratedRank(r[j]))
    ensures Distinct(r)
    ensures forall f :: f in Curated && fc[f] > 0.0 && f !in r ==>
              |r| == 2 && forall i :: 0 <= i < |r| ==> fc[r[i]] >= fc[f]
    ensures r == [] <==> forall f :: f in Curated ==> fc[f] <= 0.0
  {
    SelectSound(fc, true, 2);
    SelectEmpty(fc, true, 2);
    forall f | f in Curated && fc[f] > 0.0 && f !in Select(fc, true, 2) {
      SelectMaximal(fc, true, 2, f);
    }
    Select(fc, true, 2)
  }

  /** No feature is both an area to improve and a strength. */
  lemma WeakStrongDisjoint(fc: map<Feature, real>)
    requires forall g :: g in Curated ==> g in fc
    ensures forall i, j :: 0 <= i < |WeakAreas(fc)| && 0 <= j < |StrongAreas(fc)| ==>
              WeakAreas(fc)[i] != StrongAreas(fc)[j]
  {
  }
}
