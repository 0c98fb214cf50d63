/** Per-feature contributions to the linear decision score: the scaled value
    of each column times the classifier's coefficient for that column. */
module Attribution {
  import opened Features

  /** One entry of the curated contribution dictionary. */
  datatype Item = Item(feature: Feature, value: real)

  function Min(a: nat, b: nat): nat {
    if a <= b then a else b
  }

  /** Element-wise product of two equally long vectors. */
  function Contributions(scaled: seq<real>, coef: seq<real>): (c: seq<real>)
    requires |scaled| == |coef|
    ensures |c| == |scaled|
    ensures forall i :: 0 <= i < |c| ==> c[i] == scaled[i] * coef[i]
  {
    seq(|scaled|, i requires 0 <= i < |scaled| => scaled[i] * coef[i])
  }

  /** The dictionary built from pairing keys with values position by position:
      pairing stops at the shorter sequence, and a key that occurs again
      later takes the later value. */
  function Zip(ks: seq<Feature>, vs: seq<real>): (m: map<Feature, real>)
    ensures forall i :: 0 <= i < |ks| && i < |vs| ==> ks[i] in m
    ensures forall k :: k in m ==> k in ks[..Min(|ks|, |vs|)]
    ensures Distinct(ks) ==> forall i :: 0 <= i < |ks| && i < |vs| ==> m[ks[i]] == vs[i]
    decreases |ks|
  {
    if |ks| == 0 || |vs| == 0 then map[]
    else
      var rest := Zip(ks[1..], vs[1..]);
      assert ks[..Min(|ks|, |vs|)] == [ks[0]] + ks[1..][..Min(|ks[1..]|, |vs[1..]|)];
      if ks[0] in rest then rest else rest[ks[0] := vs[0]]
  }

  /** The contribution dictionary over all 25 columns: every feature is a key,
      and its contribution is the product at that feature's column index. */
  function FeatureContrib(scaled: seq<real>, coef: seq<real>): (fc: map<Feature, real>)
    requires |scaled| == |FeatureColumns| && |coef| == |FeatureColumns|
    ensures forall f: Feature :: f in fc && fc[f] == scaled[ColumnIndex(f)] * coef[ColumnIndex(f)]
  {
    var m := Zip(FeatureColumns, Contributions(scaled, coef));
    ZipByColumn(scaled, coef);
    m
  }

  lemma ZipByColumn(scaled: seq<real>, coef: seq<real>)
    requires |scaled| == |FeatureColumns| && |coef| == |FeatureColumns|
    ensures forall f: Feature ::
              && f in Zip(FeatureColumns, Contributions(scaled, coef))
              && Zip(FeatureColumns, Contributions(scaled, coef))[f] == scaled[ColumnIndex(f)] * coef[ColumnIndex(f)]
  {
    var c := Contributions(scaled, coef);
    var m := Zip(FeatureColumns, c);
    ColumnsAreSchema();
    forall f: Feature ensures f in m && m[f] == scaled[ColumnIndex(f)] * coef[ColumnIndex(f)] {
      var i := ColumnIndex(f);
      assert FeatureColumns[i] == f;
      assert m[FeatureColumns[i]] == c[i];
    }
  }

  /** The contributions restricted to the curated features: one entry per
      curated feature with its contribution, listed in curated order (the
      order the sort later sees them in). */
  function ContribFiltered(fc: map<Feature, real>): (items: seq<Item>)
    requires forall f :: f in Curated ==> f in fc
    ensures forall i, j :: 0 <= i < j < |items| ==> CuratedRank(items[i].feature) < CuratedRank(items[j].feature)
    ensures forall y: Item :: y in items <==> y.feature in Curated && y.value == fc[y.feature]
  {
    CuratedInSchema();
    var items := seq(|Curated|, i requires 0 <= i < |Curated| => Item(Curated[i], fc[Curated[i]]));
    forall y: Item | y.feature in Curated && y.value == fc[y.feature]
      ensures y in items
    {
      assert items[CuratedRank(y.feature)] == y;
    }
    items
  }
}
