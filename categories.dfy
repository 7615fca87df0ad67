/** The sidebar's category list (`list(df.Category.unique())`) and the
    category filter (`df[df.Category == selected_category]`). */
module Categories {
  import opened Table
  import opened FillNa

  /** `df.Category` as a sequence. */
  function CategoryColumn(rows: seq<Txn>): (c: seq<Option<Label>>)
    ensures |c| == |rows|
    ensures forall i :: 0 <= i < |rows| ==> c[i] == rows[i].category
  {
    seq(|rows|, i requires 0 <= i < |rows| => rows[i].category)
  }

  /** `Series.unique()`: each distinct value once, in the order of its first
      occurrence. NaN is a value of its own and is kept once. */
  function Unique(s: seq<Option<Label>>): (u: seq<Option<Label>>)
    ensures forall i, j :: 0 <= i < j < |u| ==> u[i] != u[j]
    ensures forall x :: x in u <==> x in s
  {
    if s == [] then []
    else
      var u := Unique(s[..|s| - 1]);
      if s[|s| - 1] in u then u else u + [s[|s| - 1]]
  }

  /** The index of the first occurrence of `x` in `s`. */
  function FirstIndex(s: seq<Option<Label>>, x: Option<Label>): (k: nat)
    requires x in s
    ensures k < |s| && s[k] == x
    ensures forall j :: 0 <= j < k ==> s[j] != x
  {
    if s[0] == x then 0 else 1 + FirstIndex(s[1..], x)
  }

  /** `unique` lists values in first-occurrence order. */
  lemma {:induction false} UniqueFirstSeenOrder(s: seq<Option<Label>>)
    ensures forall i, j :: 0 <= i < j < |Unique(s)| ==>
      FirstIndex(s, Unique(s)[i]) < FirstIndex(s, Unique(s)[j])
  {
    if s != [] {
      var n := |s|;
      var p := s[..n - 1];
      UniqueFirstSeenOrder(p);
      var u := Unique(s);
      forall x | x in p
        ensures FirstIndex(s, x) == FirstIndex(p, x)
      {
        assert s[FirstIndex(p, x)] == x;
      }
      forall i, j | 0 <= i < j < |u|
        ensures FirstIndex(s, u[i]) < FirstIndex(s, u[j])
      {
        assert u[i] in p;
        if j < |Unique(p)| {
          assert u[j] in p;
        } else {
          assert u[j] == s[n - 1] && s[n - 1] !in p;
          assert FirstIndex(s, u[j]) == n - 1;
        }
      }
    }
  }

  /** `list(df.Category.unique())` (app/streamlit_app.py, line 29). */
  function CategoryList(rows: seq<Txn>): (cats: seq<Option<Label>>)
  {
    Unique(CategoryColumn(rows))
  }

  /** The category list has no duplicates, holds exactly the categories
      that occur in the frame (NaN included), in first-occurrence order. */
  lemma CategoryListSpec(rows: seq<Txn>)
    ensures forall i, j :: 0 <= i < j < |CategoryList(rows)| ==> CategoryList(rows)[i] != CategoryList(rows)[j]
    ensures forall c :: c in CategoryList(rows) <==> exists k :: 0 <= k < |rows| && rows[k].category == c
    ensures forall i, j :: 0 <= i < j < |CategoryList(rows)| ==>
      FirstIndex(CategoryColumn(rows), CategoryList(rows)[i]) < FirstIndex(CategoryColumn(rows), CategoryList(rows)[j])
  {
    var col := CategoryColumn(rows);
    UniqueFirstSeenOrder(col);
    forall c
      ensures c in CategoryList(rows) <==> exists k :: 0 <= k < |rows| && rows[k].category == c
    {
      if c in col {
        var k :| 0 <= k < |col| && col[k] == c;
        assert rows[k].category == c;
      }
    }
  }

  /** The mask `df.Category == selected_category`. NaN equals nothing, not
      even NaN, so a NaN selection matches no row. */
  predicate Matches(t: Txn, sel: Option<Label>)
  {
    sel.Some? && t.category == sel
  }

  /** Boolean-mask indexing: the matching rows, in their original order. */
  function Filter(rows: seq<Txn>, sel: Option<Label>): (r: seq<Txn>)
    ensures |r| <= |rows|
    ensures forall t :: t in r <==> t in rows && Matches(t, sel)
  {
    if rows == [] then []
    else
      var n := |rows|;
      Filter(rows[..n - 1], sel) + (if Matches(rows[n - 1], sel) then [rows[n - 1]] else [])
  }

  /** Filtering a frame with one more row at the end. */
  lemma FilterSnoc(rows: seq<Txn>, t: Txn, sel: Option<Label>)
    ensures Filter(rows + [t], sel) == Filter(rows, sel) + (if Matches(t, sel) then [t] else [])
  {
    assert (rows + [t])[..|rows|] == rows;
  }

  /** The positions of the matching rows, in increasing order. */
  ghost function MatchPositions(rows: seq<Txn>, sel: Option<Label>): seq<int>
  {
    if rows == [] then []
    else
      var n := |rows|;
      MatchPositions(rows[..n - 1], sel) + (if Matches(rows[n - 1], sel) then [n - 1] else [])
  }

  /** The matching positions increase, lie within the frame, and list a
      position iff its row matches. */
  lemma {:induction false} MatchPositionsExact(rows: seq<Txn>, sel: Option<Label>)
    ensures forall k :: 0 <= k < |MatchPositions(rows, sel)| ==> 0 <= MatchPositions(rows, sel)[k] < |rows|
    ensures forall k, l :: 0 <= k < l < |MatchPositions(rows, sel)| ==>
      MatchPositions(rows, sel)[k] < MatchPositions(rows, sel)[l]
    ensures forall j :: 0 <= j < |rows| ==> (j in MatchPositions(rows, sel) <==> Matches(rows[j], sel))
  {
    if rows != [] {
      var n := |rows|;
      var p := rows[..n - 1];
      MatchPositionsExact(p, sel);
      var P, Pp := MatchPositions(rows, sel), MatchPositions(p, sel);
      var m := Matches(rows[n - 1], sel);
      assert P == Pp + (if m then [n - 1] else []);
      forall k, l | 0 <= k < l < |P| ensures P[k] < P[l] {
        assert P[k] == Pp[k];
        if l < |Pp| { assert P[l] == Pp[l]; }
      }
      forall j | 0 <= j < n
        ensures j in P <==> Matches(rows[j], sel)
      {
        if j < n - 1 {
          assert rows[j] == p[j];
          assert j in P <==> j in Pp;
        } else {
          assert n - 1 !in Pp;
        }
      }
    }
  }

  /** The k-th row of the view is the row at the k-th matching position. */
  lemma {:induction false} FilterAtPositions(rows: seq<Txn>, sel: Option<Label>)
    ensures |Filter(rows, sel)| == |MatchPositions(rows, sel)|
    ensures forall k :: 0 <= k < |MatchPositions(rows, sel)| ==>
      0 <= MatchPositions(rows, sel)[k] < |rows| && Filter(rows, sel)[k] == rows[MatchPositions(rows, sel)[k]]
  {
    if rows != [] {
      var n := |rows|;
      var p := rows[..n - 1];
      FilterAtPositions(p, sel);
      var P, Pp := MatchPositions(rows, sel), MatchPositions(p, sel);
      var F, Fp := Filter(rows, sel), Filter(p, sel);
      var m := Matches(rows[n - 1], sel);
      assert P == Pp + (if m then [n - 1] else []);
      assert F == Fp + (if m then [rows[n - 1]] else []);
      forall k | 0 <= k < |P| ensures 0 <= P[k] < n && F[k] == rows[P[k]] {
        if k < |Pp| {
          assert P[k] == Pp[k] && F[k] == Fp[k];
          assert rows[Pp[k]] == p[Pp[k]];
        }
      }
    }
  }

  /** The filtered view is exactly the subsequence of matching rows: the
      k-th row of the view is the row at the k-th matching position, the
      positions increase, and a position is listed iff its row matches.
      Hence the view's length is the number of matching rows. */
  lemma {:induction false} FilterSelects(rows: seq<Txn>, sel: Option<Label>)
    ensures |Filter(rows, sel)| == |MatchPositions(rows, sel)|
    ensures forall k :: 0 <= k < |MatchPositions(rows, sel)| ==>
      0 <= MatchPositions(rows, sel)[k] < |rows| && Filter(rows, sel)[k] == rows[MatchPositions(rows, sel)[k]]
    ensures forall k, l :: 0 <= k < l < |MatchPositions(rows, sel)| ==>
      MatchPositions(rows, sel)[k] < MatchPositions(rows, sel)[l]
    ensures forall j :: 0 <= j < |rows| ==> (j in MatchPositions(rows, sel) <==> Matches(rows[j], sel))
  {
    MatchPositionsExact(rows, sel);
    FilterAtPositions(rows, sel);
  }

  /** Selecting NaN (which `unique` offers when a Category cell is empty)
      shows an empty view. */
  lemma {:induction false} FilterNaNIsEmpty(rows: seq<Txn>)
    ensures Filter(rows, None) == []
  {
    if Filter(rows, None) != [] {
      assert Filter(rows, None)[0] in Filter(rows, None);
    }
  }

  /** Any non-NaN option of the select box shows at least one row. */
  lemma {:induction false} SelectedCategoryNonEmpty(rows: seq<Txn>, sel: Option<Label>)
    requires sel in CategoryList(rows) && sel.Some?
    ensures |Filter(rows, sel)| > 0
  {
    CategoryListSpec(rows);
    var k :| 0 <= k < |rows| && rows[k].category == sel;
    assert rows[k] in Filter(rows, sel);
  }

  /** Filtering before or after `fillna(0)` selects the same rows: the filter
      on line 235 (after filling) agrees with the one on line 32 (before),
      for any selection other than the filled 0 itself. */
  lemma {:induction false} FilterAfterFill(rows: seq<Txn>, sel: Option<Label>)
    requires sel != Some(Zero)
    ensures Filter(FillAll(rows), sel) == FillAll(Filter(rows, sel))
  {
    if rows != [] {
      var n := |rows|;
      assert FillAll(rows)[..n - 1] == FillAll(rows[..n - 1]);
      FilterAfterFill(rows[..n - 1], sel);
      assert Matches(FillRow(rows[n - 1]), sel) <==> Matches(rows[n - 1], sel);
      FillAllAppend(Filter(rows[..n - 1], sel), if Matches(rows[n - 1], sel) then [rows[n - 1]] else []);
    }
  }

  lemma FillAllAppend(a: seq<Txn>, b: seq<Txn>)
    ensures FillAll(a + b) == FillAll(a) + FillAll(b)
  {
  }
}
