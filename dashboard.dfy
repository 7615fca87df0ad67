/** The data path of the dashboard script: the sidebar's category list,
    filtered view and top-amount table, then the echoed block that fills the
    frame in place, narrows it to the selected category and groups it by
    `(Category, Transaction Date)`. */
module Dashboard {
  import opened Table
  import opened FillNa
  import opened Categories
  import opened AmountSort
  import opened GroupBy

  /** Whatever order the unstable sort picks among equal amounts, the
      top-amount table shows only frame rows of the selected category, and
      its amount column is that of `SortByAmount` on the filtered view. */
  lemma TopAmountView(rows: seq<Txn>, sel: Option<Label>, view: seq<Txn>)
    requires IsDescendingView(view, Filter(rows, sel))
    ensures forall t :: t in view ==> t in rows && Matches(t, sel)
    ensures Amounts(view) == Amounts(SortByAmount(Filter(rows, sel)))
  {
    forall t | t in view ensures t in rows && Matches(t, sel) {
      assert t in multiset(view);
    }
    AmountsAgree(view, SortByAmount(Filter(rows, sel)), Filter(rows, sel));
  }

  lemma {:induction false} RowKeysCategory(rows: seq<Txn>, c: Label)
    requires forall t :: t in rows ==> t.category == Some(c)
    ensures forall k :: k in RowKeys(rows) ==> k.category == c
  {
    if rows != [] {
      assert forall t :: t in rows[1..] ==> t in rows;
      RowKeysCategory(rows[1..], c);
    }
  }

  /** The rows the echoed block groups: the frame after `fillna(0)`, narrowed
      to the selected category (lines 234-235). */
  function SelectedRows(rows: seq<Txn>, sel: Option<Label>): seq<Txn>
  {
    Filter(FillAll(rows), sel)
  }

  /** The grouped table of the echoed block (line 238) is the group-by-sum
      of the selected rows; every group is of the selected category; the
      grouped amounts add up to the selected rows' total; every selected
      row's key is a group; and no selected row means no group. */
  lemma GroupedTableSpec(rows: seq<Txn>, sel: Option<Label>)
    ensures IsGroupSum(GroupSum(SelectedRows(rows, sel)), SelectedRows(rows, sel))
    ensures forall i :: 0 <= i < |GroupSum(SelectedRows(rows, sel))| ==>
      Some(GroupSum(SelectedRows(rows, sel))[i].key.category) == sel
    ensures GroupTotal(GroupSum(SelectedRows(rows, sel))) == Total(SelectedRows(rows, sel))
    ensures forall t :: t in SelectedRows(rows, sel) ==> KeyOf(t).value in GroupKeys(GroupSum(SelectedRows(rows, sel)))
    ensures |GroupSum(SelectedRows(rows, sel))| <= |SelectedRows(rows, sel)|
    ensures SelectedRows(rows, sel) == [] ==> GroupSum(SelectedRows(rows, sel)) == []
  {
    var f := SelectedRows(rows, sel);
    var g := GroupSum(f);
    GroupSumSpec(f);
    forall t | t in f ensures t.category.Some? && t.date.Some? {
      assert t in FillAll(rows);
      var i :| 0 <= i < |rows| && FillAll(rows)[i] == t;
    }
    NothingDropped(f);
    if sel.Some? {
      RowKeysCategory(f, sel.value);
      forall i | 0 <= i < |g| ensures Some(g[i].key.category) == sel {
        GroupKeysAt(g, g[i].key);
      }
    } else {
      FilterNaNIsEmpty(FillAll(rows));
    }
  }

  /** Two Groceries rows on 2024-01-01 (day 19723) of -50.00 and -20.00 and a
      Travel row on 2024-01-02 of -200.00: selecting Groceries keeps two
      rows and groups them into one of -70.00. */
  lemma GroceriesExample()
    ensures var rows := [
        Txn(None, Some(Text("Groceries")), Some(19723), Some(-5000)),
        Txn(None, Some(Text("Groceries")), Some(19723), Some(-2000)),
        Txn(None, Some(Text("Travel")), Some(19724), Some(-20000))];
      && |SelectedRows(rows, Some(Text("Groceries")))| == 2
      && GroupSum(SelectedRows(rows, Some(Text("Groceries")))) == [Group(Key(Text("Groceries"), 19723), -7000)]
  {
    var sel := Some(Text("Groceries"));
    var rows := [
        Txn(None, Some(Text("Groceries")), Some(19723), Some(-5000)),
        Txn(None, Some(Text("Groceries")), Some(19723), Some(-2000)),
        Txn(None, Some(Text("Travel")), Some(19724), Some(-20000))];
    var g1 := Txn(Some(Zero), Some(Text("Groceries")), Some(19723), Some(-5000));
    var g2 := Txn(Some(Zero), Some(Text("Groceries")), Some(19723), Some(-2000));
    var t3 := Txn(Some(Zero), Some(Text("Travel")), Some(19724), Some(-20000));
    var f := FillAll(rows);
    assert f == [g1, g2, t3];
    ExampleFilter(g1, g2, t3, sel);
    ExampleGroup(g1, g2);
  }

  lemma ExampleFilter(g1: Txn, g2: Txn, t3: Txn, sel: Option<Label>)
    requires Matches(g1, sel) && Matches(g2, sel) && !Matches(t3, sel)
    ensures Filter([g1, g2, t3], sel) == [g1, g2]
  {
    FilterSnoc([], g1, sel);
    assert [] + [g1] == [g1] && [g1] + [g2] == [g1, g2] && [g1, g2] + [t3] == [g1, g2, t3];
    FilterSnoc([g1], g2, sel);
    FilterSnoc([g1, g2], t3, sel);
  }

  lemma ExampleGroup(g1: Txn, g2: Txn)
    requires g1 == Txn(Some(Zero), Some(Text("Groceries")), Some(19723), Some(-5000))
    requires g2 == Txn(Some(Zero), Some(Text("Groceries")), Some(19723), Some(-2000))
    ensures GroupSum([g1, g2]) == [Group(Key(Text("Groceries"), 19723), -7000)]
  {
    var k := Key(Text("Groceries"), 19723);
    assert [g2][1..] == [];
    assert GroupSum([g2]) == AddTo([], k, -2000) == [Group(k, -2000)];
    assert [g1, g2][1..] == [g2];
    assert GroupSum([g1, g2]) == AddTo([Group(k, -2000)], k, -5000);
  }

  /** Lines 234-238: `df.fillna(0, inplace=True)`, then `df` rebound to its
      rows of the selected category, then grouped. The date cast on line 237
      leaves already-parsed day numbers as they are. */
  method GroupSelectedCategory(df: array<Txn>, sel: Option<Label>) returns (selected: seq<Txn>, grouped: seq<Group>)
    modifies df
    ensures df[..] == FillAll(old(df[..]))
    ensures selected == SelectedRows(old(df[..]), sel)
    ensures sel != Some(Zero) ==> selected == FillAll(Filter(old(df[..]), sel))
    ensures IsGroupSum(grouped, selected)
    ensures forall i :: 0 <= i < |grouped| ==> Some(grouped[i].key.category) == sel
    ensures GroupTotal(grouped) == Total(selected)
  {
    FillNaInPlace(df);
    selected := Filter(df[..], sel);
    grouped := GroupSum(selected);
    GroupedTableSpec(old(df[..]), sel);
    if sel != Some(Zero) {
      FilterAfterFill(old(df[..]), sel);
    }
  }
}
