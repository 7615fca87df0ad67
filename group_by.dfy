/** `df.groupby(['Category', 'Transaction Date'])['Amount'].sum().reset_index()`:
    one row per distinct `(Category, Transaction Date)` key, keys in
    ascending order (sort=True), each carrying the sum of its rows' amounts.
    Rows with a NaN key part are dropped (dropna=True). */
module GroupBy {
  import opened Table

  predicate StrictlyAscending(gs: seq<Group>)
  {
    forall i, j :: 0 <= i < j < |gs| ==> KeyLess(gs[i].key, gs[j].key)
  }

  /** The keys of a grouped table. */
  function GroupKeys(gs: seq<Group>): set<Key>
  {
    if gs == [] then {} else {gs[0].key} + GroupKeys(gs[1..])
  }

  /** The keys `groupby` sees in a frame: rows with a NaN key part have none. */
  function RowKeys(rows: seq<Txn>): set<Key>
  {
    if rows == [] then {}
    else (if KeyOf(rows[0]).Some? then {KeyOf(rows[0]).value} else {}) + RowKeys(rows[1..])
  }

  /** The sum of the amounts of the rows whose key is `k`. */
  function SumFor(rows: seq<Txn>, k: Key): int
  {
    if rows == [] then 0
    else (if KeyOf(rows[0]) == Some(k) then AmountOf(rows[0]) else 0) + SumFor(rows[1..], k)
  }

  /** The sum of the amounts of the rows `groupby` keeps. */
  function KeyedTotal(rows: seq<Txn>): int
  {
    if rows == [] then 0
    else (if KeyOf(rows[0]).Some? then AmountOf(rows[0]) else 0) + KeyedTotal(rows[1..])
  }

  /** `grouped_df['Amount'].sum()`. */
  function GroupTotal(gs: seq<Group>): int
  {
    if gs == [] then 0 else gs[0].amount + GroupTotal(gs[1..])
  }

  /** The amount of the group with key `k`, 0 when there is none. */
  function Lookup(gs: seq<Group>, k: Key): int
  {
    if gs == [] then 0 else if gs[0].key == k then gs[0].amount else Lookup(gs[1..], k)
  }

  /** What `groupby(...).sum()` returns for `rows`: keys ascending, exactly
      the keys of the kept rows, each with the sum of its rows' amounts. */
  ghost predicate IsGroupSum(gs: seq<Group>, rows: seq<Txn>)
  {
    && StrictlyAscending(gs)
    && GroupKeys(gs) == RowKeys(rows)
    && forall i :: 0 <= i < |gs| ==> gs[i].amount == SumFor(rows, gs[i].key)
  }

  // ---------------------------------------------------------------------
  // Facts about ascending grouped tables

  lemma {:induction false} GroupKeysAt(gs: seq<Group>, k: Key)
    ensures k in GroupKeys(gs) <==> exists i :: 0 <= i < |gs| && gs[i].key == k
  {
    if gs != [] {
      GroupKeysAt(gs[1..], k);
      if exists i :: 0 <= i < |gs| && gs[i].key == k {
        var i :| 0 <= i < |gs| && gs[i].key == k;
        if i > 0 { assert gs[1..][i - 1].key == k; }
      }
      if exists i :: 0 <= i < |gs| - 1 && gs[1..][i].key == k {
        var i :| 0 <= i < |gs| - 1 && gs[1..][i].key == k;
        assert gs[i + 1].key == k;
      }
    }
  }

  lemma GroupKeysEmpty(gs: seq<Group>)
    ensures GroupKeys(gs) == {} ==> gs == []
  {
    if gs != [] {
      assert gs[0].key in GroupKeys(gs);
    }
  }

  /** The tail of an ascending table is ascending, and its head key is below
      every key of the tail. */
  lemma AscendingTail(gs: seq<Group>)
    requires StrictlyAscending(gs) && gs != []
    ensures StrictlyAscending(gs[1..])
    ensures forall k :: k in GroupKeys(gs[1..]) ==> KeyLess(gs[0].key, k)
  {
    forall k | k in GroupKeys(gs[1..]) ensures KeyLess(gs[0].key, k) {
      GroupKeysAt(gs[1..], k);
      var i :| 0 <= i < |gs| - 1 && gs[1..][i].key == k;
      assert gs[i + 1].key == k;
    }
  }

  lemma AscendingCons(g: Group, gs: seq<Group>)
    requires StrictlyAscending(gs)
    requires forall k :: k in GroupKeys(gs) ==> KeyLess(g.key, k)
    ensures StrictlyAscending([g] + gs)
  {
    var r := [g] + gs;
    assert r[1..] == gs;
    forall i, j | 0 <= i < j < |r| ensures KeyLess(r[i].key, r[j].key) {
      if i == 0 {
        GroupKeysAt(gs, r[j].key);
        assert gs[j - 1] == r[j];
      } else {
        assert r[i] == gs[i - 1] && r[j] == gs[j - 1];
      }
    }
  }

  /** A key below the head of an ascending table is not in it. */
  lemma BelowHeadAbsent(gs: seq<Group>, k: Key)
    requires StrictlyAscending(gs) && gs != [] && KeyLess(k, gs[0].key)
    ensures k !in GroupKeys(gs)
  {
    AscendingTail(gs);
    KeyLessIrreflexive(k);
    if k in GroupKeys(gs[1..]) {
      KeyLessTransitive(k, gs[0].key, k);
    }
  }

  lemma {:induction false} LookupAbsent(gs: seq<Group>, k: Key)
    requires k !in GroupKeys(gs)
    ensures Lookup(gs, k) == 0
  {
    if gs != [] {
      LookupAbsent(gs[1..], k);
    }
  }

  /** In an ascending table, the group at position `i` is the one `Lookup`
      finds for its key. */
  lemma {:induction false} LookupAt(gs: seq<Group>, i: int)
    requires StrictlyAscending(gs) && 0 <= i < |gs|
    ensures Lookup(gs, gs[i].key) == gs[i].amount
  {
    if i > 0 {
      AscendingTail(gs);
      assert gs[1..][i - 1] == gs[i];
      KeyLessIrreflexive(gs[0].key);
      assert gs[0].key != gs[i].key;
      LookupAt(gs[1..], i - 1);
    }
  }

  // ---------------------------------------------------------------------
  // The grouping

  /** Adds one row's amount `a` under key `k`: to the existing group with
      that key, or as a new group at its place in key order. */
  function AddTo(gs: seq<Group>, k: Key, a: int): (r: seq<Group>)
    requires StrictlyAscending(gs)
    ensures StrictlyAscending(r)
    ensures GroupKeys(r) == GroupKeys(gs) + {k}
    ensures forall k' :: Lookup(r, k') == Lookup(gs, k') + (if k' == k then a else 0)
    ensures GroupTotal(r) == GroupTotal(gs) + a
    ensures |r| <= |gs| + 1
  {
    if gs == [] then
      [Group(k, a)]
    else if gs[0].key == k then
      var r := [Group(k, gs[0].amount + a)] + gs[1..];
      assert r[1..] == gs[1..];
      AscendingTail(gs);
      AscendingCons(r[0], gs[1..]);
      r
    else if KeyLess(k, gs[0].key) then
      var r := [Group(k, a)] + gs;
      assert r[1..] == gs;
      BelowHeadAbsent(gs, k);
      LookupAbsent(gs, k);
      AscendingTail(gs);
      forall k' | k' in GroupKeys(gs) ensures KeyLess(k, k') {
        if k' != gs[0].key {
          KeyLessTransitive(k, gs[0].key, k');
        }
      }
      AscendingCons(r[0], gs);
      r
    else
      KeyLessConnected(k, gs[0].key);
      AscendingTail(gs);
      var rest := AddTo(gs[1..], k, a);
      var r := [gs[0]] + rest;
      assert r[1..] == rest;
      AscendingCons(gs[0], rest);
      r
  }

  /** `groupby(['Category', 'Transaction Date'])['Amount'].sum()`. */
  function GroupSum(rows: seq<Txn>): (gs: seq<Group>)
    ensures StrictlyAscending(gs)
    ensures GroupKeys(gs) == RowKeys(rows)
    ensures forall k :: Lookup(gs, k) == SumFor(rows, k)
    ensures GroupTotal(gs) == KeyedTotal(rows)
    ensures |gs| <= |rows|
  {
    if rows == [] then []
    else
      var rest := GroupSum(rows[1..]);
      if KeyOf(rows[0]).Some? then AddTo(rest, KeyOf(rows[0]).value, AmountOf(rows[0])) else rest
  }

  // ---------------------------------------------------------------------
  // Properties

  /** The grouped table is what `groupby(...).sum()` promises: keys unique
      and ascending, exactly the keys of the kept rows, each group's amount
      the sum over its rows; and it has no more rows than the frame. */
  lemma GroupSumSpec(rows: seq<Txn>)
    ensures IsGroupSum(GroupSum(rows), rows)
    ensures forall i, j :: 0 <= i < j < |GroupSum(rows)| ==> GroupSum(rows)[i].key != GroupSum(rows)[j].key
    ensures |GroupSum(rows)| <= |rows|
  {
    var gs := GroupSum(rows);
    forall i | 0 <= i < |gs| ensures gs[i].amount == SumFor(rows, gs[i].key) {
      LookupAt(gs, i);
    }
    forall i, j | 0 <= i < j < |gs| ensures gs[i].key != gs[j].key {
      KeyLessIrreflexive(gs[i].key);
    }
  }

  /** When no key part is missing, nothing is dropped: every row's key is a
      group, and the grouped amounts add up to the column total. */
  lemma {:induction false} NothingDropped(rows: seq<Txn>)
    requires forall t :: t in rows ==> t.category.Some? && t.date.Some?
    ensures forall t :: t in rows ==> KeyOf(t).value in GroupKeys(GroupSum(rows))
    ensures KeyedTotal(rows) == Total(rows)
    ensures GroupTotal(GroupSum(rows)) == Total(rows)
  {
    if rows != [] {
      assert forall t :: t in rows[1..] ==> t in rows;
      NothingDropped(rows[1..]);
      assert forall t :: t in rows ==> t == rows[0] || t in rows[1..];
    }
  }

  /** The grouped table is the only one meeting IsGroupSum: two ascending
      tables with the same keys and the same amount per key are equal. */
  lemma {:induction false} GroupSumUnique(gs: seq<Group>, rows: seq<Txn>)
    requires IsGroupSum(gs, rows)
    ensures gs == GroupSum(rows)
  {
    var hs := GroupSum(rows);
    GroupSumSpec(rows);
    forall k ensures Lookup(gs, k) == Lookup(hs, k) {
      if k in GroupKeys(gs) {
        GroupKeysAt(gs, k);
        var i :| 0 <= i < |gs| && gs[i].key == k;
        LookupAt(gs, i);
      } else {
        LookupAbsent(gs, k);
        LookupAbsent(hs, k);
      }
    }
    AscendingDetermined(gs, hs);
  }

  lemma {:induction false} AscendingDetermined(g: seq<Group>, h: seq<Group>)
    requires StrictlyAscending(g) && StrictlyAscending(h)
    requires GroupKeys(g) == GroupKeys(h)
    requires forall k :: Lookup(g, k) == Lookup(h, k)
    ensures g == h
  {
    if g == [] {
      GroupKeysEmpty(h);
    } else {
      assert g[0].key in GroupKeys(h);
      assert h != [];
      AscendingTail(g);
      AscendingTail(h);
      var a, b := g[0].key, h[0].key;
      if a != b {
        assert b in GroupKeys(g[1..]) && a in GroupKeys(h[1..]);
        KeyLessTransitive(a, b, a);
        KeyLessIrreflexive(a);
      }
      assert g[0] == h[0] by {
        LookupAt(g, 0);
        LookupAt(h, 0);
      }
      KeyLessIrreflexive(a);
      assert a !in GroupKeys(g[1..]) && a !in GroupKeys(h[1..]);
      assert GroupKeys(g[1..]) == GroupKeys(h[1..]);
      forall k ensures Lookup(g[1..], k) == Lookup(h[1..], k) {
        if k == a {
          LookupAbsent(g[1..], k);
          LookupAbsent(h[1..], k);
        } else {
          assert Lookup(g, k) == Lookup(g[1..], k) && Lookup(h, k) == Lookup(h[1..], k);
        }
      }
      AscendingDetermined(g[1..], h[1..]);
      assert g == [g[0]] + g[1..] && h == [h[0]] + h[1..];
    }
  }
}
