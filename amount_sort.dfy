/** `df_selected_category.sort_values(by="Amount", ascending=False)`: the
    filtered rows, largest amount first, missing amounts last. The default
    quicksort is not stable, so nothing is said about the order of rows with
    equal amounts. */
module AmountSort {
  import opened Table

  /** An amount that may come before `b` in descending order; NaN comes last
      whatever the direction (na_position='last'). */
  predicate AtLeast(a: Option<int>, b: Option<int>)
  {
    match (a, b)
    case (Some(x), Some(y)) => x >= y
    case (Some(_), None) => true
    case (None, Some(_)) => false
    case (None, None) => true
  }

  /** Rows in non-increasing amount order: their amount column is descending. */
  predicate SortedDescending(s: seq<Txn>)
  {
    Descending(Amounts(s))
  }

  /** What pandas promises of the sorted view of `rows`: the same rows, each
      as often, in non-increasing amount order. */
  predicate IsDescendingView(view: seq<Txn>, rows: seq<Txn>)
  {
    multiset(view) == multiset(rows) && SortedDescending(view)
  }

  /** Places `t` before the first row whose amount it is at least. */
  function InsertDescending(s: seq<Txn>, t: Txn): (r: seq<Txn>)
    requires SortedDescending(s)
    ensures multiset(r) == multiset(s) + multiset{t}
    ensures SortedDescending(r)
  {
    if s == [] then [t]
    else if AtLeast(t.amount, s[0].amount) then
      SortedCons(t, s);
      [t] + s
    else
      var rest := InsertDescending(s[1..], t);
      assert s == [s[0]] + s[1..];
      assert forall x :: x in rest ==> AtLeast(s[0].amount, x.amount) by {
        forall x | x in rest ensures AtLeast(s[0].amount, x.amount) {
          assert x in multiset(rest);
          if x != t { assert x in multiset(s[1..]); }
        }
      }
      SortedCons(s[0], rest);
      [s[0]] + rest
  }

  /** A row whose amount is at least every amount of a sorted view can head it. */
  lemma SortedCons(h: Txn, s: seq<Txn>)
    requires SortedDescending(s)
    requires forall x :: x in s ==> AtLeast(h.amount, x.amount)
    ensures SortedDescending([h] + s)
  {
    var r := [h] + s;
    forall i, j | 0 <= i < j < |r| ensures AtLeast(r[i].amount, r[j].amount) {
      if i == 0 { assert r[j] == s[j - 1] && s[j - 1] in s; } else { assert r[i] == s[i - 1] && r[j] == s[j - 1]; }
    }
  }

  /** One admissible result of the sort: any other one differs only in the
      order of rows with equal amounts (AmountsAgree). */
  function SortByAmount(rows: seq<Txn>): (view: seq<Txn>)
    ensures IsDescendingView(view, rows)
  {
    if rows == [] then []
    else
      assert rows == [rows[0]] + rows[1..];
      InsertDescending(SortByAmount(rows[1..]), rows[0])
  }

  /** The amount column of a view. */
  function Amounts(s: seq<Txn>): (a: seq<Option<int>>)
    ensures |a| == |s|
    ensures forall i :: 0 <= i < |s| ==> a[i] == s[i].amount
  {
    seq(|s|, i requires 0 <= i < |s| => s[i].amount)
  }

  lemma AtLeastAntisymmetric(a: Option<int>, b: Option<int>)
    requires AtLeast(a, b) && AtLeast(b, a)
    ensures a == b
  {
  }

  /** A view is the row at `j` plus the rest, and so is its amount column. */
  lemma SplitAt(t: seq<Txn>, j: int)
    requires 0 <= j < |t|
    ensures multiset(t) == multiset(t[..j] + t[j + 1..]) + multiset{t[j]}
    ensures multiset(Amounts(t)) == multiset(Amounts(t[..j] + t[j + 1..])) + multiset{t[j].amount}
  {
    assert t == t[..j] + [t[j]] + t[j + 1..];
    var a := Amounts(t);
    assert a == a[..j] + [a[j]] + a[j + 1..];
    assert Amounts(t[..j] + t[j + 1..]) == a[..j] + a[j + 1..];
  }

  function IndexOf(t: seq<Txn>, x: Txn): (j: int)
    requires x in multiset(t)
    ensures 0 <= j < |t| && t[j] == x
  {
    if t[0] == x then 0 else
      assert t == [t[0]] + t[1..];
      1 + IndexOf(t[1..], x)
  }

  lemma SplitHead(s: seq<Txn>)
    requires s != []
    ensures multiset(s) == multiset(s[1..]) + multiset{s[0]}
    ensures multiset(Amounts(s)) == multiset(Amounts(s[1..])) + multiset{s[0].amount}
  {
    assert s == [s[0]] + s[1..];
    assert Amounts(s) == [s[0].amount] + Amounts(s[1..]);
  }

  lemma AddCancel<T>(a: multiset<T>, b: multiset<T>, x: T)
    requires a + multiset{x} == b + multiset{x}
    ensures a == b
  {
    assert a == (a + multiset{x}) - multiset{x};
    assert b == (b + multiset{x}) - multiset{x};
  }

  lemma {:induction false} AmountsMultiset(s: seq<Txn>, t: seq<Txn>)
    requires multiset(s) == multiset(t)
    ensures multiset(Amounts(s)) == multiset(Amounts(t))
  {
    if s == [] {
      assert |t| == |multiset(t)| == 0;
    } else {
      var j := IndexOf(t, s[0]);
      var t' := t[..j] + t[j + 1..];
      SplitAt(t, j);
      SplitHead(s);
      AddCancel(multiset(s[1..]), multiset(t'), s[0]);
      AmountsMultiset(s[1..], t');
    }
  }

  /** Amounts in non-increasing order, NaN last. */
  predicate Descending(a: seq<Option<int>>)
  {
    forall i, j :: 0 <= i < j < |a| ==> AtLeast(a[i], a[j])
  }

  /** The head of a descending sequence is at least each of its amounts. */
  lemma HeadIsGreatest(a: seq<Option<int>>, x: Option<int>)
    requires Descending(a) && x in multiset(a)
    ensures AtLeast(a[0], x)
  {
    var i :| 0 <= i < |a| && a[i] == x;
    if i == 0 { AtLeastReflexive(x); }
  }

  lemma DropHead(a: seq<Option<int>>)
    requires Descending(a) && a != []
    ensures Descending(a[1..])
    ensures multiset(a[1..]) == multiset(a) - multiset{a[0]}
    ensures a == [a[0]] + a[1..]
  {
    assert a == [a[0]] + a[1..];
    assert multiset(a) == multiset{a[0]} + multiset(a[1..]);
  }

  /** Two sequences of amounts, each in descending order, with the same
      amounts as often, are equal. */
  lemma {:induction false} SortedAmountsUnique(a: seq<Option<int>>, b: seq<Option<int>>)
    requires multiset(a) == multiset(b)
    requires Descending(a) && Descending(b)
    ensures a == b
  {
    if a == [] {
      assert |b| == |multiset(b)| == 0;
    } else {
      assert |b| == |multiset(b)| == |multiset(a)| == |a|;
      HeadIsGreatest(a, b[0]);
      HeadIsGreatest(b, a[0]);
      AtLeastAntisymmetric(a[0], b[0]);
      DropHead(a);
      DropHead(b);
      SortedAmountsUnique(a[1..], b[1..]);
    }
  }

  lemma AtLeastReflexive(a: Option<int>)
    ensures AtLeast(a, a)
  {
  }

  /** Any two admissible sorted views of the same rows show the same amount
      at every position: the sort fixes the amount column completely and
      leaves open only which of several equal-amount rows comes first. */
  lemma AmountsAgree(v: seq<Txn>, w: seq<Txn>, rows: seq<Txn>)
    requires IsDescendingView(v, rows) && IsDescendingView(w, rows)
    ensures Amounts(v) == Amounts(w)
  {
    AmountsMultiset(v, w);
    assert Descending(Amounts(v)) && Descending(Amounts(w));
    SortedAmountsUnique(Amounts(v), Amounts(w));
  }
}
