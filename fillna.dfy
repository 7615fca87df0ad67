/** `df.fillna(0, inplace=True)`: every missing cell of the frame becomes 0. */
module FillNa {
  import opened Table

  /** A row with no missing cell. */
  predicate Complete(t: Txn)
  {
    t.description.Some? && t.category.Some? && t.date.Some? && t.amount.Some?
  }

  /** Cell `a` is `b` with the gap, if any, filled. */
  predicate FilledFrom<T(==)>(a: Option<T>, b: Option<T>, zero: T)
  {
    a == if b.Some? then b else Some(zero)
  }

  /** One row after `fillna(0)`: an empty text cell holds the integer 0, an
      empty date the day number 0 (the epoch, once the column is cast to
      datetime64), an empty amount 0 cents; present cells are unchanged. */
  function FillRow(t: Txn): (r: Txn)
    ensures Complete(r)
    ensures FilledFrom(r.description, t.description, Zero)
    ensures FilledFrom(r.category, t.category, Zero)
    ensures FilledFrom(r.date, t.date, 0)
    ensures FilledFrom(r.amount, t.amount, 0)
  {
    Txn(
      if t.description.Some? then t.description else Some(Zero),
      if t.category.Some? then t.category else Some(Zero),
      if t.date.Some? then t.date else Some(0),
      if t.amount.Some? then t.amount else Some(0))
  }

  /** The frame after `fillna(0)`, row by row. */
  function FillAll(rows: seq<Txn>): (r: seq<Txn>)
    ensures |r| == |rows|
    ensures forall i :: 0 <= i < |rows| ==> r[i] == FillRow(rows[i])
  {
    seq(|rows|, i requires 0 <= i < |rows| => FillRow(rows[i]))
  }

  /** After `fillna(0)` no cell is missing, present cells are unchanged,
      the row count is unchanged, and the amount column sums as before
      (a sum already skips NaN). */
  lemma FillAllSpec(rows: seq<Txn>)
    ensures |FillAll(rows)| == |rows|
    ensures forall i :: 0 <= i < |rows| ==> Complete(FillAll(rows)[i])
    ensures forall i :: 0 <= i < |rows| && rows[i].category.Some? ==> FillAll(rows)[i].category == rows[i].category
    ensures forall i :: 0 <= i < |rows| && rows[i].date.Some? ==> FillAll(rows)[i].date == rows[i].date
    ensures forall i :: 0 <= i < |rows| && rows[i].amount.Some? ==> FillAll(rows)[i].amount == rows[i].amount
    ensures forall i :: 0 <= i < |rows| && rows[i].description.Some? ==> FillAll(rows)[i].description == rows[i].description
    ensures Total(FillAll(rows)) == Total(rows)
  {
    FillAllTotal(rows);
  }

  lemma {:induction false} FillAllTotal(rows: seq<Txn>)
    ensures Total(FillAll(rows)) == Total(rows)
  {
    if rows != [] {
      assert FillAll(rows)[1..] == FillAll(rows[1..]);
      FillAllTotal(rows[1..]);
    }
  }

  /** `df.fillna(0, inplace=True)` on the frame's rows, cell by cell. */
  method FillNaInPlace(df: array<Txn>)
    modifies df
    ensures df[..] == FillAll(old(df[..]))
  {
    var i := 0;
    while i < df.Length
      invariant 0 <= i <= df.Length
      invariant forall j :: 0 <= j < i ==> df[j] == FillRow(old(df[j]))
      invariant forall j :: i <= j < df.Length ==> df[j] == old(df[j])
    {
      var t := df[i];
      if t.description.None? { t := t.(description := Some(Zero)); }
      if t.category.None? { t := t.(category := Some(Zero)); }
      if t.date.None? { t := t.(date := Some(0)); }
      if t.amount.None? { t := t.(amount := Some(0)); }
      df[i] := t;
      i := i + 1;
    }
  }
}
