/** The analysis script: fill the frame in place, group every row by
    `(Category, Transaction Date)`, and total the amount column. */
module Analysis {
  import opened Table
  import opened FillNa
  import opened GroupBy

  /** After `fillna(0)` nothing is dropped by the grouping: its keys are the
      keys of all rows, each group sums its rows, there are at most as many
      groups as rows, and the groups add up to `total_transactions`, which
      is the amount total of the frame as loaded. */
  lemma GroupedFrameSpec(rows: seq<Txn>)
    ensures IsGroupSum(GroupSum(FillAll(rows)), FillAll(rows))
    ensures forall t :: t in FillAll(rows) ==> KeyOf(t).value in GroupKeys(GroupSum(FillAll(rows)))
    ensures |GroupSum(FillAll(rows))| <= |rows|
    ensures GroupTotal(GroupSum(FillAll(rows))) == Total(FillAll(rows)) == Total(rows)
  {
    var f := FillAll(rows);
    GroupSumSpec(f);
    FillAllSpec(rows);
    forall t | t in f ensures t.category.Some? && t.date.Some? {
      var i :| 0 <= i < |f| && f[i] == t;
    }
    NothingDropped(f);
  }

  /** Lines 15-24: `df.fillna(0, inplace=True)`, the date cast (a no-op on
      parsed day numbers), the group-by-sum and `df['Amount'].sum()`. */
  method Analyse(df: array<Txn>) returns (grouped: seq<Group>, totalTransactions: int)
    modifies df
    ensures df[..] == FillAll(old(df[..]))
    ensures IsGroupSum(grouped, df[..])
    ensures totalTransactions == Total(df[..]) == Total(old(df[..]))
    ensures GroupTotal(grouped) == totalTransactions
  {
    FillNaInPlace(df);
    grouped := GroupSum(df[..]);
    totalTransactions := Total(df[..]);
    GroupedFrameSpec(old(df[..]));
  }
}
