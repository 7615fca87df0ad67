/** The transaction table of the dashboard: rows, grouping keys, the orders
    pandas sorts them by, and the column sums. */
module Table {

  datatype Option<+T> = None | Some(value: T)

  /** A cell of a text column (Description, Category). `Text` is what the CSV
      carried; `Zero` is the integer 0 that `fillna(0)` writes into an empty
      text cell, a value distinct from every string, "0" included. */
  datatype Label = Text(s: string) | Zero

  /** One row of the transaction frame. `None` stands for a missing value
      (NaN). The date is an already-parsed day number; the amount is a whole
      number of cents. Columns the pipeline never reads are not modelled. */
  datatype Txn = Txn(
    description: Option<Label>,
    category: Option<Label>,
    date: Option<int>,
    amount: Option<int>)

  /** A `(Category, Transaction Date)` grouping key, both parts present. */
  datatype Key = Key(category: Label, date: int)

  /** One row of `groupby([...])['Amount'].sum().reset_index()`. */
  datatype Group = Group(key: Key, amount: int)

  // ---------------------------------------------------------------------
  // Orders

  /** Python's `<` on `str`: lexicographic by code point. */
  predicate StrLess(a: string, b: string)
  {
    if |a| == 0 then |b| > 0
    else if |b| == 0 then false
    else if a[0] != b[0] then a[0] < b[0]
    else StrLess(a[1..], b[1..])
  }

  /** The order pandas sorts a Category level by. A column mixing the filled
      integer 0 with strings is sorted numbers first, then strings. */
  predicate LabelLess(a: Label, b: Label)
  {
    match (a, b)
    case (Zero, Text(_)) => true
    case (Text(x), Text(y)) => StrLess(x, y)
    case _ => false
  }

  /** Lexicographic order on `(Category, Transaction Date)`. */
  predicate KeyLess(a: Key, b: Key)
  {
    LabelLess(a.category, b.category) || (a.category == b.category && a.date < b.date)
  }

  lemma {:induction false} StrLessIrreflexive(a: string)
    ensures !StrLess(a, a)
  {
    if |a| > 0 {
      StrLessIrreflexive(a[1..]);
    }
  }

  lemma {:induction false} StrLessTransitive(a: string, b: string, c: string)
    requires StrLess(a, b) && StrLess(b, c)
    ensures StrLess(a, c)
  {
    if |a| > 0 && a[0] == b[0] && b[0] == c[0] {
      StrLessTransitive(a[1..], b[1..], c[1..]);
    }
  }

  lemma {:induction false} StrLessConnected(a: string, b: string)
    requires a != b
    ensures StrLess(a, b) || StrLess(b, a)
  {
    if |a| > 0 && |b| > 0 && a[0] == b[0] {
      assert a == [a[0]] + a[1..] && b == [b[0]] + b[1..];
      StrLessConnected(a[1..], b[1..]);
    }
  }

  /** KeyLess is a strict total order, which makes "ascending key order"
      well defined and forces ascending keys to be unique. */
  lemma KeyLessIrreflexive(a: Key)
    ensures !KeyLess(a, a)
  {
    if a.category.Text? {
      StrLessIrreflexive(a.category.s);
    }
  }

  lemma KeyLessTransitive(a: Key, b: Key, c: Key)
    requires KeyLess(a, b) && KeyLess(b, c)
    ensures KeyLess(a, c)
  {
    if a.category.Text? && b.category.Text? && c.category.Text? {
      if StrLess(a.category.s, b.category.s) && StrLess(b.category.s, c.category.s) {
        StrLessTransitive(a.category.s, b.category.s, c.category.s);
      }
    }
  }

  lemma KeyLessConnected(a: Key, b: Key)
    requires a != b
    ensures KeyLess(a, b) || KeyLess(b, a)
  {
    if a.category.Text? && b.category.Text? && a.category.s != b.category.s {
      StrLessConnected(a.category.s, b.category.s);
    }
  }

  // ---------------------------------------------------------------------
  // Keys and sums

  /** The grouping key of a row; `None` when either part is NaN, in which
      case `groupby` (dropna=True) leaves the row out. */
  function KeyOf(t: Txn): (k: Option<Key>)
    ensures k.Some? <==> t.category.Some? && t.date.Some?
    ensures k.Some? ==> k.value.category == t.category.value && k.value.date == t.date.value
  {
    if t.category.Some? && t.date.Some? then Some(Key(t.category.value, t.date.value)) else None
  }

  /** The amount a row adds to a pandas sum: sums skip NaN. */
  function AmountOf(t: Txn): int
  {
    if t.amount.Some? then t.amount.value else 0
  }

  /** `df['Amount'].sum()`. */
  function Total(rows: seq<Txn>): int
  {
    if rows == [] then 0 else AmountOf(rows[0]) + Total(rows[1..])
  }

  lemma {:induction false} TotalAppend(a: seq<Txn>, b: seq<Txn>)
    ensures Total(a + b) == Total(a) + Total(b)
  {
    if a == [] {
      assert a + b == b;
    } else {
      assert (a + b)[1..] == a[1..] + b;
      TotalAppend(a[1..], b);
    }
  }
}
