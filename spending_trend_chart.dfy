/**
 * The line chart of spending over time (frontend/Expense-tracker/src/components/SpendingTrendChart.jsx):
 * amounts summed per day or per month, labels in ascending order, and the mode button.
 */
module SpendingTrendChart {
  import opened Lists
  import opened Grouping
  import opened Client
  import JsString

  datatype Mode = Daily | Monthly

  datatype Chart = NoData | Line(labels: seq<string>, values: seq<real>)

  function Min(a: nat, b: nat): nat
  {
    if a < b then a else b
  }

  /** The group key: the `YYYY-MM` or the `YYYY-MM-DD` prefix of the date, or the whole date when
      it is shorter. A day's key begins with its month's key, so every day falls in one month. */
  function Key(mode: Mode, date: string): (k: string)
    ensures JsString.IsPrefix(k, date)
    ensures |k| == if mode == Monthly then Min(|date|, 7) else Min(|date|, 10)
    ensures mode == Daily ==> JsString.IsPrefix(JsString.Take(date, 7), k)
  {
    match mode
    case Monthly => JsString.Take(date, 7)
    case Daily => JsString.Take(date, 10)
  }

  /** One entry per expense, keyed by its date, with its amount. */
  function Entries(expenses: seq<Expense>, mode: Mode, parse: string -> real): seq<Entry>
  {
    seq(|expenses|, i requires 0 <= i < |expenses| => Entry(Key(mode, expenses[i].date), AmountValue(expenses[i].amount, parse)))
  }

  /** What is plotted adds up to what was spent. */
  lemma {:induction false} EntriesTotal(expenses: seq<Expense>, mode: Mode, parse: string -> real)
    ensures Total(Entries(expenses, mode, parse)) == Spending(expenses, parse)
  {
    if expenses != [] {
      var init := expenses[..|expenses| - 1];
      EntriesTotal(init, mode, parse);
      assert Entries(expenses, mode, parse)[..|expenses| - 1] == Entries(init, mode, parse);
    }
  }

  predicate HasDateKey(expenses: seq<Expense>, mode: Mode, k: string)
  {
    exists i | 0 <= i < |expenses| :: Key(mode, expenses[i].date) == k
  }

  lemma KeysOfEntries(expenses: seq<Expense>, mode: Mode, parse: string -> real)
    ensures forall k :: HasKey(Entries(expenses, mode, parse), k) <==> HasDateKey(expenses, mode, k)
  {
    var es := Entries(expenses, mode, parse);
    forall k ensures HasKey(es, k) <==> HasDateKey(expenses, mode, k) {
      if HasKey(es, k) {
        var i :| 0 <= i < |es| && es[i].key == k;
        assert Key(mode, expenses[i].date) == k;
      }
      if HasDateKey(expenses, mode, k) {
        var i :| 0 <= i < |expenses| && Key(mode, expenses[i].date) == k;
        assert es[i].key == k;
      }
    }
  }

  lemma LexLeIsPreorder()
    ensures TotalPreorder(JsString.LexLe)
  {
    forall a, b ensures JsString.LexLe(a, b) || JsString.LexLe(b, a) {
      JsString.LexLeTotal(a, b);
    }
    forall a, b, c | JsString.LexLe(a, b) && JsString.LexLe(b, c) ensures JsString.LexLe(a, c) {
      JsString.LexLeTransitive(a, b, c);
    }
  }

  /** `Object.keys(grouped).sort()`: the default sort compares strings. */
  function SortLabels(keys: seq<string>): (labels: seq<string>)
    requires Distinct(keys)
    ensures multiset(labels) == multiset(keys)
    ensures forall i, j | 0 <= i < j < |labels| :: JsString.LexLe(labels[i], labels[j]) && labels[i] != labels[j]
  {
    LexLeIsPreorder();
    var labels := Sort(keys, JsString.LexLe);
    PermutationDistinct(keys, labels);
    labels
  }

  /** The chart component with its `mode` state. */
  class TrendChart {
    var mode: Mode

    constructor ()
      ensures mode == Daily
    {
      mode := Daily;
    }

    /** The button: switches between daily and monthly. */
    method Toggle()
      modifies this
      ensures mode == if old(mode) == Monthly then Daily else Monthly
    {
      mode := if mode == Monthly then Daily else Monthly;
    }

    /** One render: no chart for no expenses; otherwise one strictly ascending label per key
        present, each with the total for that key, and all of them adding up to the spending. */
    method Render(expenses: seq<Expense>, parse: string -> real) returns (chart: Chart)
      ensures chart == NoData <==> expenses == []
      ensures chart.Line? ==>
                && |chart.values| == |chart.labels|
                && (forall i, j | 0 <= i < j < |chart.labels| ::
                      JsString.LexLe(chart.labels[i], chart.labels[j]) && chart.labels[i] != chart.labels[j])
                && (forall k :: k in chart.labels <==> HasDateKey(expenses, mode, k))
                && (forall i | 0 <= i < |chart.labels| ::
                      chart.values[i] == TotalFor(Entries(expenses, mode, parse), chart.labels[i]))
                && SumSeq(chart.values) == Spending(expenses, parse)
    {
      if |expenses| == 0 {
        return NoData;
      }
      var es := Entries(expenses, mode, parse);
      var keys, grouped := Accumulate(es);
      var labels := SortLabels(keys);
      SameElements(labels, keys);
      KeysOfEntries(expenses, mode, parse);
      var values := Lookup(labels, grouped);
      FirstsCover(es);
      LookupIsTotal(labels, grouped, es);
      EntriesTotal(expenses, mode, parse);
      chart := Line(labels, values);
    }
  }
}
