/**
 * The pie chart of spending per category (frontend/Expense-tracker/src/components/ExpenseChart.jsx):
 * `dataMap` sums the amounts per category, `labels` and `dataValues` are its keys and values in
 * insertion order, and there is one colour per label.
 */
module ExpenseChart {
  import opened Lists
  import opened Grouping
  import opened Client

  datatype Chart = NoData | Pie(labels: seq<string>, values: seq<real>, colors: seq<string>)

  /** One entry per expense, keyed by its category, with its amount. */
  function Entries(expenses: seq<Expense>, parse: string -> real): seq<Entry>
  {
    seq(|expenses|, i requires 0 <= i < |expenses| => Entry(expenses[i].category, AmountValue(expenses[i].amount, parse)))
  }

  lemma {:induction false} EntriesTotal(expenses: seq<Expense>, parse: string -> real)
    ensures Total(Entries(expenses, parse)) == Spending(expenses, parse)
  {
    if expenses != [] {
      var init := expenses[..|expenses| - 1];
      EntriesTotal(init, parse);
      assert Entries(expenses, parse)[..|expenses| - 1] == Entries(init, parse);
    }
  }

  predicate HasCategory(expenses: seq<Expense>, c: string)
  {
    exists i | 0 <= i < |expenses| :: expenses[i].category == c
  }

  lemma KeysOfEntries(expenses: seq<Expense>, parse: string -> real)
    ensures forall c :: HasKey(Entries(expenses, parse), c) <==> HasCategory(expenses, c)
  {
    var es := Entries(expenses, parse);
    forall c ensures HasKey(es, c) <==> HasCategory(expenses, c) {
      if HasKey(es, c) {
        var i :| 0 <= i < |es| && es[i].key == c;
        assert expenses[i].category == c;
      }
      if HasCategory(expenses, c) {
        var i :| 0 <= i < |expenses| && expenses[i].category == c;
        assert es[i].key == c;
      }
    }
  }

  /** One render. `color(i)` stands for the i-th call of `getRandomColor`. No chart for no
      expenses; otherwise each category present once as a label, in first-seen order, with its
      total, the totals adding up to the spending, and one colour per label. */
  method Render(expenses: seq<Expense>, parse: string -> real, color: nat -> string) returns (chart: Chart)
    ensures chart == NoData <==> expenses == []
    ensures chart.Pie? ==>
              && |chart.values| == |chart.labels| == |chart.colors|
              && Distinct(chart.labels)
              && chart.labels == Firsts(Entries(expenses, parse))
              && InFirstOrder(Entries(expenses, parse), chart.labels)
              && (forall c :: c in chart.labels <==> HasCategory(expenses, c))
              && (forall i | 0 <= i < |chart.labels| ::
                    chart.values[i] == TotalFor(Entries(expenses, parse), chart.labels[i]))
              && SumSeq(chart.values) == Spending(expenses, parse)
              && (forall i | 0 <= i < |chart.colors| :: chart.colors[i] == color(i))
  {
    if |expenses| == 0 {
      return NoData;
    }
    var es := Entries(expenses, parse);
    var labels, dataMap := Accumulate(es);
    var values := Lookup(labels, dataMap);
    assert InFirstOrder(es, labels) by {
      FirstsOrder(es);
    }
    assert forall c :: c in labels <==> HasCategory(expenses, c) by {
      KeysOfEntries(expenses, parse);
    }
    assert SumSeq(values) == Spending(expenses, parse) by {
      FirstsCover(es);
      LookupIsTotal(labels, dataMap, es);
      EntriesTotal(expenses, parse);
    }
    var colors := seq(|labels|, (i: nat) => color(i));
    chart := Pie(labels, values, colors);
  }
}
