/**
 * Expenses as the browser holds them, after `getExpenses` answered: the amount arrives as a
 * number (`parseFloat` on the server), and may still be text where a component guards for it.
 * `parse` stands for `parseFloat` throughout; dates are the ISO-8601 text the server sends.
 */
module Client {

  datatype Amount = Num(value: real) | Str(text: string)

  datatype Expense = Expense(id: string, title: string, amount: Amount, category: string, date: string)

  /** `typeof amount === 'string' ? parseFloat(amount) : amount` (and `parseFloat` of a number,
      which gives the number back). */
  function AmountValue(a: Amount, parse: string -> real): real
  {
    match a
    case Num(v) => v
    case Str(t) => parse(t)
  }

  /** `expenses.reduce((sum, exp) => sum + parseFloat(exp.amount), 0)`. */
  function Spending(expenses: seq<Expense>, parse: string -> real): (total: real)
    ensures (forall i | 0 <= i < |expenses| :: AmountValue(expenses[i].amount, parse) >= 0.0) ==> total >= 0.0
  {
    if expenses == [] then 0.0
    else Spending(expenses[..|expenses| - 1], parse) + AmountValue(expenses[|expenses| - 1].amount, parse)
  }

  /** The running sum splits over a concatenation. */
  lemma {:induction false} SpendingAppend(a: seq<Expense>, b: seq<Expense>, parse: string -> real)
    ensures Spending(a + b, parse) == Spending(a, parse) + Spending(b, parse)
    decreases |b|
  {
    if b == [] {
      assert a + b == a;
    } else {
      var init := b[..|b| - 1];
      SpendingAppend(a, init, parse);
      assert (a + b)[..|a + b| - 1] == a + init;
    }
  }

  /** Taking one expense out of the list takes its amount out of the total. */
  lemma SpendingRemove(front: seq<Expense>, x: Expense, back: seq<Expense>, parse: string -> real)
    ensures Spending(front + [x] + back, parse) == Spending(front + back, parse) + AmountValue(x.amount, parse)
  {
    var withX := front + [x];
    assert withX[..|withX| - 1] == front;
    SpendingAppend(withX, back, parse);
    SpendingAppend(front, back, parse);
  }

  lemma MultisetRemove(front: seq<Expense>, x: Expense, back: seq<Expense>)
    ensures multiset(front + back) == multiset(front + [x] + back) - multiset{x}
  {
  }

  /** Matching the last expense of `a` with one occurrence of it in a rearrangement `b` leaves
      rearrangements of each other on both sides. */
  lemma MatchLast(a: seq<Expense>, b: seq<Expense>) returns (front: seq<Expense>, back: seq<Expense>)
    requires a != [] && multiset(a) == multiset(b)
    ensures b == front + [a[|a| - 1]] + back
    ensures multiset(a[..|a| - 1]) == multiset(front + back)
  {
    var x := a[|a| - 1];
    var init := a[..|a| - 1];
    assert x in multiset(b) by {
      assert x in multiset(a);
    }
    var k :| 0 <= k < |b| && b[k] == x;
    front, back := b[..k], b[k + 1..];
    assert b == front + [x] + back;
    MultisetRemove(front, x, back);
    MultisetRemove(init, x, []);
    assert init + [x] + [] == a;
  }

  /** The total does not depend on the order of the list: any rearrangement has the same sum. */
  lemma {:induction false} SpendingPermutation(a: seq<Expense>, b: seq<Expense>, parse: string -> real)
    requires multiset(a) == multiset(b)
    ensures Spending(a, parse) == Spending(b, parse)
    decreases |a|
  {
    if a == [] {
      assert |b| == |multiset(b)| == 0;
    } else {
      var x := a[|a| - 1];
      var init := a[..|a| - 1];
      var front, back := MatchLast(a, b);
      SpendingPermutation(init, front + back, parse);
      SpendingRemove(front, x, back, parse);
      assert Spending(a, parse) == Spending(init, parse) + AmountValue(x.amount, parse);
    }
  }
}
