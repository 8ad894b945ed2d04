/**
 * Summing amounts per key into a JavaScript object, as both charts do: `grouped[key] =
 * (grouped[key] || 0) + amount` in `SpendingTrendChart`'s `forEach`, and `acc[category] = ...` in
 * `ExpenseChart`'s `reduce`. A JavaScript object with string keys lists its keys in the order they
 * were first written; the model keeps that order as a sequence beside the map of sums.
 */
module Grouping {
  import opened Lists

  /** One expense as the grouping sees it: its key and its amount. */
  datatype Entry = Entry(key: string, amount: real)

  function Last<T>(s: seq<T>): T
    requires |s| > 0
  {
    s[|s| - 1]
  }

  predicate HasKey(es: seq<Entry>, k: string)
  {
    exists i | 0 <= i < |es| :: es[i].key == k
  }

  /** The index of the first entry keyed `k`. */
  function FirstIndex(es: seq<Entry>, k: string): (i: nat)
    requires HasKey(es, k)
    ensures i < |es| && es[i].key == k
    ensures forall j | 0 <= j < i :: es[j].key != k
  {
    var init := es[..|es| - 1];
    if HasKey(init, k) then
      var i := FirstIndex(init, k);
      assert es[i] == init[i];
      assert forall j | 0 <= j < i :: es[j] == init[j];
      i
    else
      assert forall j | 0 <= j < |init| :: es[j] == init[j] && init[j].key != k;
      |es| - 1
  }

  /** The keys of `es`, each once, in the order of their first occurrence. */
  function Firsts(es: seq<Entry>): (r: seq<string>)
    ensures Distinct(r)
    ensures forall k :: k in r <==> HasKey(es, k)
  {
    if es == [] then []
    else
      var init := es[..|es| - 1];
      var r := Firsts(init);
      assert forall i | 0 <= i < |init| :: init[i] == es[i];
      if Last(es).key in r then r
      else
        var r' := r + [Last(es).key];
        assert forall k :: k in r' <==> HasKey(es, k) by {
          forall k ensures k in r' <==> HasKey(es, k) {
            if HasKey(es, k) {
              var i :| 0 <= i < |es| && es[i].key == k;
              if i < |init| { assert HasKey(init, k); }
            }
          }
        }
        r'
  }

  /** `keys` come in the order of their first entries in `es`. */
  ghost predicate InFirstOrder(es: seq<Entry>, keys: seq<string>)
    requires forall k | k in keys :: HasKey(es, k)
  {
    forall i, j | 0 <= i < j < |keys| :: FirstIndex(es, keys[i]) < FirstIndex(es, keys[j])
  }

  /** The keys come in the order of first insertion: each key's first entry precedes the first
      entry of every key after it. */
  lemma {:induction false} FirstsOrder(es: seq<Entry>)
    ensures InFirstOrder(es, Firsts(es))
  {
    if es != [] {
      var init := es[..|es| - 1];
      var r := Firsts(init);
      FirstsOrder(init);
      assert InFirstOrder(init, r);
      forall k | k in r ensures FirstIndex(es, k) == FirstIndex(init, k) < |init| {
        assert HasKey(init, k);
      }
      if Last(es).key in r {
        assert Firsts(es) == r;
        forall i, j | 0 <= i < j < |r| ensures FirstIndex(es, r[i]) < FirstIndex(es, r[j]) {
          assert r[i] in r && r[j] in r;
          assert FirstIndex(init, r[i]) < FirstIndex(init, r[j]);
        }
      } else {
        assert !HasKey(init, Last(es).key);
        assert FirstIndex(es, Last(es).key) == |es| - 1;
        var r' := r + [Last(es).key];
        assert Firsts(es) == r';
        forall i, j | 0 <= i < j < |r'| ensures FirstIndex(es, r'[i]) < FirstIndex(es, r'[j]) {
          assert r'[i] == r[i] && r[i] in r;
          if j < |r| {
            assert r'[j] == r[j] && r[j] in r;
            assert FirstIndex(init, r[i]) < FirstIndex(init, r[j]);
          }
        }
      }
    }
  }

  /** One more entry adds its key at the end, unless the key was already there. */
  lemma FirstsSnoc(es: seq<Entry>, e: Entry)
    ensures Firsts(es + [e]) == if e.key in Firsts(es) then Firsts(es) else Firsts(es) + [e.key]
  {
    assert (es + [e])[..|es|] == es;
  }

  /** Every entry's key is among the first occurrences. */
  lemma FirstsCover(es: seq<Entry>)
    ensures forall i | 0 <= i < |es| :: es[i].key in Firsts(es)
  {
    forall i | 0 <= i < |es| ensures es[i].key in Firsts(es) {
      assert HasKey(es, es[i].key);
    }
  }

  /** Every entry has key `k`. */
  predicate AllKeyed(es: seq<Entry>, k: string)
  {
    forall i | 0 <= i < |es| :: es[i].key == k
  }

  /** The sum of the amounts of the entries with key `k`, added left to right. */
  function TotalFor(es: seq<Entry>, k: string): real
  {
    if es == [] then 0.0
    else TotalFor(es[..|es| - 1], k) + (if Last(es).key == k then Last(es).amount else 0.0)
  }

  lemma {:induction false} TotalForAbsent(es: seq<Entry>, k: string)
    requires !HasKey(es, k)
    ensures TotalFor(es, k) == 0.0
  {
    if es != [] {
      var init := es[..|es| - 1];
      assert !HasKey(init, k) by {
        forall i | 0 <= i < |init| ensures init[i].key != k { assert init[i] == es[i]; }
      }
      TotalForAbsent(init, k);
    }
  }

  /** The sum of all amounts, added left to right. */
  function Total(es: seq<Entry>): real
  {
    if es == [] then 0.0 else Total(es[..|es| - 1]) + Last(es).amount
  }

  /** When every entry has key `k`, its total is the sum of all amounts. */
  lemma {:induction false} TotalForAllKeyed(es: seq<Entry>, k: string)
    requires AllKeyed(es, k)
    ensures TotalFor(es, k) == Total(es)
  {
    if es != [] {
      var init := es[..|es| - 1];
      assert AllKeyed(init, k) by {
        forall i | 0 <= i < |init| ensures init[i].key == k { assert init[i] == es[i]; }
      }
      TotalForAllKeyed(init, k);
    }
  }

  function SumSeq(vs: seq<real>): real
  {
    if vs == [] then 0.0 else vs[0] + SumSeq(vs[1..])
  }

  /** `keys.map(k => sums[k])`. */
  function Lookup(keys: seq<string>, sums: map<string, real>): (vs: seq<real>)
    requires forall i | 0 <= i < |keys| :: keys[i] in sums
    ensures |vs| == |keys|
    ensures forall i | 0 <= i < |keys| :: vs[i] == sums[keys[i]]
  {
    if keys == [] then [] else [sums[keys[0]]] + Lookup(keys[1..], sums)
  }

  /** The per-key totals for the keys `ks`, summed. */
  function SumTotals(ks: seq<string>, es: seq<Entry>): real
  {
    if ks == [] then 0.0 else TotalFor(es, ks[0]) + SumTotals(ks[1..], es)
  }

  lemma {:induction false} SumTotalsSnoc(ks: seq<string>, es: seq<Entry>, e: Entry)
    requires Distinct(ks)
    ensures SumTotals(ks, es + [e]) == SumTotals(ks, es) + (if e.key in ks then e.amount else 0.0)
  {
    if ks != [] {
      assert (es + [e])[..|es|] == es;
      assert Distinct(ks[1..]) by {
        forall i, j | 0 <= i < j < |ks[1..]| ensures ks[1..][i] != ks[1..][j] {
          assert ks[1..][i] == ks[i + 1] && ks[1..][j] == ks[j + 1];
        }
      }
      SumTotalsSnoc(ks[1..], es, e);
      if ks[0] == e.key {
        assert e.key !in ks[1..] by {
          forall j | 0 <= j < |ks[1..]| ensures ks[1..][j] != e.key { assert ks[1..][j] == ks[j + 1]; }
        }
      } else {
        assert e.key in ks ==> e.key in ks[1..] by {
          if e.key in ks {
            var j :| 0 <= j < |ks| && ks[j] == e.key;
            assert ks[1..][j - 1] == e.key;
          }
        }
      }
    }
  }

  /** Summing the per-key totals over a list naming every key once gives the total of all
      amounts, whatever the order of that list. */
  lemma {:induction false} SumTotalsIsTotal(ks: seq<string>, es: seq<Entry>)
    requires Distinct(ks)
    requires forall i | 0 <= i < |es| :: es[i].key in ks
    ensures SumTotals(ks, es) == Total(es)
  {
    if es == [] {
      SumTotalsEmpty(ks);
    } else {
      var init := es[..|es| - 1];
      assert es == init + [Last(es)];
      SumTotalsIsTotal(ks, init);
      SumTotalsSnoc(ks, init, Last(es));
    }
  }

  lemma {:induction false} SumTotalsEmpty(ks: seq<string>)
    ensures SumTotals(ks, []) == 0.0
  {
    if ks != [] {
      SumTotalsEmpty(ks[1..]);
    }
  }

  lemma {:induction false} SumLookup(ks: seq<string>, sums: map<string, real>, es: seq<Entry>)
    requires forall i | 0 <= i < |ks| :: ks[i] in sums && sums[ks[i]] == TotalFor(es, ks[i])
    ensures SumSeq(Lookup(ks, sums)) == SumTotals(ks, es)
  {
    if ks != [] {
      assert Lookup(ks, sums)[1..] == Lookup(ks[1..], sums);
      SumLookup(ks[1..], sums, es);
    }
  }

  /** The values read back for a list naming every key once add up to the total of all amounts. */
  lemma LookupIsTotal(ks: seq<string>, sums: map<string, real>, es: seq<Entry>)
    requires Distinct(ks)
    requires forall i | 0 <= i < |es| :: es[i].key in ks
    requires forall i | 0 <= i < |ks| :: ks[i] in sums && sums[ks[i]] == TotalFor(es, ks[i])
    ensures SumSeq(Lookup(ks, sums)) == Total(es)
  {
    SumLookup(ks, sums, es);
    SumTotalsIsTotal(ks, es);
  }

  /** `keys` and `sums` are the object's keys and values after the entries `seen`. */
  ghost predicate Grouped(seen: seq<Entry>, keys: seq<string>, sums: map<string, real>)
  {
    && keys == Firsts(seen)
    && (forall k :: k in sums <==> k in keys)
    && (forall k | k in sums :: sums[k] == TotalFor(seen, k))
  }

  /** One turn of the grouping loop keeps the keys and sums those of the entries seen so far. */
  lemma AccumulateStep(es: seq<Entry>, i: nat, keys: seq<string>, sums: map<string, real>,
                        keys': seq<string>, sums': map<string, real>)
    requires i < |es|
    requires Grouped(es[..i], keys, sums)
    requires keys' == if es[i].key in sums then keys else keys + [es[i].key]
    requires sums' == sums[es[i].key := (if es[i].key in sums then sums[es[i].key] else 0.0) + es[i].amount]
    ensures Grouped(es[..i + 1], keys', sums')
  {
    var e := es[i];
    var seen := es[..i];
    var next := es[..i + 1];
    assert next[..i] == seen;
    assert next == seen + [e];
    FirstsSnoc(seen, e);
    if e.key !in sums {
      TotalForAbsent(seen, e.key);
    }
    forall k | k in sums' ensures sums'[k] == TotalFor(next, k) {
      assert TotalFor(next, k) == TotalFor(seen, k) + (if e.key == k then e.amount else 0.0);
    }
  }

  /** The grouping loop: `keys` are the object's keys in insertion order and `sums` its values. */
  method Accumulate(es: seq<Entry>) returns (keys: seq<string>, sums: map<string, real>)
    ensures keys == Firsts(es)
    ensures forall k :: k in sums <==> HasKey(es, k)
    ensures forall k | k in sums :: sums[k] == TotalFor(es, k)
  {
    keys, sums := [], map[];
    var i := 0;
    while i < |es|
      invariant 0 <= i <= |es|
      invariant Grouped(es[..i], keys, sums)
    {
      var e := es[i];
      ghost var keys0, sums0 := keys, sums;
      var before := if e.key in sums then sums[e.key] else 0.0;
      if e.key !in sums {
        keys := keys + [e.key];
      }
      sums := sums[e.key := before + e.amount];
      AccumulateStep(es, i, keys0, sums0, keys, sums);
      i := i + 1;
    }
    assert es[..i] == es;
  }
}
