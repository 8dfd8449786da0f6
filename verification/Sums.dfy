/** Cached sums over the entries of a map, grouped by what each entry feeds. */
module Sums {
  import opened Wrappers

  type Numbers = map<string, int>

  function Number(m: Numbers, k: string): int { if k in m then m[k] else 0 }

  /** The sum of the values of a set of keys. */
  ghost function Sum(s: set<string>, counts: Numbers): int {
    if s == {} then 0 else var x :| x in s; Number(counts, x) + Sum(s - {x}, counts)
  }

  lemma {:induction false} SumPicks(s: set<string>, counts: Numbers, x: string)
    requires x in s
    ensures Sum(s, counts) == Number(counts, x) + Sum(s - {x}, counts)
  {
    var y :| y in s && Sum(s, counts) == Number(counts, y) + Sum(s - {y}, counts);
    if y != x {
      SumPicks(s - {y}, counts, x);
      SumPicks(s - {x}, counts, y);
      assert s - {y} - {x} == s - {x} - {y};
    }
  }

  /** No key adds nothing, one key its value. */
  lemma SumOfOne(x: string, counts: Numbers)
    ensures Sum({}, counts) == 0 && Sum({x}, counts) == Number(counts, x)
  {
    SumPicks({x}, counts, x);
    assert {x} - {x} == {};
  }

  lemma {:induction false} SumAgrees(s: set<string>, counts: Numbers, others: Numbers)
    requires forall x :: x in s ==> Number(counts, x) == Number(others, x)
    ensures Sum(s, counts) == Sum(s, others)
  {
    if s != {} {
      var x :| x in s;
      SumPicks(s, counts, x);
      SumPicks(s, others, x);
      SumAgrees(s - {x}, counts, others);
    }
  }

  /** The entries that feed the sum a. */
  ghost function Feeding(target: string -> Option<string>, counts: Numbers, a: string): set<string> {
    set x | x in counts && target(x) == Some(a)
  }

  ghost function Total(target: string -> Option<string>, counts: Numbers, a: string): int {
    Sum(Feeding(target, counts, a), counts)
  }

  lemma FedTotal(target: string -> Option<string>, counts: Numbers, k: string, v: int, a: string)
    requires target(k) == Some(a)
    ensures Total(target, counts[k := v], a) == Total(target, counts, a) - Number(counts, k) + v
  {
    var s, s' := Feeding(target, counts, a), Feeding(target, counts[k := v], a);
    SumPicks(s', counts[k := v], k);
    SumAgrees(s' - {k}, counts, counts[k := v]);
    assert s' - {k} == s - {k};
    if k in counts {
      SumPicks(s, counts, k);
    } else {
      assert s - {k} == s;
    }
  }

  lemma UnfedTotal(target: string -> Option<string>, counts: Numbers, k: string, v: int, a: string)
    requires target(k) != Some(a)
    ensures Total(target, counts[k := v], a) == Total(target, counts, a)
  {
    assert Feeding(target, counts[k := v], a) == Feeding(target, counts, a);
    SumAgrees(Feeding(target, counts, a), counts, counts[k := v]);
  }

  /** Every cached sum is what its entries add up to. */
  ghost predicate AddsUp(target: string -> Option<string>, counts: Numbers, sums: Numbers) {
    forall a :: Number(sums, a) == Total(target, counts, a)
  }

  /** Raising an entry and a cached sum together keeps the sums exactly when the entry
      feeds that sum, or nothing is added. */
  lemma RaiseSums(target: string -> Option<string>, counts: Numbers, sums: Numbers, k: string, a: string, delta: int)
    requires AddsUp(target, counts, sums)
    ensures AddsUp(target, counts[k := Number(counts, k) + delta], sums[a := Number(sums, a) + delta])
            <==> target(k) == Some(a) || delta == 0
  {
    var counts', sums' := counts[k := Number(counts, k) + delta], sums[a := Number(sums, a) + delta];
    forall b
      ensures Number(sums', b) - Total(target, counts', b)
              == (if b == a then delta else 0) - if target(k) == Some(b) then delta else 0
    {
      if target(k) == Some(b) {
        FedTotal(target, counts, k, Number(counts, k) + delta, b);
      } else {
        UnfedTotal(target, counts, k, Number(counts, k) + delta, b);
      }
    }
    if target(k) != Some(a) && AddsUp(target, counts', sums') {
      assert Number(sums', a) == Total(target, counts', a);
    }
  }
}
