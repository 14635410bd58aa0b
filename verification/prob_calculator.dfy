/** `ProbCalculator` of `pyutils/misc.py`: a list of (rate, item) pairs with the running total of the
    rates, from which `get` draws an item with probability proportional to its rate. */
module ProbCalculators {
  import opened Wrappers

  /** `NoItem`, raised by `get` on an empty calculator; the `ValueError` of `random.randrange(0, precision)`
      in `get` when the precision is not positive; and the `AssertionError` of `add` for a rate that is
      not positive. */
  datatype ProbError = NoItem | ValueError | AssertionError

  /** The sum of the rates of a list of pairs. */
  function SumRates<T>(items: seq<(int, T)>): int
  {
    if items == [] then 0 else SumRates(items[..|items| - 1]) + items[|items| - 1].0
  }

  /** The total of a concatenation is the sum of the totals. */
  lemma {:induction false} SumRatesConcat<T>(a: seq<(int, T)>, b: seq<(int, T)>)
    ensures SumRates(a + b) == SumRates(a) + SumRates(b)
    decreases |b|
  {
    if b != [] {
      assert (a + b)[..|a + b| - 1] == a + b[..|b| - 1];
      assert (a + b)[|a + b| - 1] == b[|b| - 1];
      SumRatesConcat(a, b[..|b| - 1]);
    } else {
      assert a + b == a;
    }
  }

  /** The position of the first pair holding `item`, or the length of the list when none does. */
  function FirstIndex<T(==)>(items: seq<(int, T)>, item: T): (k: nat)
    ensures k <= |items|
    ensures forall i :: 0 <= i < k ==> items[i].1 != item
    ensures k < |items| ==> items[k].1 == item
  {
    if items == [] then 0
    else if items[0].1 == item then 0
    else 1 + FirstIndex(items[1..], item)
  }

  class ProbCalculator<T(==)> {
    var precision: int
    var items: seq<(int, T)>
    var totalRate: int
    var stable: bool

    /** The running total is the sum of the rates held, and every rate held is positive. */
    ghost predicate Valid()
      reads this
    {
      totalRate == SumRates(items) && forall p :: p in items ==> p.0 > 0
    }

    constructor (precision: int)
      ensures Valid() && items == [] && totalRate == 0 && !stable && this.precision == precision
    {
      this.precision := precision;
      items := [];
      totalRate := 0;
      stable := false;
    }

    /** `add`: a rate that is not positive fails the source's `assert` and changes nothing; otherwise the
        pair is appended and its rate added to the total. */
    method Add(rate: int, item: T) returns (r: Result<(), ProbError>)
      requires Valid()
      modifies this
      ensures Valid() && precision == old(precision)
      ensures rate <= 0 ==> r == Err(AssertionError) && unchanged(this)
      ensures rate > 0 ==>
        r.Ok? && items == old(items) + [(rate, item)] && totalRate == old(totalRate) + rate && !stable
    {
      if rate <= 0 {
        return Err(AssertionError);
      }
      items := items + [(rate, item)];
      totalRate := totalRate + rate;
      stable := false;
      assert items[..|items| - 1] == old(items);
      return Ok(());
    }

    /** `remove`: drops the first pair whose item matches and subtracts its rate; nothing changes when no
        pair matches. */
    method Remove(item: T)
      requires Valid()
      modifies this
      ensures Valid() && precision == old(precision)
      ensures var k := FirstIndex(old(items), item);
        if k == |old(items)| then
          items == old(items) && totalRate == old(totalRate) && stable == old(stable)
        else
          items == old(items)[..k] + old(items)[k + 1..] &&
          totalRate == old(totalRate) - old(items)[k].0 && !stable
    {
      var i := 0;
      while i < |items|
        invariant 0 <= i <= |items|
        invariant forall j :: 0 <= j < i ==> items[j].1 != item
      {
        var pair := items[i];
        if pair.1 == item {
          FirstIndexUnique(items, item, i);
          RemoveAt(items, i);
          items := items[..i] + items[i + 1..];
          totalRate := totalRate - pair.0;
          stable := false;
          return;
        }
        i := i + 1;
      }
      FirstIndexUnique(items, item, |items|);
    }

    /** `empty`. */
    function Empty(): (r: bool)
      reads this
      ensures r <==> items == []
    {
      !(|items| > 0)
    }

    /** `get`: `NoItem` exactly when the calculator is empty; otherwise the ranges are computed (the
        calculator becomes stable) and the draw from `0..precision` fails with `ValueError` when the
        precision is not positive; otherwise the item of the pair at position `pick`, which stands for
        the pair the draw selects. */
    method Get(pick: nat) returns (r: Result<T, ProbError>)
      requires Valid()
      requires !Empty() ==> pick < |items|
      modifies this
      ensures Empty() ==> r == Err(NoItem)
      ensures !Empty() && precision <= 0 ==> r == Err(ValueError)
      ensures r.Ok? <==> !Empty() && precision > 0
      ensures r.Ok? ==> pick < |items| && r.value == items[pick].1
      ensures items == old(items) && totalRate == old(totalRate) && precision == old(precision)
      ensures stable == (old(stable) || !Empty())
    {
      if items == [] {
        return Err(NoItem);
      }
      stable := true;
      if precision <= 0 {
        return Err(ValueError);
      }
      return Ok(items[pick].1);
    }
  }

  /** A list of pairs with positive rates is non-empty exactly when its total is positive. */
  lemma {:induction false} PositiveTotal<T>(items: seq<(int, T)>)
    requires forall p :: p in items ==> p.0 > 0
    ensures items != [] <==> SumRates(items) > 0
    ensures SumRates(items) >= 0
    decreases |items|
  {
    if items != [] {
      PositiveTotal(items[..|items| - 1]);
    }
  }

  /** `FirstIndex` is the only position before which no pair matches and at which one does. */
  lemma FirstIndexUnique<T>(items: seq<(int, T)>, item: T, k: nat)
    requires k <= |items|
    requires forall i :: 0 <= i < k ==> items[i].1 != item
    requires k < |items| ==> items[k].1 == item
    ensures FirstIndex(items, item) == k
  {
  }

  /** Removing the pair at position `k` takes its rate off the total and keeps the remaining rates. */
  lemma RemoveAt<T>(items: seq<(int, T)>, k: nat)
    requires k < |items|
    ensures SumRates(items[..k] + items[k + 1..]) == SumRates(items) - items[k].0
    ensures forall p :: p in items[..k] + items[k + 1..] ==> p in items
  {
    var left, right := items[..k], items[k + 1..];
    assert items == left + [items[k]] + right;
    SumRatesConcat(left + [items[k]], right);
    SumRatesConcat(left, [items[k]]);
    SumRatesConcat(left, right);
    assert [items[k]][..0] == [];
    forall p | p in left + right ensures p in items {
      if p in left {
        var i :| 0 <= i < k && left[i] == p;
        assert items[i] == p;
      } else {
        var i :| 0 <= i < |right| && right[i] == p;
        assert items[k + 1 + i] == p;
      }
    }
  }

  /** The bookkeeping of a calculator's life: a rate that is not positive is refused, each pair's rate
      enters and leaves the total with the pair, removing an item that is not there changes nothing,
      `get` fails exactly once the last pair is gone, and a precision of zero leaves nothing to draw. */
  method Bookkeeping<T(==)>(a: T, b: T) returns (refused: Result<(), ProbError>, total: int,
                                                 kept: seq<(int, T)>, drawn: Result<T, ProbError>,
                                                 last: Result<T, ProbError>, noDraw: Result<T, ProbError>)
    requires a != b
    ensures refused == Err(AssertionError)
    ensures total == 30 && kept == [(30, b)]
    ensures drawn == Ok(b)
    ensures last == Err(NoItem)
    ensures noDraw == Err(ValueError)
  {
    var calculator := new ProbCalculator<T>(100);
    var ok := calculator.Add(50, a);
    ok := calculator.Add(30, b);
    refused := calculator.Add(0, a);
    assert calculator.items == [(50, a), (30, b)];
    assert FirstIndex(calculator.items, a) == 0;
    calculator.Remove(a);
    assert calculator.items == [(30, b)] && calculator.totalRate == 30;
    assert FirstIndex(calculator.items, a) == 1;
    calculator.Remove(a);
    total, kept := calculator.totalRate, calculator.items;
    drawn := calculator.Get(0);
    assert FirstIndex(calculator.items, b) == 0;
    calculator.Remove(b);
    assert calculator.items == [];
    last := calculator.Get(0);
    var coarse := new ProbCalculator<T>(0);
    ok := coarse.Add(1, a);
    noDraw := coarse.Get(0);
  }
}
