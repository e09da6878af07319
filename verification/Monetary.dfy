/** Exact monetary amounts in int64 minor units: wrapping addition, and Split. */
module Monetary {
  import opened Wrappers
  import opened GoInt

  datatype MoneyError = CurrencyMismatch | InvalidSplit

  datatype Money = Money(amount: int64, currency: string) {

    function Add(other: Money): Result<Money, MoneyError> {
      if currency != other.currency then Err(CurrencyMismatch)
      else Ok(Money(Wrap(amount + other.amount), currency))
    }

    function Sub(other: Money): Result<Money, MoneyError> {
      if currency != other.currency then Err(CurrencyMismatch)
      else Ok(Money(Wrap(amount - other.amount), currency))
    }

    function Neg(): Money {
      Money(Wrap(0 - amount as int), currency)
    }
  }

  /** Neg is the inverse of Add: the one amount that brings m to zero, and what Sub takes zero to. */
  lemma NegIsTheInverse(m: Money, x: Money)
    ensures m.Neg() == x <==> x.currency == m.currency && m.Add(x) == Ok(Money(0, m.currency))
    ensures Money(0, m.currency).Sub(m) == Ok(m.Neg())
  {
  }

  /** Sub answers with what Add takes back to m, and fails exactly on a foreign currency. */
  lemma SubIsAddBackwards(m: Money, other: Money, difference: Money)
    ensures m.Sub(other) == Ok(difference) <==>
            difference.currency == m.currency == other.currency && difference.Add(other) == Ok(m)
    ensures m.Sub(other) == Err(CurrencyMismatch) <==> m.currency != other.currency
  {
  }

  // ---------------------------------------------------------------- Split

  /** What part i of n should receive, said without Go's operators: the magnitude is shared as evenly
      as possible, the first parts take the spare units, and the sign is put back. */
  function Share(a: int, n: int, i: int): int
    requires n > 0
    decreases a < 0
  {
    if a >= 0 then a / n + (if i < a % n then 1 else 0) else -Share(-a, n, i)
  }

  lemma ShareFits(a: int64, n: int64, i: nat)
    requires n > 0
    ensures Fits(Share(a, n, i))
    ensures Fits(Quo(a, n)) && Fits(Rem(a, n)) && Fits(-Rem(a, n))
    ensures Share(a, n, i) == Quo(a, n) + (if i < Rem(a, n) then 1 else if i < -Rem(a, n) then -1 else 0)
  {
    var b: int := a;
    QuotientBounds(if b >= 0 then b else -b, n);
    if b < 0 {
      assert Share(a, n, i) == -Share(-b, n, i);
    }
  }

  lemma QuotientBounds(b: int, n: int)
    requires b >= 0 && n > 0
    ensures 0 <= b / n <= b && 0 <= b % n < n && b % n <= b
    ensures b % n > 0 ==> b / n < b
    ensures n >= 2 && b > 0 ==> b / n < b
  {
    assert b == (b / n) * n + b % n;
    MulMonotone(1, n, b / n);
    if b / n >= 1 && n >= 2 {
      MulMonotone(2, n, b / n);
    }
  }

  function Parts(m: Money, n: int64): (ps: seq<Money>)
    requires n > 0
    ensures |ps| == n
  {
    seq(n, i requires 0 <= i < n => (ShareFits(m.amount, n, i); Money(Share(m.amount, n, i), m.currency)))
  }

  /** Every intermediate value is held in an int64 variable, so the verifier also checks that no
      operation of the loop overflows, for every amount and every positive n. */
  method Split(m: Money, n: int64) returns (r: Result<seq<Money>, MoneyError>)
    ensures n <= 0 ==> r == Err(InvalidSplit)
    ensures n > 0 ==> r == Ok(Parts(m, n))
  {
    if n <= 0 {
      return Err(InvalidSplit);
    }
    ShareFits(m.amount, n, 0);
    var base: int64 := Quo(m.amount, n);
    var rem: int64 := Rem(m.amount, n);
    var sign: int64 := 1;
    if rem < 0 {
      sign := -1;
      rem := -rem;
    }
    var parts := new Money[n](_ => Money(0, ""));
    var i: int64 := 0;
    while i < n
      invariant 0 <= i <= n
      invariant forall j :: 0 <= j < i ==> parts[j] == Parts(m, n)[j]
    {
      ShareFits(m.amount, n, i);
      var amt: int64 := base;
      if i < rem {
        amt := amt + sign;
      }
      parts[i] := Money(amt, m.currency);
      i := i + 1;
    }
    assert parts[..] == Parts(m, n);
    return Ok(parts[..]);
  }

  // ---------------------------------------------------------------- Sums

  function Total(ms: seq<Money>): int {
    if ms == [] then 0 else Total(ms[..|ms| - 1]) + ms[|ms| - 1].amount
  }

  predicate AllIn(ms: seq<Money>, currency: string) {
    forall i :: 0 <= i < |ms| ==> ms[i].currency == currency
  }

  function Min(x: int, y: int): int {
    if x <= y then x else y
  }

  /** The first k parts hold k base shares and the first min(k, |rem|) spare units. */
  lemma {:induction false} PrefixTotal(m: Money, n: int64, k: nat)
    requires 0 < n && k <= n
    ensures var rem := Rem(m.amount, n);
            Total(Parts(m, n)[..k]) ==
            k * Quo(m.amount, n) + (if rem < 0 then -Min(k, -rem) else Min(k, rem))
  {
    hide Share, Quo, Rem;
    if k > 0 {
      PrefixTotal(m, n, k - 1);
      ShareFits(m.amount, n, k - 1);
      assert Parts(m, n)[..k][..k - 1] == Parts(m, n)[..k - 1];
      assert k * Quo(m.amount, n) == (k - 1) * Quo(m.amount, n) + Quo(m.amount, n);
    }
  }

  /** No minor unit is created or lost. */
  lemma SplitConserves(m: Money, n: int64)
    requires n > 0
    ensures Total(Parts(m, n)) == m.amount && AllIn(Parts(m, n), m.currency)
  {
    PrefixTotal(m, n, n);
    assert Parts(m, n)[..n] == Parts(m, n);
    TruncatedDivision(m.amount, n, Quo(m.amount, n), Rem(m.amount, n));
    ShareFits(m.amount, n, 0);
  }

  // ---------------------------------------------------------------- Folding Add and Sub

  function FoldAdd(acc: Money, ms: seq<Money>): Result<Money, MoneyError> {
    if ms == [] then Ok(acc)
    else
      var before := FoldAdd(acc, ms[..|ms| - 1]);
      if before.Err? then before else before.value.Add(ms[|ms| - 1])
  }

  function FoldSub(acc: Money, ms: seq<Money>): Result<Money, MoneyError> {
    if ms == [] then Ok(acc)
    else
      var before := FoldSub(acc, ms[..|ms| - 1]);
      if before.Err? then before else before.value.Sub(ms[|ms| - 1])
  }

  lemma AllInLast(ms: seq<Money>, currency: string)
    requires ms != []
    ensures AllIn(ms, currency) <==> AllIn(ms[..|ms| - 1], currency) && ms[|ms| - 1].currency == currency
  {
  }

  /** However the intermediate sums wrap, the fold is the exact sum wrapped once; it fails exactly on
      a foreign currency. */
  lemma {:induction false} FoldAddIsTotal(acc: Money, ms: seq<Money>)
    ensures FoldAdd(acc, ms) ==
            if AllIn(ms, acc.currency) then Ok(Money(Wrap(acc.amount + Total(ms)), acc.currency))
            else Err(CurrencyMismatch)
  {
    if ms != [] {
      var init := ms[..|ms| - 1];
      FoldAddIsTotal(acc, init);
      WrapAbsorbs(acc.amount + Total(init), ms[|ms| - 1].amount);
      AllInLast(ms, acc.currency);
    }
  }

  lemma {:induction false} FoldSubIsTotal(acc: Money, ms: seq<Money>)
    requires AllIn(ms, acc.currency)
    ensures FoldSub(acc, ms) == Ok(Money(Wrap(acc.amount - Total(ms)), acc.currency))
  {
    if ms != [] {
      FoldSubIsTotal(acc, ms[..|ms| - 1]);
      WrapAbsorbs(acc.amount - Total(ms[..|ms| - 1]), ms[|ms| - 1].amount);
    }
  }

  /** Subtracting a list undoes adding it, even when the additions wrapped. */
  lemma FoldSubUndoesFoldAdd(acc: Money, ms: seq<Money>)
    requires FoldAdd(acc, ms).Ok?
    ensures FoldSub(FoldAdd(acc, ms).value, ms) == Ok(acc)
  {
    FoldAddIsTotal(acc, ms);
    FoldSubIsTotal(FoldAdd(acc, ms).value, ms);
    WrapAbsorbs(acc.amount + Total(ms), Total(ms));
  }

  lemma {:induction false} TotalConcat(a: seq<Money>, b: seq<Money>)
    ensures Total(a + b) == Total(a) + Total(b)
  {
    if b == [] {
      assert a + b == a;
    } else {
      assert (a + b)[..|a + b| - 1] == a + b[..|b| - 1];
      TotalConcat(a, b[..|b| - 1]);
    }
  }

  lemma {:induction false} TotalIgnoresOrder(a: seq<Money>, b: seq<Money>)
    requires multiset(a) == multiset(b)
    ensures Total(a) == Total(b)
  {
    if a == [] {
      assert |multiset(b)| == 0;
      assert b == [];
    } else {
      var last := a[|a| - 1];
      var rest := a[..|a| - 1];
      assert a == rest + [last];
      assert last in multiset(b);
      var i :| 0 <= i < |b| && b[i] == last;
      assert b == b[..i] + [last] + b[i + 1..];
      assert multiset(b) == multiset(b[..i]) + multiset{last} + multiset(b[i + 1..]);
      assert multiset(b[..i] + b[i + 1..]) == multiset(b) - multiset{last};
      assert multiset(rest) == multiset(a) - multiset{last};
      TotalIgnoresOrder(rest, b[..i] + b[i + 1..]);
      TotalConcat(b[..i], b[i + 1..]);
      TotalConcat(b[..i] + [last], b[i + 1..]);
      TotalConcat(b[..i], [last]);
    }
  }

  /** The order in which values are added never matters, not even for whether it fails. */
  lemma FoldAddIgnoresOrder(acc: Money, a: seq<Money>, b: seq<Money>)
    requires multiset(a) == multiset(b)
    ensures FoldAdd(acc, a) == FoldAdd(acc, b)
  {
    FoldAddIsTotal(acc, a);
    FoldAddIsTotal(acc, b);
    TotalIgnoresOrder(a, b);
    if AllIn(a, acc.currency) {
      AllInIgnoresOrder(a, b, acc.currency);
    } else if AllIn(b, acc.currency) {
      AllInIgnoresOrder(b, a, acc.currency);
    }
  }

  lemma AllInIgnoresOrder(a: seq<Money>, b: seq<Money>, currency: string)
    requires multiset(a) == multiset(b) && AllIn(a, currency)
    ensures AllIn(b, currency)
  {
    forall i | 0 <= i < |b| ensures b[i].currency == currency {
      assert b[i] in multiset(b);
      assert b[i] in a;
    }
  }

  /** Adding up the first k parts of a split, starting from nothing, gives exactly their sum: no
      partial sum ever wraps, and all n parts give m back. */
  lemma AddingPartsNeverWraps(m: Money, n: int64, k: nat)
    requires 0 < n && k <= n
    ensures FoldAdd(Money(0, m.currency), Parts(m, n)[..k]).Ok?
    ensures FoldAdd(Money(0, m.currency), Parts(m, n)[..k]).value.amount == Total(Parts(m, n)[..k])
    ensures FoldAdd(Money(0, m.currency), Parts(m, n)) == Ok(m)
  {
    var ps := Parts(m, n);
    FoldAddIsTotal(Money(0, m.currency), ps[..k]);
    FoldAddIsTotal(Money(0, m.currency), ps);
    SplitConserves(m, n);
    PrefixTotal(m, n, k);
    TruncatedDivision(m.amount, n, Quo(m.amount, n), Rem(m.amount, n));
    PrefixBetween(m.amount, n, Quo(m.amount, n), Rem(m.amount, n), k);
  }

  lemma PrefixBetween(a: int, n: int, q: int, r: int, k: int)
    requires 0 <= k <= n && a == q * n + r && -n < r < n
    requires (a >= 0 ==> r >= 0) && (a <= 0 ==> r <= 0)
    ensures var p := k * q + (if r < 0 then -Min(k, -r) else Min(k, r));
            0 <= p <= a || a <= p <= 0
  {
  }

  // ---------------------------------------------------------------- Split is the only even sharing

  /** Any two amounts differ by at most one minor unit. */
  predicate Even(ms: seq<Money>) {
    forall i, j :: 0 <= i < |ms| && 0 <= j < |ms| ==> ms[i].amount - ms[j].amount <= 1
  }

  function Count(ms: seq<Money>, v: int): (c: nat) {
    if ms == [] then 0 else Count(ms[..|ms| - 1], v) + (if ms[|ms| - 1].amount == v then 1 else 0)
  }

  lemma {:induction false} CountIsMultiplicity(ms: seq<Money>, x: Money)
    requires AllIn(ms, x.currency)
    ensures multiset(ms)[x] == Count(ms, x.amount)
  {
    if ms != [] {
      var init, last := ms[..|ms| - 1], ms[|ms| - 1];
      CountIsMultiplicity(init, x);
      assert ms == init + [last];
      assert multiset(ms) == multiset(init) + multiset{last};
      assert last == x <==> last.amount == x.amount;
    }
  }

  predicate Among(ms: seq<Money>, v: int) {
    forall i :: 0 <= i < |ms| ==> ms[i].amount == v || ms[i].amount == v + 1
  }

  lemma {:induction false} TwoValuedTotal(ms: seq<Money>, v: int)
    requires Among(ms, v)
    ensures Count(ms, v) + Count(ms, v + 1) == |ms|
    ensures Total(ms) == |ms| * v + Count(ms, v + 1)
    ensures forall w :: w != v && w != v + 1 ==> Count(ms, w) == 0
  {
    if ms != [] {
      TwoValuedTotal(ms[..|ms| - 1], v);
      assert |ms| * v == (|ms| - 1) * v + v;
    }
  }

  lemma {:induction false} CountPositive(ms: seq<Money>, i: int)
    requires 0 <= i < |ms|
    ensures Count(ms, ms[i].amount) > 0
  {
    if i < |ms| - 1 {
      CountPositive(ms[..|ms| - 1], i);
    }
  }

  lemma {:induction false} LeastAmount(ms: seq<Money>) returns (i: int)
    requires ms != []
    ensures 0 <= i < |ms| && forall j :: 0 <= j < |ms| ==> ms[i].amount <= ms[j].amount
  {
    if |ms| == 1 {
      i := 0;
    } else {
      i := LeastAmount(ms[..|ms| - 1]);
      if ms[|ms| - 1].amount < ms[i].amount {
        i := |ms| - 1;
      }
    }
  }

  /** Size and sum determine how often each amount occurs in an even list. */
  lemma EvenCounts(ms: seq<Money>, v: int)
    requires ms != [] && Even(ms)
    ensures var q, c := Total(ms) / |ms|, Total(ms) % |ms|;
            Count(ms, v) == if v == q then |ms| - c else if v == q + 1 then c else 0
  {
    var i := LeastAmount(ms);
    var low: int := ms[i].amount;
    assert Among(ms, low) by {
      forall j | 0 <= j < |ms| ensures ms[j].amount == low || ms[j].amount == low + 1 {
        assert ms[j].amount - ms[i].amount <= 1;
      }
    }
    TwoValuedTotal(ms, low);
    CountPositive(ms, i);
    EuclidIsUnique(Total(ms), |ms|, low, Count(ms, low + 1));
  }

  lemma EvenIsUnique(a: seq<Money>, b: seq<Money>, currency: string)
    requires a != [] && |a| == |b| && Total(a) == Total(b)
    requires AllIn(a, currency) && AllIn(b, currency) && Even(a) && Even(b)
    ensures multiset(a) == multiset(b)
  {
    forall x: Money ensures multiset(a)[x] == multiset(b)[x] {
      if x.currency == currency {
        CountIsMultiplicity(a, x);
        CountIsMultiplicity(b, x);
        EvenCounts(a, x.amount);
        EvenCounts(b, x.amount);
      } else {
        assert x !in a && x !in b;
      }
    }
  }

  /** The smaller of the (at most two) amounts that sharing a among n hands out. */
  function LowShare(a: int, n: int): int
    requires n > 0
  {
    if a >= 0 then a / n else -((-a) / n) - 1
  }

  lemma ShareIsLowOrNext(a: int, n: int, i: int)
    requires n > 0
    ensures Share(a, n, i) == LowShare(a, n) || Share(a, n, i) == LowShare(a, n) + 1
    ensures a >= 0 && a % n == 0 && i >= 0 ==> Share(a, n, i) == LowShare(a, n)
    ensures a < 0 && (-a) % n == 0 && i >= 0 ==> Share(a, n, i) == LowShare(a, n) + 1
  {
  }

  lemma PartsAmong(m: Money, n: int64)
    requires n > 0
    ensures Among(Parts(m, n), LowShare(m.amount, n))
    ensures Even(Parts(m, n))
  {
    forall i | 0 <= i < n
      ensures Parts(m, n)[i].amount == LowShare(m.amount, n) || Parts(m, n)[i].amount == LowShare(m.amount, n) + 1
    {
      ShareIsLowOrNext(m.amount, n, i);
    }
    AmongIsEven(Parts(m, n), LowShare(m.amount, n));
  }

  lemma AmongIsEven(ms: seq<Money>, v: int)
    requires Among(ms, v)
    ensures Even(ms)
  {
  }

  /** A list is a rearrangement of Split's answer exactly when it has n parts in m's currency that add
      up to m and differ by at most one minor unit. */
  lemma SplitIsTheEvenSharing(m: Money, n: int64, ms: seq<Money>)
    requires n > 0
    ensures multiset(ms) == multiset(Parts(m, n)) <==>
            |ms| == n && AllIn(ms, m.currency) && Total(ms) == m.amount && Even(ms)
  {
    var ps := Parts(m, n);
    SplitConserves(m, n);
    PartsAmong(m, n);
    if |ms| == n && AllIn(ms, m.currency) && Total(ms) == m.amount && Even(ms) {
      EvenIsUnique(ms, ps, m.currency);
    }
    if multiset(ms) == multiset(ps) {
      assert |multiset(ms)| == |ms| && |multiset(ps)| == |ps|;
      TotalIgnoresOrder(ms, ps);
      AllInIgnoresOrder(ps, ms, m.currency);
      forall i, j | 0 <= i < |ms| && 0 <= j < |ms| ensures ms[i].amount - ms[j].amount <= 1 {
        assert ms[i] in multiset(ms) && ms[j] in multiset(ms);
        var i', j' :| 0 <= i' < |ps| && 0 <= j' < |ps| && ps[i'] == ms[i] && ps[j'] == ms[j];
      }
    }
  }

  // ---------------------------------------------------------------- Splitting the parts again

  function SplitEach(ms: seq<Money>, k: int64): seq<Money>
    requires k > 0
  {
    if ms == [] then [] else SplitEach(ms[..|ms| - 1], k) + Parts(ms[|ms| - 1], k)
  }

  lemma {:induction false} SplitEachConserves(ms: seq<Money>, k: int64, currency: string)
    requires k > 0 && AllIn(ms, currency)
    ensures |SplitEach(ms, k)| == |ms| * k
    ensures Total(SplitEach(ms, k)) == Total(ms)
    ensures AllIn(SplitEach(ms, k), currency)
  {
    if ms != [] {
      var init, last := ms[..|ms| - 1], ms[|ms| - 1];
      SplitEachConserves(init, k, currency);
      SplitConserves(last, k);
      TotalConcat(SplitEach(init, k), Parts(last, k));
      assert |ms| * k == |init| * k + k by { Distribute(|init|, k); }
    }
  }

  lemma Distribute(x: int, k: int)
    ensures (x + 1) * k == x * k + k
  {
  }

  /** The smaller of the two amounts that shares of v and of v + 1 are drawn from. */
  function LowestNested(v: int, k: int): int
    requires k > 0
  {
    if v >= 0 then v / k else -((-(v + 1)) / k) - 1
  }

  /** Parts of neighbouring sizes split into shares drawn from the same two neighbouring amounts. */
  lemma {:induction false} SplitEachAmong(ms: seq<Money>, k: int64, v: int, w: int)
    requires k > 0 && Among(ms, v)
    requires w == LowestNested(v, k)
    ensures Among(SplitEach(ms, k), w)
  {
    if ms != [] {
      var init, last := ms[..|ms| - 1], ms[|ms| - 1];
      SplitEachAmong(init, k, v, w);
      var a, b := SplitEach(init, k), Parts(last, k);
      var all := a + b;
      forall i | 0 <= i < |all| ensures all[i].amount == w || all[i].amount == w + 1 {
        if i < |a| {
          assert all[i] == a[i];
        } else {
          ShareOfNeighbour(last.amount, k, v, w, i - |a|);
        }
      }
    }
  }

  lemma ShareOfNeighbour(x: int, k: int, v: int, w: int, i: int)
    requires k > 0 && i >= 0 && (x == v || x == v + 1)
    requires w == LowestNested(v, k)
    ensures Share(x, k, i) == w || Share(x, k, i) == w + 1
  {
    ShareIsLowOrNext(x, k, i);
    if v >= 0 {
      NextQuotient(v, k);
    } else {
      NextQuotient(-(v + 1), k);
    }
  }

  lemma NextQuotient(x: int, k: int)
    requires x >= 0 && k > 0
    ensures ((x + 1) / k == x / k + 1 && (x + 1) % k == 0) || (x + 1) / k == x / k
  {
    var q, r := x / k, x % k;
    assert x == q * k + r;
    if r + 1 == k {
      assert x + 1 == (q + 1) * k + 0 by { assert (q + 1) * k == q * k + k; }
      EuclidIsUnique(x + 1, k, q + 1, 0);
    } else {
      EuclidIsUnique(x + 1, k, q, r + 1);
    }
  }

  /** Splitting into n and each part into k shares money exactly as splitting into n * k does. */
  lemma NestedSplitIsFlatSplit(m: Money, n: int64, k: int64)
    requires n > 0 && k > 0 && Fits(n * k)
    ensures n * k > 0
    ensures multiset(SplitEach(Parts(m, n), k)) == multiset(Parts(m, n * k))
  {
    MulMonotone(1, n, k);
    var ps := Parts(m, n);
    SplitConserves(m, n);
    SplitEachConserves(ps, k, m.currency);
    PartsAmong(m, n);
    var v := LowShare(m.amount, n);
    var w := LowestNested(v, k);
    SplitEachAmong(ps, k, v, w);
    AmongIsEven(SplitEach(ps, k), w);
    SplitIsTheEvenSharing(m, n * k, SplitEach(ps, k));
  }

  // ---------------------------------------------------------------- Split and Neg

  function NegAll(ms: seq<Money>): (r: seq<Money>)
    ensures |r| == |ms|
  {
    seq(|ms|, i requires 0 <= i < |ms| => ms[i].Neg())
  }

  lemma SharesAreOdd(a: int, n: int, i: int)
    requires n > 0 && i >= 0
    ensures Share(-a, n, i) == -Share(a, n, i)
  {
  }

  lemma FirstShareOfMin(n: int64)
    requires n >= 2
    ensures MIN_INT64 < Share(MIN_INT64, n, 0) < 0
  {
  }

  /** Splitting a negated amount negates the parts, except that the least int64 is its own negation:
      there it holds only for a split into one part. */
  lemma SplitCommutesWithNeg(m: Money, n: int64)
    requires n > 0
    ensures Parts(m.Neg(), n) == NegAll(Parts(m, n)) <==> m.amount != MIN_INT64 || n == 1
  {
    if m.amount != MIN_INT64 {
      forall i | 0 <= i < n ensures Parts(m.Neg(), n)[i] == NegAll(Parts(m, n))[i] {
        ShareFits(m.amount, n, i);
        SharesAreOdd(m.amount, n, i);
        assert m.Neg().amount == 0 - m.amount as int;
      }
    } else {
      assert m.Neg() == m;
      if n >= 2 {
        FirstShareOfMin(n);
        assert Parts(m, n)[0].amount < 0 < NegAll(Parts(m, n))[0].amount;
      } else {
        assert Parts(m, n)[0] == m;
        assert Parts(m, n) == [m] == NegAll([m]);
      }
    }
  }
}
