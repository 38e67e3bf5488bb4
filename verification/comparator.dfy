/** `TellerSimilarityComparator` (teller.py:14-80): decides whether two
    transactions describe the same real-world transaction, from their dates
    and their fingerprints. Amounts are exact reals. */
module Comparator {
  import opened Wrappers
  import opened Ledger
  import opened Fingerprint

  /** `EPSILON`: the relative difference tolerated between two amounts. */
  const Epsilon: real := 0.05

  function Abs(x: real): (r: real)
    ensures r >= 0.0 && (r == x || r == -x)
  {
    if x < 0.0 then -x else x
  }

  function IntAbs(x: int): (r: nat)
    ensures r == x || r == -x
  {
    if x < 0 then -x else x
  }

  // ---------------------------------------------------------------------
  // The date gate

  /** The date difference as the comparator computes it: the earlier date
      subtracted from the later one. */
  function DateDelta(d1: int, d2: int): (delta: nat)
    ensures delta == IntAbs(d1 - d2) && delta == IntAbs(d2 - d1)
  {
    if d1 > d2 then d1 - d2 else d2 - d1
  }

  /** Whether two dates pass the optional `max_date_delta` check. */
  function PassesDateGate(maxDelta: Option<int>, d1: int, d2: int): (r: bool)
    ensures maxDelta.None? ==> r
    ensures maxDelta.Some? ==> (r <==> IntAbs(d1 - d2) <= maxDelta.value)
  {
    match maxDelta
    case None => true
    case Some(limit) => !(DateDelta(d1, d2) > limit)
  }

  // ---------------------------------------------------------------------
  // One common key

  /** What one common key decides: accept the pair, reject it, or leave it
      to the next key. */
  datatype Verdict = Match | Mismatch | Undecided

  /** The body of the scan for one key with amounts `n1` and `n2`. */
  function Decide(n1: real, n2: real): (v: Verdict)
    ensures n1 == 0.0 && n2 == 0.0 ==> v == Match
    ensures v == Mismatch <==> (n1 == 0.0) != (n2 == 0.0)
  {
    if n1 == 0.0 && n2 == 0.0 then Match
    else
      var diff := Abs(if n2 != 0.0 then n1 / n2 else n2 / n1);
      if diff == 0.0 then Mismatch
      else
        var ratio := if diff < 1.0 then 1.0 / diff else diff;
        if ratio - 1.0 < Epsilon then Match else Undecided
  }

  function MaxAbs(x: real, y: real): real {
    if Abs(x) < Abs(y) then Abs(y) else Abs(x)
  }

  function MinAbs(x: real, y: real): real {
    if Abs(x) < Abs(y) then Abs(x) else Abs(y)
  }

  /** Reference tolerance test: the larger magnitude exceeds the smaller
      by a fraction strictly below `Epsilon`. */
  predicate WithinTolerance(n1: real, n2: real)
    requires n1 != 0.0 && n2 != 0.0
  {
    MaxAbs(n1, n2) / MinAbs(n1, n2) - 1.0 < Epsilon
  }

  lemma AbsQuotient(x: real, y: real)
    requires y != 0.0
    ensures Abs(x / y) == Abs(x) / Abs(y)
  {
  }

  lemma Reciprocal(a: real, b: real)
    requires a > 0.0 && b > 0.0
    ensures a / b > 0.0
    ensures 1.0 / (a / b) == b / a
    ensures a / b < 1.0 <==> a < b
  {
  }

  /** `Decide` agrees with the reference: both zero matches, exactly one zero
      rejects, otherwise the pair matches iff it is within tolerance. */
  lemma DecideByMagnitudes(n1: real, n2: real)
    ensures Decide(n1, n2) ==
      if n1 == 0.0 && n2 == 0.0 then Match
      else if n1 == 0.0 || n2 == 0.0 then Mismatch
      else if WithinTolerance(n1, n2) then Match
      else Undecided
  {
    if n1 != 0.0 && n2 != 0.0 {
      var a1, a2 := Abs(n1), Abs(n2);
      AbsQuotient(n1, n2);
      Reciprocal(a1, a2);
      var diff := Abs(n1 / n2);
      assert diff == a1 / a2;
      var ratio := if diff < 1.0 then 1.0 / diff else diff;
      assert ratio == MaxAbs(n1, n2) / MinAbs(n1, n2);
    } else if n1 != 0.0 || n2 != 0.0 {
      assert Abs(if n2 != 0.0 then n1 / n2 else n2 / n1) == 0.0;
    }
  }

  /** Any amount matches itself. */
  lemma DecideSelf(x: real)
    ensures Decide(x, x) == Match
  {
    if x != 0.0 {
      assert x / x == 1.0;
    }
  }

  lemma DecideSymmetric(n1: real, n2: real)
    ensures Decide(n1, n2) == Decide(n2, n1)
  {
    DecideByMagnitudes(n1, n2);
    DecideByMagnitudes(n2, n1);
  }

  /** Amounts whose magnitudes differ by exactly 5% do not match; amounts
      just inside do; opposite signs are ignored; and one zero beside a
      non-zero amount rejects. */
  lemma ToleranceBoundary()
    ensures Decide(105.0, 100.0) == Undecided
    ensures Decide(100.0, 105.0) == Undecided
    ensures Decide(104.9, 100.0) == Match
    ensures Decide(100.0, -100.0) == Match
    ensures Decide(0.0, 7.0) == Mismatch && Decide(7.0, 0.0) == Mismatch
    ensures Decide(0.0, 0.0) == Match
  {
  }

  // ---------------------------------------------------------------------
  // Common keys in sorted order

  predicate IsMinimal(k: Key, s: set<Key>) {
    k in s && forall j :: j in s ==> !KeyLess(j, k)
  }

  lemma KeyOrderTotal()
    ensures forall a, b :: a == b || KeyLess(a, b) || KeyLess(b, a)
    ensures forall a :: !KeyLess(a, a)
  {
    forall a, b
      ensures a == b || KeyLess(a, b) || KeyLess(b, a)
    {
      KeyLessTotal(a, b);
    }
    forall a
      ensures !KeyLess(a, a)
    {
      KeyLessIrreflexive(a);
    }
  }

  lemma {:induction false} MinimalExists(s: set<Key>)
    requires s != {}
    ensures exists k :: IsMinimal(k, s)
    decreases |s|
  {
    var x :| x in s;
    KeyLessIrreflexive(x);
    if s != {x} {
      MinimalExists(s - {x});
      var m :| IsMinimal(m, s - {x});
      if KeyLess(x, m) {
        forall j | j in s
          ensures !KeyLess(j, x)
        {
          if KeyLess(j, x) {
            KeyLessTransitive(j, x, m);
          }
        }
        assert IsMinimal(x, s);
      } else {
        assert IsMinimal(m, s);
      }
    } else {
      assert IsMinimal(x, s);
    }
  }

  /** The least key of a non-empty set. */
  function MinKey(s: set<Key>): (m: Key)
    requires s != {}
    ensures IsMinimal(m, s)
  {
    MinimalExists(s);
    KeyOrderTotal();
    var m :| IsMinimal(m, s); m
  }

  predicate StrictlySorted(ks: seq<Key>) {
    forall i, j :: 0 <= i < j < |ks| ==> KeyLess(ks[i], ks[j])
  }

  /** `sorted(s)`: the keys of `s` in ascending order, each once. */
  function SortedKeys(s: set<Key>): (ks: seq<Key>)
    ensures StrictlySorted(ks)
    ensures forall k :: k in ks <==> k in s
    ensures |ks| == |s|
    decreases |s|
  {
    if s == {} then []
    else
      var m := MinKey(s);
      var rest := SortedKeys(s - {m});
      KeyOrderTotal();
      [m] + rest
  }

  /** `sorted(set(amounts1) & set(amounts2))`. */
  function CommonKeys(f1: Fingerprint, f2: Fingerprint): (ks: seq<Key>)
    ensures StrictlySorted(ks)
    ensures forall k :: k in ks <==> k in f1 && k in f2
  {
    SortedKeys(f1.Keys * f2.Keys)
  }

  // ---------------------------------------------------------------------
  // The scan

  /** The `for … else` over the common keys: the first key that decides
      settles the result; when no key decides, the pair does not match. */
  function Scan(ks: seq<Key>, f1: Fingerprint, f2: Fingerprint): (r: bool)
    requires forall k :: k in ks ==> k in f1 && k in f2
    ensures ks == [] ==> !r
    ensures r ==> exists i :: 0 <= i < |ks| && Decide(f1[ks[i]], f2[ks[i]]) == Match
    ensures ks != [] && Decide(f1[ks[0]], f2[ks[0]]) == Mismatch ==> !r
  {
    if ks == [] then false
    else
      match Decide(f1[ks[0]], f2[ks[0]])
      case Match => true
      case Mismatch => false
      case Undecided => Scan(ks[1..], f1, f2)
  }

  ghost predicate UndecidedBefore(ks: seq<Key>, f1: Fingerprint, f2: Fingerprint, i: int)
    requires forall k :: k in ks ==> k in f1 && k in f2
    requires i <= |ks|
  {
    forall j :: 0 <= j < i ==> Decide(f1[ks[j]], f2[ks[j]]) == Undecided
  }

  /** The scan accepts iff some key matches and every key before it was
      left undecided. */
  lemma {:induction false} ScanAcceptsIff(ks: seq<Key>, f1: Fingerprint, f2: Fingerprint)
    requires forall k :: k in ks ==> k in f1 && k in f2
    ensures Scan(ks, f1, f2) <==>
      exists i :: 0 <= i < |ks| && Decide(f1[ks[i]], f2[ks[i]]) == Match && UndecidedBefore(ks, f1, f2, i)
    decreases |ks|
  {
    if ks != [] {
      var tail := ks[1..];
      ScanAcceptsIff(tail, f1, f2);
      if Decide(f1[ks[0]], f2[ks[0]]) == Match {
        assert UndecidedBefore(ks, f1, f2, 0);
      } else if Decide(f1[ks[0]], f2[ks[0]]) == Undecided {
        if Scan(ks, f1, f2) {
          var i :| 0 <= i < |tail| && Decide(f1[tail[i]], f2[tail[i]]) == Match && UndecidedBefore(tail, f1, f2, i);
          assert UndecidedBefore(ks, f1, f2, i + 1);
        }
      }
    }
  }

  /** A key with exactly one zero amount, reached before any key decided,
      rejects the pair whatever the later keys hold. */
  lemma {:induction false} MismatchSettles(ks: seq<Key>, f1: Fingerprint, f2: Fingerprint, i: nat)
    requires forall k :: k in ks ==> k in f1 && k in f2
    requires i < |ks| && UndecidedBefore(ks, f1, f2, i)
    requires Decide(f1[ks[i]], f2[ks[i]]) == Mismatch
    ensures !Scan(ks, f1, f2)
    decreases i
  {
    if i > 0 {
      assert Decide(f1[ks[0]], f2[ks[0]]) == Undecided;
      assert ks[1..][i - 1] == ks[i];
      MismatchSettles(ks[1..], f1, f2, i - 1);
    }
  }

  /** One matching key accepts the pair, whatever the keys around it hold,
      provided no key before it rejected. */
  lemma {:induction false} MatchSettles(ks: seq<Key>, f1: Fingerprint, f2: Fingerprint, i: nat)
    requires forall k :: k in ks ==> k in f1 && k in f2
    requires i < |ks| && Decide(f1[ks[i]], f2[ks[i]]) == Match
    requires forall j :: 0 <= j < i ==> Decide(f1[ks[j]], f2[ks[j]]) != Mismatch
    ensures Scan(ks, f1, f2)
    decreases i
  {
    if i > 0 && Decide(f1[ks[0]], f2[ks[0]]) == Undecided {
      assert ks[1..][i - 1] == ks[i];
      MatchSettles(ks[1..], f1, f2, i - 1);
    }
  }

  lemma {:induction false} ScanSymmetric(ks: seq<Key>, f1: Fingerprint, f2: Fingerprint)
    requires forall k :: k in ks ==> k in f1 && k in f2
    ensures Scan(ks, f1, f2) == Scan(ks, f2, f1)
    decreases |ks|
  {
    if ks != [] {
      DecideSymmetric(f1[ks[0]], f2[ks[0]]);
      ScanSymmetric(ks[1..], f1, f2);
    }
  }

  // ---------------------------------------------------------------------
  // The comparator

  /** `TellerSimilarityComparator(max_date_delta)(e1, e2)`. */
  function Similar(maxDelta: Option<int>, e1: Transaction, e2: Transaction): (r: bool)
    ensures maxDelta.Some? && IntAbs(e1.date - e2.date) > maxDelta.value ==> !r
    ensures r ==> AmountsMap(e1).Keys * AmountsMap(e2).Keys != {}
  {
    if !PassesDateGate(maxDelta, e1.date, e2.date) then false
    else
      var f1 := AmountsMap(e1);
      var f2 := AmountsMap(e2);
      Scan(CommonKeys(f1, f2), f1, f2)
  }

  /** The comparator's answer does not depend on the order of its arguments. */
  lemma SimilarSymmetric(maxDelta: Option<int>, e1: Transaction, e2: Transaction)
    ensures Similar(maxDelta, e1, e2) == Similar(maxDelta, e2, e1)
  {
    var f1, f2 := AmountsMap(e1), AmountsMap(e2);
    assert f1.Keys * f2.Keys == f2.Keys * f1.Keys;
    ScanSymmetric(CommonKeys(f1, f2), f1, f2);
  }

  /** A transaction with a non-empty fingerprint is similar to itself
      whenever the date gate admits a zero difference. */
  lemma SimilarReflexive(maxDelta: Option<int>, e: Transaction)
    requires AmountsMap(e) != map[]
    requires maxDelta.None? || maxDelta.value >= 0
    ensures Similar(maxDelta, e, e)
  {
    var f := AmountsMap(e);
    var k :| k in f;
    var ks := CommonKeys(f, f);
    assert k in ks;
    DecideSelf(f[ks[0]]);
    assert Scan(ks, f, f);
  }

  // ---------------------------------------------------------------------
  // The fingerprint cache

  /** The comparator's cache, keyed by the position of an entry in `entries`
      instead of by object identity. */
  type Cache = map<nat, Fingerprint>

  ghost predicate CacheValid(cache: Cache, entries: seq<Transaction>) {
    forall k :: k in cache ==> k < |entries| && cache[k] == AmountsMap(entries[k])
  }

  /** The `try: … except KeyError:` lookup of a fingerprint. */
  method Fetch(entries: seq<Transaction>, cache: Cache, i: nat) returns (f: Fingerprint, cache': Cache)
    requires i < |entries| && CacheValid(cache, entries)
    ensures f == AmountsMap(entries[i])
    ensures CacheValid(cache', entries) && cache'.Keys == cache.Keys + {i}
  {
    if i in cache {
      f := cache[i];
      cache' := cache;
    } else {
      f := AmountsMap(entries[i]);
      cache' := cache[i := f];
    }
  }

  /** The scan written as the source writes it: a loop over the sorted
      common keys with an early return on the first deciding key. */
  method ScanLoop(keys: seq<Key>, amounts1: Fingerprint, amounts2: Fingerprint) returns (similar: bool)
    requires forall k :: k in keys ==> k in amounts1 && k in amounts2
    ensures similar == Scan(keys, amounts1, amounts2)
  {
    var n := 0;
    while n < |keys|
      invariant n <= |keys|
      invariant Scan(keys[n..], amounts1, amounts2) == Scan(keys, amounts1, amounts2)
    {
      var v := Decide(amounts1[keys[n]], amounts2[keys[n]]);
      if v == Match {
        return true;
      }
      if v == Mismatch {
        return false;
      }
      assert keys[n..][1..] == keys[n + 1..];
      n := n + 1;
    }
    similar := false;
  }

  /** `__call__` on the entries at positions `i` and `j`, with the cache
      threaded through: the scan is a loop with early returns, and caching
      never changes the answer. */
  method Compare(maxDelta: Option<int>, entries: seq<Transaction>, cache: Cache, i: nat, j: nat)
    returns (similar: bool, cache': Cache)
    requires i < |entries| && j < |entries| && CacheValid(cache, entries)
    ensures similar == Similar(maxDelta, entries[i], entries[j])
    ensures CacheValid(cache', entries)
    ensures PassesDateGate(maxDelta, entries[i].date, entries[j].date) ==> cache'.Keys == cache.Keys + {i, j}
    ensures !PassesDateGate(maxDelta, entries[i].date, entries[j].date) ==> cache' == cache
  {
    var d1, d2 := entries[i].date, entries[j].date;
    if maxDelta.Some? {
      var delta := if d1 > d2 then d1 - d2 else d2 - d1;
      assert delta == DateDelta(d1, d2);
      if delta > maxDelta.value {
        return false, cache;
      }
    }
    assert PassesDateGate(maxDelta, d1, d2);
    var amounts1, c1 := Fetch(entries, cache, i);
    var amounts2, c2 := Fetch(entries, c1, j);
    cache' := c2;
    assert cache'.Keys == cache.Keys + {i, j};
    similar := ScanLoop(CommonKeys(amounts1, amounts2), amounts1, amounts2);
    assert Similar(maxDelta, entries[i], entries[j])
        == Scan(CommonKeys(amounts1, amounts2), amounts1, amounts2);
  }
}
