/** The fingerprint of a transaction (`amounts_map`, teller.py:83-103): the
    net amount of its linked postings per (account, fin_id, currency). */
module Fingerprint {
  import opened Strings
  import opened Ledger

  /** A fingerprint key, the Python tuple `(account, fin_id, currency)`. */
  datatype Key = Key(account: string, finId: string, currency: string)

  type Fingerprint = map<Key, real>

  /** Python's tuple ordering on keys: by account, then fin_id, then currency. */
  predicate KeyLess(a: Key, b: Key)
    ensures KeyLess(a, b) ==> a != b
  {
    StrLessIrreflexive(a.account);
    StrLessIrreflexive(a.finId);
    StrLessIrreflexive(a.currency);
    || StrLess(a.account, b.account)
    || (a.account == b.account && StrLess(a.finId, b.finId))
    || (a.account == b.account && a.finId == b.finId && StrLess(a.currency, b.currency))
  }

  lemma KeyLessIrreflexive(a: Key)
    ensures !KeyLess(a, a)
  {
    StrLessIrreflexive(a.account);
    StrLessIrreflexive(a.finId);
    StrLessIrreflexive(a.currency);
  }

  lemma KeyLessTransitive(a: Key, b: Key, c: Key)
    requires KeyLess(a, b) && KeyLess(b, c)
    ensures KeyLess(a, c)
  {
    StrLessIrreflexive(a.account);
    StrLessIrreflexive(a.finId);
    if StrLess(a.account, b.account) && StrLess(b.account, c.account) {
      StrLessTransitive(a.account, b.account, c.account);
    }
    if StrLess(a.finId, b.finId) && StrLess(b.finId, c.finId) {
      StrLessTransitive(a.finId, b.finId, c.finId);
    }
    if StrLess(a.currency, b.currency) && StrLess(b.currency, c.currency) {
      StrLessTransitive(a.currency, b.currency, c.currency);
    }
  }

  lemma KeyLessTotal(a: Key, b: Key)
    ensures a == b || KeyLess(a, b) || KeyLess(b, a)
  {
    StrLessTotal(a.account, b.account);
    StrLessTotal(a.finId, b.finId);
    StrLessTotal(a.currency, b.currency);
  }

  /** Whether `amounts_map` counts a posting: non-empty metadata, not
      interpolated, linked by a fin_id, and units that are an amount whose
      currency is a string. */
  predicate Contributes(p: Posting) {
    && |p.meta| > 0
    && AutomaticMeta !in p.meta
    && FinIdKey in p.meta
    && p.units.Units?
    && p.units.amount.currency.Code?
  }

  function KeyOf(p: Posting): Key
    requires Contributes(p)
  {
    Key(p.account, p.meta[FinIdKey], p.units.amount.currency.code)
  }

  /** Some posting of `ps` counts under key `k`. */
  ghost predicate Touches(ps: seq<Posting>, k: Key) {
    exists i :: 0 <= i < |ps| && Contributes(ps[i]) && KeyOf(ps[i]) == k
  }

  /** Reference definition: the sum of the numbers of the postings of `ps`
      that count under key `k`. */
  function SumFor(ps: seq<Posting>, k: Key): real
  {
    if ps == [] then 0.0
    else
      var p := ps[0];
      (if Contributes(p) && KeyOf(p) == k then p.units.amount.number else 0.0)
      + SumFor(ps[1..], k)
  }

  /** The loop of `amounts_map`, run over the postings in order. */
  function Accumulate(ps: seq<Posting>): (r: Fingerprint)
    ensures r == map[] <==> forall i :: 0 <= i < |ps| ==> !Contributes(ps[i])
    decreases |ps|
  {
    if ps == [] then map[]
    else
      var m := Accumulate(ps[..|ps| - 1]);
      var p := ps[|ps| - 1];
      if Contributes(p) then
        var k := KeyOf(p);
        m[k := (if k in m then m[k] else 0.0) + p.units.amount.number]
      else m
  }

  /** A key is in the fingerprint iff some counted posting has it, and it
      holds the sum of exactly those postings. */
  lemma {:induction false} AccumulateSpec(ps: seq<Posting>)
    ensures forall k :: k in Accumulate(ps) <==> Touches(ps, k)
    ensures forall k :: k in Accumulate(ps) ==> Accumulate(ps)[k] == SumFor(ps, k)
    decreases |ps|
  {
    if ps != [] {
      var init := ps[..|ps| - 1];
      var p := ps[|ps| - 1];
      AccumulateSpec(init);
      SumForSnoc(init, p);
      TouchesSnoc(init, p);
      assert ps == init + [p];
      if Contributes(p) && KeyOf(p) !in Accumulate(init) {
        SumForUntouched(init, KeyOf(p));
      }
    }
  }

  lemma {:induction false} SumForSnoc(ps: seq<Posting>, p: Posting)
    ensures forall k :: SumFor(ps + [p], k)
              == SumFor(ps, k) + (if Contributes(p) && KeyOf(p) == k then p.units.amount.number else 0.0)
    decreases |ps|
  {
    if ps != [] {
      SumForSnoc(ps[1..], p);
      assert (ps + [p])[1..] == ps[1..] + [p];
    }
  }

  lemma TouchesSnoc(ps: seq<Posting>, p: Posting)
    ensures forall k :: Touches(ps + [p], k) <==> Touches(ps, k) || (Contributes(p) && KeyOf(p) == k)
  {
    forall k
      ensures Touches(ps + [p], k) <==> Touches(ps, k) || (Contributes(p) && KeyOf(p) == k)
    {
      if Touches(ps + [p], k) {
        var i :| 0 <= i < |ps + [p]| && Contributes((ps + [p])[i]) && KeyOf((ps + [p])[i]) == k;
        if i < |ps| {
          assert (ps + [p])[i] == ps[i];
        }
      }
      if Touches(ps, k) {
        var i :| 0 <= i < |ps| && Contributes(ps[i]) && KeyOf(ps[i]) == k;
        assert (ps + [p])[i] == ps[i];
      }
      if Contributes(p) && KeyOf(p) == k {
        assert (ps + [p])[|ps|] == p;
      }
    }
  }

  /** `amounts_map(entry)`. */
  function AmountsMap(entry: Transaction): Fingerprint
  {
    Accumulate(entry.postings)
  }

  /** A posting that does not count leaves the fingerprint unchanged,
      wherever it sits among the other postings. */
  lemma IgnoredPostingIsInvisible(ps: seq<Posting>, p: Posting, qs: seq<Posting>)
    requires !Contributes(p)
    ensures Accumulate(ps + [p] + qs) == Accumulate(ps + qs)
  {
    var a := Accumulate(ps + [p] + qs);
    var b := Accumulate(ps + qs);
    AccumulateSpec(ps + [p] + qs);
    AccumulateSpec(ps + qs);
    forall k
      ensures Touches(ps + [p] + qs, k) <==> Touches(ps + qs, k)
      ensures SumFor(ps + [p] + qs, k) == SumFor(ps + qs, k)
    {
      SumForDrop(ps, p, qs, k);
      TouchesDrop(ps, p, qs, k);
    }
    assert a.Keys == b.Keys;
  }

  lemma SumForDrop(ps: seq<Posting>, p: Posting, qs: seq<Posting>, k: Key)
    requires !Contributes(p)
    ensures SumFor(ps + [p] + qs, k) == SumFor(ps + qs, k)
  {
    SumForConcat(ps, [p] + qs, k);
    SumForConcat(ps, qs, k);
    assert ps + [p] + qs == ps + ([p] + qs);
    assert ([p] + qs)[1..] == qs;
  }

  lemma {:induction false} SumForConcat(ps: seq<Posting>, qs: seq<Posting>, k: Key)
    ensures SumFor(ps + qs, k) == SumFor(ps, k) + SumFor(qs, k)
    decreases |ps|
  {
    if ps != [] {
      assert (ps + qs)[1..] == ps[1..] + qs;
      SumForConcat(ps[1..], qs, k);
    } else {
      assert ps + qs == qs;
    }
  }

  lemma {:induction false} SumForUntouched(ps: seq<Posting>, k: Key)
    requires !Touches(ps, k)
    ensures SumFor(ps, k) == 0.0
    decreases |ps|
  {
    if ps != [] {
      SumForUntouched(ps[1..], k);
    }
  }

  lemma TouchesDrop(ps: seq<Posting>, p: Posting, qs: seq<Posting>, k: Key)
    requires !Contributes(p)
    ensures Touches(ps + [p] + qs, k) <==> Touches(ps + qs, k)
  {
    var long := ps + [p] + qs;
    var short := ps + qs;
    if Touches(long, k) {
      var i :| 0 <= i < |long| && Contributes(long[i]) && KeyOf(long[i]) == k;
      if i < |ps| {
        assert short[i] == long[i];
      } else {
        assert i > |ps|;
        assert short[i - 1] == long[i];
      }
    }
    if Touches(short, k) {
      var i :| 0 <= i < |short| && Contributes(short[i]) && KeyOf(short[i]) == k;
      if i < |ps| {
        assert long[i] == short[i];
      } else {
        assert long[i + 1] == short[i];
      }
    }
  }
}
