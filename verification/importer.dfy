/** The Teller importer (teller.py:106-167) over an already parsed download:
    `identify`, `filename` and `extract`. Dates are proleptic Gregorian day
    ordinals, as `date.toordinal` numbers them. */
module Importer {
  import opened Wrappers
  import opened Strings
  import opened Ledger
  import opened Fingerprint
  import opened Comparator

  /** Ordinals of `date.min` and `date.max`. */
  const MinOrdinal: int := 1
  const MaxOrdinal: int := 3652059

  type Day = d: int | MinOrdinal <= d <= MaxOrdinal witness MinOrdinal

  /** A parsed JSON value. */
  datatype Json =
    | JNull
    | JBool(b: bool)
    | JNumber(n: real)
    | JString(s: string)
    | JArray(items: seq<Json>)
    | JObject(fields: map<string, Json>)

  /** One element of the download's `transactions` array, with its date
      parsed and its amount read as a decimal. */
  datatype Record = Record(id: string, date: Day, description: string, details: map<string, Json>, amount: real)

  /** The parts of a download `extract` reads: `accounts.currency`,
      `accounts.type`, `balances.ledger` and `transactions`. */
  datatype Feed = Feed(currency: string, accountType: string, ledgerBalance: real, transactions: seq<Record>)

  /** What `extract` raises. */
  datatype ExtractError =
    | KeyMissing(index: nat, key: string)   // KeyError while reading the counterparty of record `index`
    | NotSubscriptable(index: nat)          // TypeError: record `index`'s counterparty is not an object
    | NameNotText(index: nat)               // the counterparty name is neither a string nor null
    | DateOverflow                          // OverflowError: the balance date would pass `date.max`

  // ---------------------------------------------------------------------
  // filename

  /** `filename`: the last `:`-separated component of the account name,
      with `.json` appended. */
  function Filename(accountName: string): (r: string)
    ensures |r| >= 5 && r[|r| - 5..] == ".json"
    ensures NoSep(r[..|r| - 5], ':')
    ensures IsSeparatedSuffix(r[..|r| - 5], accountName, ':')
  {
    var parts := Split(accountName, ':');
    var last := parts[|parts| - 1];
    SplitLastIsSuffix(accountName, ':');
    SplitPiecesHaveNoSep(accountName, ':');
    assert (last + ".json")[..|last|] == last;
    last + ".json"
  }

  // ---------------------------------------------------------------------
  // identify

  datatype IdentifyError = TypeError | KeyError(key: string)

  predicate IsSubstring(needle: string, hay: string) {
    exists i :: 0 <= i <= |hay| && needle <= hay[i..]
  }

  /** The test `identify` applies to a download; `None` stands for a file
      `json.load` could not parse. A download of another shape makes the
      source raise, which is a `Failure`. */
  function Identify(parsed: Option<Json>, accountId: string): (r: Result<bool, IdentifyError>)
    ensures r == Success(true) <==>
      && parsed.Some? && parsed.value.JObject?
      && "teller-version" in parsed.value.fields
      && parsed.value.fields["teller-version"] == JString("0.1")
      && "accounts" in parsed.value.fields
      && parsed.value.fields["accounts"].JObject?
      && "id" in parsed.value.fields["accounts"].fields
      && parsed.value.fields["accounts"].fields["id"] == JString(accountId)
    ensures parsed.None? ==> r == Success(false)
    ensures parsed.Some? && parsed.value.JObject? && "teller-version" !in parsed.value.fields ==> r == Success(false)
    ensures parsed.Some? && parsed.value.JObject? ==>
      (r.Failure? <==>
        var m := parsed.value.fields;
        && "teller-version" in m && m["teller-version"] == JString("0.1")
        && "accounts" in m
        && !(m["accounts"].JObject? && "id" in m["accounts"].fields))
  {
    match parsed
    case None => Success(false)
    case Some(j) =>
      match j
      case JObject(m) =>
        if "teller-version" in m && m["teller-version"] == JString("0.1") then
          if "accounts" in m then
            match m["accounts"]
            case JObject(a) =>
              if "id" in a then Success(a["id"] == JString(accountId)) else Failure(KeyError("id"))
            case _ => Failure(TypeError)
          else Success(false)
        else Success(false)
      case JArray(items) =>
        if JString("teller-version") in items then Failure(TypeError) else Success(false)
      case JString(s) =>
        if IsSubstring("teller-version", s) then Failure(TypeError) else Success(false)
      case _ => Failure(TypeError)
  }

  // ---------------------------------------------------------------------
  // extract

  /** `transaction['details']['counterparty']['name']` for record `index`. */
  function CounterpartyName(details: map<string, Json>, index: nat): (r: Result<Option<string>, ExtractError>)
    ensures r.Failure? ==> !r.error.DateOverflow? && r.error.index == index
    ensures "counterparty" !in details ==> r == Failure(KeyMissing(index, "counterparty"))
    ensures "counterparty" in details && !details["counterparty"].JObject? ==> r == Failure(NotSubscriptable(index))
    ensures "counterparty" in details && details["counterparty"].JObject? && "name" !in details["counterparty"].fields
      ==> r == Failure(KeyMissing(index, "name"))
    ensures "counterparty" in details && details["counterparty"].JObject? && "name" in details["counterparty"].fields
      && (details["counterparty"].fields["name"].JString? || details["counterparty"].fields["name"].JNull?)
      ==> r.Success?
    ensures r.Success? ==>
      && "counterparty" in details && details["counterparty"].JObject?
      && "name" in details["counterparty"].fields
      && var name := details["counterparty"].fields["name"];
         r.value == (if name.JString? then Some(name.s) else None)
         && (name.JString? || name.JNull?)
  {
    if "counterparty" !in details then Failure(KeyMissing(index, "counterparty"))
    else
      match details["counterparty"]
      case JObject(fields) =>
        (if "name" !in fields then Failure(KeyMissing(index, "name"))
         else
           match fields["name"]
           case JString(s) => Success(Some(s))
           case JNull => Success(None)
           case _ => Failure(NameNotText(index)))
      case _ => Failure(NotSubscriptable(index))
  }

  /** The payee of record `index`: the counterparty's name when the details
      hold the key `counter_part`, the description otherwise. The key tested
      and the key read differ, as in the source. */
  function Payee(rec: Record, index: nat): (r: Result<Option<string>, ExtractError>)
    ensures "counter_part" !in rec.details ==> r == Success(Some(rec.description))
    ensures r.Failure? ==> "counter_part" in rec.details && !r.error.DateOverflow? && r.error.index == index
    ensures r.Failure? ==> r == CounterpartyName(rec.details, index)
    ensures "counter_part" in rec.details && CounterpartyName(rec.details, index).Success? ==> r.Success?
    ensures "counter_part" in rec.details && r.Success? ==>
      && "counterparty" in rec.details && rec.details["counterparty"].JObject?
      && "name" in rec.details["counterparty"].fields
      && var name := rec.details["counterparty"].fields["name"];
         r.value == (if name.JString? then Some(name.s) else None)
  {
    if "counter_part" in rec.details then CounterpartyName(rec.details, index)
    else Success(Some(rec.description))
  }

  /** The one transaction `extract` makes of record `index`. */
  function ImportRecord(accountName: string, currency: string, index: nat, rec: Record): (r: Result<Transaction, ExtractError>)
    ensures r.Success? <==> Payee(rec, index).Success?
    ensures r.Failure? ==> r.error == Payee(rec, index).error
    ensures r.Success? ==> IsImported(accountName, currency, index, rec, r.value)
  {
    var payee :- Payee(rec, index);
    var units := Amount(rec.amount, Code(currency));
    var leg := Posting(accountName, Units(Negate(units)), map[FinIdKey := rec.id]);
    Success(Transaction(index, rec.date, FlagOkay, payee, rec.description, [leg]))
  }

  /** What the source promises of the transaction made of record `index`. */
  ghost predicate IsImported(accountName: string, currency: string, index: nat, rec: Record, t: Transaction) {
    && t.lineno == index
    && t.date == rec.date
    && t.flag == FlagOkay
    && t.narration == rec.description
    && ("counter_part" in rec.details ==> CounterpartyName(rec.details, index) == Success(t.payee))
    && ("counter_part" !in rec.details ==> t.payee == Some(rec.description))
    && |t.postings| == 1
    && t.postings[0] == Posting(accountName, Units(Amount(-rec.amount, Code(currency))), map[FinIdKey := rec.id])
  }

  /** Every record's payee can be read. */
  ghost predicate PayeesReadable(recs: seq<Record>, start: nat) {
    forall i :: 0 <= i < |recs| ==> Payee(recs[i], start + i).Success?
  }

  /** The loop of `extract` from record `start` on: all records become
      transactions, or the first record whose payee cannot be read raises. */
  function ImportAll(accountName: string, currency: string, recs: seq<Record>, start: nat): (r: Result<seq<Transaction>, ExtractError>)
    ensures r.Success? <==> PayeesReadable(recs, start)
    ensures r.Success? ==>
      && |r.value| == |recs|
      && forall i :: 0 <= i < |recs| ==> IsImported(accountName, currency, start + i, recs[i], r.value[i])
    ensures r.Failure? ==>
      exists i :: 0 <= i < |recs| && Payee(recs[i], start + i) == Failure(r.error) && PayeesReadable(recs[..i], start)
    decreases |recs|
  {
    if recs == [] then Success([])
    else
      var t :- ImportRecord(accountName, currency, start, recs[0]);
      var rest := ImportAll(accountName, currency, recs[1..], start + 1);
      if rest.Failure? then
        ImportAllFailureShift(recs, start, rest.error);
        Failure(rest.error)
      else
        ImportAllSuccessShift(accountName, currency, recs, start, t, rest.value);
        Success([t] + rest.value)
  }

  lemma ImportAllSuccessShift(accountName: string, currency: string, recs: seq<Record>, start: nat, t: Transaction, ts: seq<Transaction>)
    requires recs != [] && ImportRecord(accountName, currency, start, recs[0]) == Success(t)
    requires PayeesReadable(recs[1..], start + 1)
    requires |ts| == |recs| - 1
    requires forall i :: 0 <= i < |ts| ==> IsImported(accountName, currency, start + 1 + i, recs[1..][i], ts[i])
    ensures PayeesReadable(recs, start)
    ensures forall i :: 0 <= i < |recs| ==> IsImported(accountName, currency, start + i, recs[i], ([t] + ts)[i])
  {
  }

  lemma ImportAllFailureShift(recs: seq<Record>, start: nat, e: ExtractError)
    requires recs != [] && Payee(recs[0], start).Success?
    requires exists i ::
      0 <= i < |recs[1..]| && Payee(recs[1..][i], start + 1 + i) == Failure(e) && PayeesReadable(recs[1..][..i], start + 1)
    ensures exists i :: 0 <= i < |recs| && Payee(recs[i], start + i) == Failure(e) && PayeesReadable(recs[..i], start)
  {
    var i :| 0 <= i < |recs[1..]| && Payee(recs[1..][i], start + 1 + i) == Failure(e)
      && PayeesReadable(recs[1..][..i], start + 1);
    assert recs[1..][i] == recs[i + 1];
    assert recs[..i + 1] == [recs[0]] + recs[1..][..i];
  }

  /** The latest record date, folding from `latest` as the loop does. */
  function LatestDate(recs: seq<Record>, latest: Day): (r: Day)
    ensures latest <= r
    ensures forall i :: 0 <= i < |recs| ==> recs[i].date <= r
    ensures r == latest || exists i :: 0 <= i < |recs| && recs[i].date == r
  {
    if recs == [] then latest
    else LatestDate(recs[1..], if recs[0].date > latest then recs[0].date else latest)
  }

  /** The balance asserted after the import: the ledger balance, negated for
      an account of type `credit`. */
  function BalanceAmount(feed: Feed): (a: Amount)
    ensures a.currency == Code(feed.currency)
    ensures a.number == feed.ledgerBalance || a.number == -feed.ledgerBalance
    ensures a.number == -feed.ledgerBalance <==> feed.accountType == "credit" || feed.ledgerBalance == 0.0
  {
    var amt := Amount(feed.ledgerBalance, Code(feed.currency));
    if feed.accountType == "credit" then Negate(amt) else amt
  }

  /** What the source promises of the directives `extract` returns. */
  ghost predicate IsExtraction(accountName: string, feed: Feed, ds: seq<Directive>) {
    var recs := feed.transactions;
    && |ds| == |recs| + (if recs == [] then 0 else 1)
    && (forall i :: 0 <= i < |recs| ==> ds[i].Txn? && IsImported(accountName, feed.currency, i, recs[i], ds[i].txn))
    && (recs != [] ==>
          && ds[|recs|].Balance?
          && ds[|recs|].lineno == 0
          && ds[|recs|].account == accountName
          && ds[|recs|].amount == BalanceAmount(feed)
          && (forall i :: 0 <= i < |recs| ==> recs[i].date < ds[|recs|].date)
          && (exists i :: 0 <= i < |recs| && recs[i].date + 1 == ds[|recs|].date))
  }

  /** `extract`: one transaction per record, in order, then a balance dated
      the day after the latest record when there was at least one record.
      Nothing is returned when any record fails. */
  function Extract(accountName: string, feed: Feed): (r: Result<seq<Directive>, ExtractError>)
    ensures feed.transactions == [] ==> r == Success([])
    ensures r.Success? ==> IsExtraction(accountName, feed, r.value)
    ensures r.Success? <==>
      PayeesReadable(feed.transactions, 0)
      && (feed.transactions == [] || LatestDate(feed.transactions, MinOrdinal) < MaxOrdinal)
    ensures r.Failure? && !r.error.DateOverflow? ==>
      exists i :: 0 <= i < |feed.transactions| && Payee(feed.transactions[i], i) == Failure(r.error)
        && PayeesReadable(feed.transactions[..i], 0)
    ensures r == Failure(DateOverflow) ==> PayeesReadable(feed.transactions, 0)
  {
    var txns :- ImportAll(accountName, feed.currency, feed.transactions, 0);
    var entries := seq(|txns|, i requires 0 <= i < |txns| => Txn(txns[i]));
    if txns == [] then Success(entries)
    else
      var latest := LatestDate(feed.transactions, MinOrdinal);
      if latest == MaxOrdinal then Failure(DateOverflow)
      else Success(entries + [Balance(0, latest + 1, accountName, BalanceAmount(feed))])
  }

  // ---------------------------------------------------------------------
  // Extracted transactions and the comparator

  /** The fingerprint of an imported transaction is its one posting, keyed by
      the account, the record's id and the currency. */
  lemma ImportedFingerprint(accountName: string, currency: string, index: nat, rec: Record, t: Transaction)
    requires IsImported(accountName, currency, index, rec, t)
    ensures AmountsMap(t) == map[Key(accountName, rec.id, currency) := -rec.amount]
  {
    var p := t.postings[0];
    assert Contributes(p);
    assert t.postings[..0] == [];
    assert Accumulate(t.postings) == Accumulate([])[KeyOf(p) := 0.0 + p.units.amount.number];
  }

  lemma SingletonCommonKeys(k: Key, f1: Fingerprint, f2: Fingerprint)
    requires f1.Keys == {k} && f2.Keys == {k}
    ensures Scan(CommonKeys(f1, f2), f1, f2) == (Decide(f1[k], f2[k]) == Match)
  {
  }

  /** Transactions with one-key fingerprints are similar exactly when they
      pass the date gate, share the key, and their amounts match. */
  lemma SimilarSingletons(maxDelta: Option<int>, t1: Transaction, t2: Transaction, k1: Key, a1: real, k2: Key, a2: real)
    requires AmountsMap(t1) == map[k1 := a1] && AmountsMap(t2) == map[k2 := a2]
    ensures Similar(maxDelta, t1, t2) <==>
      PassesDateGate(maxDelta, t1.date, t2.date) && k1 == k2 && Decide(a1, a2) == Match
  {
    var f1, f2 := AmountsMap(t1), AmountsMap(t2);
    if PassesDateGate(maxDelta, t1.date, t2.date) {
      assert Similar(maxDelta, t1, t2) == Scan(CommonKeys(f1, f2), f1, f2);
      if k1 == k2 {
        SingletonCommonKeys(k1, f1, f2);
      } else {
        assert f1.Keys * f2.Keys == {};
      }
    }
  }

  lemma DecideNegated(n1: real, n2: real)
    ensures Decide(-n1, -n2) == Decide(n1, n2)
  {
    DecideByMagnitudes(n1, n2);
    DecideByMagnitudes(-n1, -n2);
  }

  /** Two imported transactions are similar exactly when they pass the date
      gate, come from records with the same id for the same account and
      currency, and their amounts match. */
  lemma ImportedSimilarIff(
    maxDelta: Option<int>,
    account1: string, currency1: string, index1: nat, rec1: Record, t1: Transaction,
    account2: string, currency2: string, index2: nat, rec2: Record, t2: Transaction)
    requires IsImported(account1, currency1, index1, rec1, t1)
    requires IsImported(account2, currency2, index2, rec2, t2)
    ensures Similar(maxDelta, t1, t2) <==>
      && PassesDateGate(maxDelta, rec1.date, rec2.date)
      && account1 == account2 && rec1.id == rec2.id && currency1 == currency2
      && Decide(rec1.amount, rec2.amount) == Match
  {
    ImportedFingerprint(account1, currency1, index1, rec1, t1);
    ImportedFingerprint(account2, currency2, index2, rec2, t2);
    var k1, k2 := Key(account1, rec1.id, currency1), Key(account2, rec2.id, currency2);
    SimilarSingletons(maxDelta, t1, t2, k1, -rec1.amount, k2, -rec2.amount);
    assert t1.date == rec1.date && t2.date == rec2.date;
    assert k1 == k2 <==> account1 == account2 && rec1.id == rec2.id && currency1 == currency2;
    var v := Decide(-rec1.amount, -rec2.amount);
    DecideNegated(rec1.amount, rec2.amount);
    assert v == Decide(rec1.amount, rec2.amount);
  }
}
