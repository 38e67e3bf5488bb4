# Teller import and deduplication, modelled in Dafny

This project models the core of `teller.py`, the beangulp importer for Teller
bank downloads. It covers three parts:

- **`amounts_map`**: the fingerprint of a transaction. It maps each
  `(account, fin_id, currency)` key to the net amount of the transaction's
  linked postings.
- **`TellerSimilarityComparator`**: decides whether a freshly imported
  transaction and one already in the ledger describe the same bank
  transaction. First there is an optional date gate. Then the comparator
  walks the keys the two fingerprints share, in sorted order, and stops at
  the first key that settles the question.
- **`Importer`**: `identify`, `filename` and `extract`. `extract` turns the
  records of a download into one transaction each, then adds a trailing
  balance assertion.

Modules:

- `Wrappers`: `Option` and `Result`.
- `Ledger`: amounts, postings, transactions and balance directives.
- `Strings`: Python's string ordering, plus `split` and `join`.
- `Fingerprint`: keys, their ordering, and `amounts_map`.
- `Comparator`: per-key verdict, sorted common keys, the scan, the date
  gate, and the cached comparator.
- `Importer`: `identify`, `filename` and `extract`, plus lemmas linking
  extracted transactions to the comparator.

Modelling choices:

- Amounts are exact reals.
- Dates are proleptic Gregorian day ordinals. Transaction dates in the
  comparator are plain integers.
- The interpolation marker is the metadata key `"__automatic__"`.
- A posting whose `meta` is `None` is modelled with the empty map.

Behaviour of `teller.py` that the model keeps as written:

- The comparator returns `False` at the first common key where exactly one
  of the two amounts is zero. It does not look at later keys
  (teller.py:68-72).
- The balance amount is negated when the account's `type` is the string
  `"credit"`, and kept otherwise (teller.py:163).
- A posting enters the fingerprint whenever its currency is a string, of
  any form (teller.py:98-99).
- On records whose fields are present and whose dates and amounts parse,
  the exceptions `extract` raises are these, and the model keeps them
  (date and amount parsing errors are listed under "## Left out"):
  - `KeyError` or `TypeError` while reading the counterparty name
    (teller.py:143-144);
  - `OverflowError` when the balance date `latest_date + timedelta(days=1)`
    would pass `date.max` (teller.py:164).
- The payee is the description unless the record's details contain the key
  `counter_part`. In that case the payee is read from
  `details['counterparty']['name']`, which is a different key
  (teller.py:143-146).

## Model

| member | source | states |
|---|---|---|
| Fingerprint.Accumulate | teller.py:91-103 | the fingerprint is empty iff no posting counts; `AccumulateSpec` gives its exact keys and values |
| Fingerprint.AccumulateSpec | teller.py:91-103 | a key is in the fingerprint iff some posting counts under it: non-empty meta, no interpolation marker, a `fin_id`, and an amount with a string currency; its value is the sum of exactly those postings' numbers under that key |
| Fingerprint.IgnoredPostingIsInvisible | teller.py:93-99 | a posting that does not count leaves the fingerprint unchanged wherever it stands among the postings |
| Fingerprint.KeyLess | teller.py:62 | the tuple ordering that `sorted` applies to (account, fin_id, currency) keys; no key is below an equal one |
| Fingerprint.KeyLessIrreflexive | teller.py:62 | no key sorts before itself under the tuple ordering `sorted` uses |
| Fingerprint.KeyLessTransitive | teller.py:62 | the tuple ordering on keys is transitive |
| Fingerprint.KeyLessTotal | teller.py:62 | any two different keys are ordered one way or the other, so the sorted order is unique |
| Strings.StrLess | teller.py:62 | Python's string ordering: a proper prefix is below the longer string, and a smaller first character puts a string below |
| Strings.StrLessIrreflexive | teller.py:62 | no string is below itself in Python's string ordering |
| Strings.StrLessTransitive | teller.py:62 | Python's string ordering is transitive |
| Strings.StrLessTotal | teller.py:62 | any two different strings are ordered one way or the other |
| Comparator.DateDelta | teller.py:45-47 | the later date minus the earlier one is the absolute difference of the dates, whichever argument comes first |
| Comparator.PassesDateGate | teller.py:44-49 | with no maximum the gate always passes; with a maximum it passes iff the absolute date difference is at most the maximum, so a difference equal to it passes |
| Comparator.Decide | teller.py:66-76 | one key's verdict: two zeros match, and the key rejects iff exactly one amount is zero; `DecideByMagnitudes` gives the tolerance rule |
| Comparator.DecideByMagnitudes | teller.py:66-76 | one key's verdict: both zero matches; exactly one zero rejects; otherwise it matches iff the larger magnitude over the smaller, minus one, is strictly below 0.05, and it leaves the decision to later keys otherwise |
| Comparator.DecideSelf | teller.py:66-76 | any amount matches itself |
| Comparator.DecideSymmetric | teller.py:68-74 | swapping the two amounts does not change the verdict, thanks to `abs` and the inversion of ratios below one |
| Comparator.ToleranceBoundary | teller.py:23 | magnitudes 5% apart do not match, 4.9% apart do, 100 and -100 match, and one zero beside a non-zero amount rejects |
| Comparator.MinKey | teller.py:62 | the chosen key belongs to the set and no key of the set sorts before it |
| Comparator.SortedKeys | teller.py:62 | the keys of a set in strictly ascending order, each exactly once, none missing |
| Comparator.CommonKeys | teller.py:61-62 | the keys present in both fingerprints, strictly ascending |
| Comparator.Scan | teller.py:62-80 | the walk over the sorted common keys: with no keys it rejects, it accepts only when some key matches, and a first key with exactly one zero rejects |
| Comparator.ScanAcceptsIff | teller.py:62-80 | the scan accepts iff some common key matches and every key sorted before it was left undecided; with no common key it rejects |
| Comparator.MismatchSettles | teller.py:68-72 | a key with exactly one zero amount, reached before any key decided, rejects the pair whatever later keys hold |
| Comparator.MatchSettles | teller.py:62-80 | one matching key, both zero or within tolerance, accepts the pair whatever other keys hold, provided no key before it had exactly one zero |
| Comparator.ScanSymmetric | teller.py:62-80 | the scan gives the same answer with the fingerprints swapped |
| Comparator.Similar | teller.py:34-80 | a pair whose dates differ by more than the maximum is never similar, and a similar pair always shares a fingerprint key |
| Comparator.SimilarSymmetric | teller.py:34-80 | the comparator's answer does not depend on the order of its arguments |
| Comparator.SimilarReflexive | teller.py:61-80 | a transaction with a non-empty fingerprint is similar to itself when the gate admits a zero difference |
| Comparator.Fetch | teller.py:51-58 | a cache lookup yields the entry's fingerprint and leaves a cache whose every entry is that entry's fingerprint, now holding the entry |
| Comparator.ScanLoop | teller.py:62-80 | the loop with early returns over the sorted common keys computes the scan |
| Comparator.Compare | teller.py:34-80 | the cached comparator returns exactly the uncached answer, keeps the cache valid, and fills it only when the date gate passes |
| Strings.Split | teller.py:127 | `split(':')` gives at least one piece, and exactly one iff the string has no colon |
| Strings.JoinSplit | teller.py:127 | joining the pieces of `split(':')` gives back the account name |
| Strings.SplitJoin | teller.py:127 | splitting a join of colon-free pieces gives back the pieces |
| Strings.SplitPiecesHaveNoSep | teller.py:127 | no piece of `split(':')` contains a colon |
| Strings.SplitLastIsSuffix | teller.py:127 | the last piece ends the string and is either the whole string or follows a separator |
| Importer.Filename | teller.py:126-127 | the file name is the account name's last colon-free component followed by `.json` |
| Importer.Identify | teller.py:111-121 | a download is accepted iff it is an object whose `teller-version` is `"0.1"` and whose `accounts.id` is the importer's account id; an unparsable file is rejected without error; an object raises only when its version is `"0.1"` and its `accounts` is present but is not an object holding `id`, and is otherwise rejected without error |
| Importer.CounterpartyName | teller.py:143-144 | reading `details['counterparty']['name']` succeeds iff `counterparty` is an object holding a string or `null` `name`, and gives that name (`None` for `null`); a missing `counterparty` or `name` raises `KeyError` and a non-object counterparty raises `TypeError`, both on the record's own position |
| Importer.Payee | teller.py:143-146 | the payee is the description when the details lack `counter_part`; otherwise it is the counterparty name (`None` for `null`); it fails exactly when that read fails, with that read's error |
| Importer.ImportRecord | teller.py:142-156 | a record becomes a transaction iff its payee can be read, and that transaction has the record's date, flag `*`, the payee rule, the description as narration, and one posting on the account with the negated amount and meta `{'fin_id': id}` |
| Importer.ImportAll | teller.py:138-156 | all records become transactions, in order, iff every payee can be read; each carries the record's date, `*`, the narration, the payee rule, and one posting on the account with the negated amount and meta `{'fin_id': id}`; otherwise the first unreadable record's error is raised |
| Importer.LatestDate | teller.py:136-140 | the running maximum is at least every record's date and the starting date, and equals one of them |
| Importer.BalanceAmount | teller.py:160-163 | the balance is in the account currency and is negated iff the account type is `"credit"` (or is zero) |
| Importer.Extract | teller.py:129-167 | an empty batch yields nothing; otherwise one transaction per record, in order, then one balance on the account dated one day after the latest record; the whole batch fails iff a payee cannot be read or the balance date would overflow; a payee failure is the first unreadable record's error, and the overflow is raised only once every payee was read |
| Importer.ImportedFingerprint | teller.py:147-153 | an extracted transaction's fingerprint is the single key (account, record id, currency) holding the negated record amount |
| Importer.SingletonCommonKeys | teller.py:61-80 | two fingerprints with the same single key are similar iff that key's verdict is a match |
| Importer.SimilarSingletons | teller.py:61-80 | transactions with one-key fingerprints are similar iff they pass the gate, share the key, and their amounts match |
| Importer.DecideNegated | teller.py:68-76 | negating both amounts does not change a key's verdict |
| Importer.ImportedSimilarIff | teller.py:34-80 | two extracted transactions are similar iff they pass the date gate, come from records with the same id on the same account and currency, and their amounts match |

## Left out

- Network access, TLS certificates, authentication and argument parsing
  (teller_client.py, teller_downloader.py) are left out. They are I/O with
  no logic of the core.
- Opening files and `json.load` in `identify` and `extract` are left out.
  `Identify` takes the parsed value, or `None` for a file that does not
  parse.
- `extract` takes a `Feed`: the account currency and type, the ledger
  balance, and records whose fields are already read. The `KeyError` for a
  missing field is not modelled. That covers `transactions`, `accounts` and
  `balances`; the sub-keys `accounts.currency`, `accounts.type` and
  `balances.ledger`; and each record's `id`, `date`, `description`,
  `amount` and `details`.
- A record's `details` is always a JSON object here. In the source, the
  test `'counter_part' in transaction['details']` behaves otherwise on other
  values: `null` or a number raises `TypeError`, a string gets a substring
  test, and a list gets an element test. None of that is modelled.
- Date parsing (`dateutil.parser.parse`) is left out. Records carry day
  ordinals.
- `D(...)` decimal parsing is left out, and so is Decimal's 28-digit
  arithmetic rounding in sums, negations and divisions. Amounts are exact reals, so a ratio landing exactly on
  the 5% boundary only after rounding is not modelled.
- The cache keyed by `id()` is modelled as a map keyed by the entry's
  position in a sequence. Object identity has no counterpart in Dafny.
- Transaction tags and links are always empty in the source, and are left
  out. So are the file name in the metadata and the posting cost, price and
  flag, which are always `None`.
- `Importer.CounterpartyName`: a counterparty name that is neither a
  string nor `null` becomes an error. The source stores it as the payee
  unchanged.
- Metadata values are strings. A non-string `fin_id` is not modelled; in
  the source it could make `sorted` raise when compared with a string.
- A posting whose units have a string currency but a missing number is not
  modelled. In the source the sum raises on it.
- The comparator is modelled on transactions only. A balance directive has
  no postings, so `amounts_map` raises on it in the source.
- `account(filepath)` just returns the account name, and is left out.
- `max_date_delta` is a `timedelta` in the source. It is modelled as a
  whole number of days. Two dates always differ by whole days, so a
  fractional maximum admits the same pairs as its whole-day part.
