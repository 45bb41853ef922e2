/** The charge repositories as seen by `ChargeService`: ownership-checked
    lookups and deletes, the two derived queries of `FixedChargeRepository`,
    and the trend a fixed charge gets from its predecessor.

    A repository is the sequence of its stored records.  A JPQL query is a
    filter followed by its `ORDER BY`; the database is taken to order NULL
    after every value (the PostgreSQL default), so NULL keys come first in a
    descending listing.  Rows with equal sort keys may come back in any order;
    the model fixes one. */
module Ledger {
  import opened Wrappers
  import opened Money
  import opened Calendar
  import opened Keys
  import opened Entities

  // ---------------------------------------------------------------------------
  // Ownership
  // ---------------------------------------------------------------------------

  /** Primary keys are unique. */
  predicate UniqueIds<T>(items: seq<T>, idOf: T -> int) {
    forall i, j :: 0 <= i < |items| && 0 <= j < |items| && idOf(items[i]) == idOf(items[j]) ==> i == j
  }

  /** `findById`. */
  function FindById<T>(items: seq<T>, idOf: T -> int, id: int): (r: Option<T>)
    ensures r.None? <==> forall x :: x in items ==> idOf(x) != id
    ensures r.Some? ==> r.value in items && idOf(r.value) == id
  {
    if |items| == 0 then None
    else if idOf(items[0]) == id then Some(items[0])
    else FindById(items[1..], idOf, id)
  }

  /** `findById(id).orElseThrow(..)` followed by the store check that every
      read, update and delete performs: a record of another store raises the
      same "not found" error as a missing one. */
  function FindOwned<T>(items: seq<T>, idOf: T -> int, storeOf: T -> int, id: int, storeId: int)
    : (r: Result<T, ChargeError>)
    ensures r.Failure? ==> r.error == ChargeNotFound
    ensures r.Success? ==> r.value in items && idOf(r.value) == id && storeOf(r.value) == storeId
  {
    match FindById(items, idOf, id)
    case None => Failure(ChargeNotFound)
    case Some(x) => if storeOf(x) != storeId then Failure(ChargeNotFound) else Success(x)
  }

  /** With unique ids, the lookup succeeds exactly for a record of the
      caller's store; missing and foreign records are indistinguishable. */
  lemma FindOwnedIff<T>(items: seq<T>, idOf: T -> int, storeOf: T -> int, id: int, storeId: int)
    requires UniqueIds(items, idOf)
    ensures FindOwned(items, idOf, storeOf, id, storeId).Success? <==>
      exists i :: 0 <= i < |items| && idOf(items[i]) == id && storeOf(items[i]) == storeId
  {
    var r := FindById(items, idOf, id);
    if i :| 0 <= i < |items| && idOf(items[i]) == id && storeOf(items[i]) == storeId {
      assert items[i] in items;
      var j :| 0 <= j < |items| && items[j] == r.value;
      assert i == j;
    }
  }

  /** The records whose id differs from `id`, in stored order. */
  function Without<T(!new)>(items: seq<T>, idOf: T -> int, id: int): (r: seq<T>)
    ensures forall x :: x in r <==> x in items && idOf(x) != id
    ensures |r| <= |items|
  {
    if |items| == 0 then []
    else if idOf(items[0]) == id then Without(items[1..], idOf, id)
    else [items[0]] + Without(items[1..], idOf, id)
  }

  /** Removing one present id from a repository with unique ids shortens it
      by exactly one. */
  lemma {:induction false} WithoutOne<T(!new)>(items: seq<T>, idOf: T -> int, id: int, k: int)
    requires UniqueIds(items, idOf) && 0 <= k < |items| && idOf(items[k]) == id
    ensures |Without(items, idOf, id)| == |items| - 1
    decreases |items|
  {
    if k == 0 {
      WithoutNone(items[1..], idOf, id);
    } else {
      assert UniqueIds(items[1..], idOf) by {
        forall i, j | 0 <= i < |items[1..]| && 0 <= j < |items[1..]| && idOf(items[1..][i]) == idOf(items[1..][j])
          ensures i == j
        {
          assert items[1..][i] == items[i + 1] && items[1..][j] == items[j + 1];
        }
      }
      assert idOf(items[0]) != id by {
        assert idOf(items[0]) == idOf(items[k]) ==> 0 == k;
      }
      WithoutOne(items[1..], idOf, id, k - 1);
    }
  }

  lemma {:induction false} WithoutNone<T(!new)>(items: seq<T>, idOf: T -> int, id: int)
    requires forall i :: 0 <= i < |items| ==> idOf(items[i]) != id
    ensures Without(items, idOf, id) == items
    decreases |items|
  {
    if |items| > 0 {
      WithoutNone(items[1..], idOf, id);
      assert [items[0]] + items[1..] == items;
    }
  }

  /** `deleteById` after the ownership check. */
  function DeleteOwned<T(!new)>(items: seq<T>, idOf: T -> int, storeOf: T -> int, id: int, storeId: int)
    : (r: Result<seq<T>, ChargeError>)
    ensures r.Failure? ==> r.error == ChargeNotFound
    ensures r.Success? <==> FindOwned(items, idOf, storeOf, id, storeId).Success?
    ensures r.Success? ==> forall x :: x in r.value <==> x in items && idOf(x) != id
  {
    var _ :- FindOwned(items, idOf, storeOf, id, storeId);
    Success(Without(items, idOf, id))
  }

  function ChargeId(c: FixedCharge): int { c.id }
  function ChargeStore(c: FixedCharge): int { c.storeId }
  function VariableId(v: VariableCharge): int { v.id }
  function VariableStore(v: VariableCharge): int { v.storeId }

  /** `getFixedChargeById`: the charge, when it belongs to the caller's store. */
  function GetFixedCharge(charges: seq<FixedCharge>, id: int, storeId: int): (r: Result<FixedCharge, ChargeError>)
    requires UniqueIds(charges, ChargeId)
    ensures r.Success? <==> exists c :: c in charges && c.id == id && c.storeId == storeId
    ensures r.Success? ==> r.value in charges && r.value.id == id && r.value.storeId == storeId
    ensures r.Failure? ==> r.error == ChargeNotFound
  {
    FindOwnedIff(charges, ChargeId, ChargeStore, id, storeId);
    FindOwned(charges, ChargeId, ChargeStore, id, storeId)
  }

  /** `deleteFixedCharge`: removes the caller's charge; another store's
      charge is reported as missing and nothing is removed. */
  function DeleteFixedCharge(charges: seq<FixedCharge>, id: int, storeId: int)
    : (r: Result<seq<FixedCharge>, ChargeError>)
    requires UniqueIds(charges, ChargeId)
    ensures r.Success? <==> exists c :: c in charges && c.id == id && c.storeId == storeId
    ensures r.Failure? ==> r.error == ChargeNotFound
    ensures r.Success? ==> |r.value| == |charges| - 1
    ensures r.Success? ==> forall c :: c in r.value <==> c in charges && c.id != id
  {
    FindOwnedIff(charges, ChargeId, ChargeStore, id, storeId);
    var r := DeleteOwned(charges, ChargeId, ChargeStore, id, storeId);
    if r.Success? then
      var k :| 0 <= k < |charges| && charges[k].id == id;
      WithoutOne(charges, ChargeId, id, k);
      r
    else r
  }

  /** `getVariableChargeById`. */
  function GetVariableCharge(charges: seq<VariableCharge>, id: int, storeId: int)
    : (r: Result<VariableCharge, ChargeError>)
    requires UniqueIds(charges, VariableId)
    ensures r.Success? <==> exists v :: v in charges && v.id == id && v.storeId == storeId
    ensures r.Success? ==> r.value in charges && r.value.id == id && r.value.storeId == storeId
    ensures r.Failure? ==> r.error == ChargeNotFound
  {
    FindOwnedIff(charges, VariableId, VariableStore, id, storeId);
    FindOwned(charges, VariableId, VariableStore, id, storeId)
  }

  /** `deleteVariableCharge`. */
  function DeleteVariableCharge(charges: seq<VariableCharge>, id: int, storeId: int)
    : (r: Result<seq<VariableCharge>, ChargeError>)
    requires UniqueIds(charges, VariableId)
    ensures r.Success? <==> exists v :: v in charges && v.id == id && v.storeId == storeId
    ensures r.Failure? ==> r.error == ChargeNotFound
    ensures r.Success? ==> |r.value| == |charges| - 1
    ensures r.Success? ==> forall v :: v in r.value <==> v in charges && v.id != id
  {
    FindOwnedIff(charges, VariableId, VariableStore, id, storeId);
    var r := DeleteOwned(charges, VariableId, VariableStore, id, storeId);
    if r.Success? then
      var k :| 0 <= k < |charges| && charges[k].id == id;
      WithoutOne(charges, VariableId, id, k);
      r
    else r
  }

  /** `VariableChargeUpdateRequest`: every field optional. */
  datatype VariableUpdate = VariableUpdate(
    name: Option<string>,
    amount: Option<int>,
    date: Option<int>,
    category: Option<string>,
    supplier: Option<string>,
    notes: Option<string>,
    purchaseOrderUrl: Option<string>)

  /** The field-wise overwrite of `updateVariableCharge`. */
  function ApplyVariableUpdate(v: VariableCharge, u: VariableUpdate): VariableCharge {
    v.(name := u.name.GetOr(v.name),
       amount := u.amount.GetOr(v.amount),
       date := u.date.GetOr(v.date),
       category := u.category.GetOr(v.category),
       supplier := if u.supplier.Some? then u.supplier else v.supplier,
       notes := if u.notes.Some? then u.notes else v.notes,
       purchaseOrderUrl := if u.purchaseOrderUrl.Some? then u.purchaseOrderUrl else v.purchaseOrderUrl)
  }

  /** Replace the record with the given id. */
  function ReplaceById<T>(items: seq<T>, idOf: T -> int, x: T): (r: seq<T>)
    ensures |r| == |items|
    ensures forall i :: 0 <= i < |items| ==> r[i] == (if idOf(items[i]) == idOf(x) then x else items[i])
  {
    seq(|items|, i requires 0 <= i < |items| => if idOf(items[i]) == idOf(x) then x else items[i])
  }

  /** `updateVariableCharge`: the caller's charge gets every field the
      request carries; identity and store never change, and the other
      records are untouched. */
  function UpdateVariableCharge(charges: seq<VariableCharge>, id: int, storeId: int, u: VariableUpdate)
    : (r: Result<seq<VariableCharge>, ChargeError>)
    requires UniqueIds(charges, VariableId)
    ensures r.Success? <==> exists v :: v in charges && v.id == id && v.storeId == storeId
    ensures r.Failure? ==> r.error == ChargeNotFound
    ensures r.Success? ==> |r.value| == |charges|
    ensures r.Success? ==> forall i :: 0 <= i < |charges| ==>
      if charges[i].id == id then
        && r.value[i].id == id && r.value[i].storeId == storeId
        && (u.amount.Some? ==> r.value[i].amount == u.amount.value)
        && (u.amount.None? ==> r.value[i].amount == charges[i].amount)
      else r.value[i] == charges[i]
  {
    FindOwnedIff(charges, VariableId, VariableStore, id, storeId);
    var v :- FindOwned(charges, VariableId, VariableStore, id, storeId);
    Success(ReplaceById(charges, VariableId, ApplyVariableUpdate(v, u)))
  }

  /** Applying the same partial update twice is applying it once, and an
      empty update changes nothing. */
  lemma VariableUpdateIdempotent(v: VariableCharge, u: VariableUpdate)
    ensures ApplyVariableUpdate(ApplyVariableUpdate(v, u), u) == ApplyVariableUpdate(v, u)
    ensures ApplyVariableUpdate(v, VariableUpdate(None, None, None, None, None, None, None)) == v
  {
  }

  // ---------------------------------------------------------------------------
  // Ordering
  // ---------------------------------------------------------------------------

  /** The columns of an `ORDER BY`. */
  datatype SortKey = SortKey(first: Option<string>, second: Option<string>)

  /** Ascending order of one nullable text column; NULL is after every value. */
  predicate NullsLastLess(a: Option<string>, b: Option<string>) {
    if a.None? then false
    else if b.None? then true
    else LexLess(a.value, b.value)
  }

  /** Ascending order of the two columns, first then second. */
  predicate KeyLess(x: SortKey, y: SortKey) {
    NullsLastLess(x.first, y.first) || (x.first == y.first && NullsLastLess(x.second, y.second))
  }

  lemma NullsLastFacts(a: Option<string>, b: Option<string>, c: Option<string>)
    ensures !NullsLastLess(a, a)
    ensures NullsLastLess(a, b) && NullsLastLess(b, c) ==> NullsLastLess(a, c)
    ensures a == b || NullsLastLess(a, b) || NullsLastLess(b, a)
  {
    if a.Some? {
      LexLessIrreflexive(a.value);
      if b.Some? {
        LexLessTotal(a.value, b.value);
        if c.Some? && LexLess(a.value, b.value) && LexLess(b.value, c.value) {
          LexLessTransitive(a.value, b.value, c.value);
        }
      }
    }
  }

  /** The sort order is a strict total order on keys. */
  lemma KeyLessFacts(x: SortKey, y: SortKey, z: SortKey)
    ensures !KeyLess(x, x)
    ensures KeyLess(x, y) && KeyLess(y, z) ==> KeyLess(x, z)
    ensures x == y || KeyLess(x, y) || KeyLess(y, x)
  {
    NullsLastFacts(x.first, y.first, z.first);
    NullsLastFacts(x.second, y.second, z.second);
    NullsLastFacts(y.first, x.first, z.first);
    NullsLastFacts(x.first, z.first, y.first);
  }

  /** The two `ORDER BY` clauses of the repository. */
  datatype Order = ByMonthThenWeek | ByMonth

  function KeyOf(c: FixedCharge, order: Order): SortKey {
    match order
    case ByMonthThenWeek => SortKey(c.monthKey, c.weekKey)
    case ByMonth => SortKey(c.monthKey, None)
  }

  /** Sorted by the order's columns, descending: no row is followed by a
      row with a larger key. */
  predicate Descending(s: seq<FixedCharge>, order: Order) {
    forall i, j :: 0 <= i < j < |s| ==> !KeyLess(KeyOf(s[i], order), KeyOf(s[j], order))
  }

  lemma InsertFront(x: FixedCharge, s: seq<FixedCharge>, order: Order)
    requires Descending(s, order) && |s| > 0 && !KeyLess(KeyOf(x, order), KeyOf(s[0], order))
    ensures Descending([x] + s, order)
  {
    var t := [x] + s;
    forall i, j | 0 <= i < j < |t| ensures !KeyLess(KeyOf(t[i], order), KeyOf(t[j], order)) {
      if i == 0 && j > 1 {
        KeyLessFacts(KeyOf(s[0], order), KeyOf(x, order), KeyOf(s[j - 1], order));
      }
    }
  }

  lemma InsertBehind(x: FixedCharge, s: seq<FixedCharge>, rest: seq<FixedCharge>, order: Order)
    requires Descending(s, order) && |s| > 0 && KeyLess(KeyOf(x, order), KeyOf(s[0], order))
    requires Descending(rest, order) && multiset(rest) == multiset(s[1..]) + multiset{x}
    ensures Descending([s[0]] + rest, order)
  {
    var t := [s[0]] + rest;
    forall i, j | 0 <= i < j < |t| ensures !KeyLess(KeyOf(t[i], order), KeyOf(t[j], order)) {
      if i == 0 {
        var y := rest[j - 1];
        assert y in multiset(rest);
        if y == x {
          KeyLessFacts(KeyOf(x, order), KeyOf(s[0], order), KeyOf(x, order));
        } else {
          assert y in multiset(s[1..]);
          var k :| 0 <= k < |s[1..]| && s[1..][k] == y;
          assert s[k + 1] == y;
        }
      }
    }
  }

  /** Insert a row into a descending listing, before the rows it does not
      sort below. */
  function Insert(x: FixedCharge, s: seq<FixedCharge>, order: Order): (r: seq<FixedCharge>)
    requires Descending(s, order)
    ensures multiset(r) == multiset(s) + multiset{x}
    ensures Descending(r, order)
    decreases |s|
  {
    if |s| == 0 then [x]
    else if KeyLess(KeyOf(x, order), KeyOf(s[0], order)) then
      var rest := Insert(x, s[1..], order);
      InsertBehind(x, s, rest, order);
      assert s == [s[0]] + s[1..];
      [s[0]] + rest
    else
      InsertFront(x, s, order);
      [x] + s
  }

  /** The `ORDER BY .. DESC` of a query result. */
  function SortDescending(s: seq<FixedCharge>, order: Order): (r: seq<FixedCharge>)
    ensures multiset(r) == multiset(s)
    ensures Descending(r, order)
    decreases |s|
  {
    if |s| == 0 then []
    else
      assert s == [s[0]] + s[1..];
      Insert(s[0], SortDescending(s[1..], order), order)
  }

  /** The rows satisfying a `WHERE` clause, in stored order. */
  function Filter<T(==,!new)>(s: seq<T>, p: T -> bool): (r: seq<T>)
    ensures forall x :: x in r <==> x in s && p(x)
    ensures |r| <= |s|
  {
    if |s| == 0 then []
    else if p(s[0]) then [s[0]] + Filter(s[1..], p)
    else Filter(s[1..], p)
  }

  /** A query result has exactly the rows the filter selects. */
  lemma SortedMembers(s: seq<FixedCharge>, order: Order, x: FixedCharge)
    ensures x in SortDescending(s, order) <==> x in s
  {
    var r := SortDescending(s, order);
    assert x in r <==> x in multiset(r);
    assert x in s <==> x in multiset(s);
  }

  // ---------------------------------------------------------------------------
  // findPreviousCharges and findHistoricalCharges
  // ---------------------------------------------------------------------------

  /** SQL `a < b` on nullable text: unknown, hence false, when either is NULL. */
  predicate SqlLess(a: Option<string>, b: Option<string>) {
    a.Some? && b.Some? && LexLess(a.value, b.value)
  }

  /** The `WHERE` clause of `findPreviousCharges`: same store, category and
      period, and an earlier month key (MONTH) or week key (WEEK). */
  predicate IsPrevious(c: FixedCharge, storeId: int, category: ChargeCategory, period: ChargePeriod,
                       monthKey: Option<string>, weekKey: string) {
    && c.storeId == storeId && c.category == category && c.period == period
    && ((period == Month && SqlLess(c.monthKey, monthKey)) || (period == Week && SqlLess(c.weekKey, Some(weekKey))))
  }

  /** `findPreviousCharges`, newest (month key, then week key) first. */
  function FindPreviousCharges(charges: seq<FixedCharge>, storeId: int, category: ChargeCategory,
                               period: ChargePeriod, monthKey: Option<string>, weekKey: string)
    : (r: seq<FixedCharge>)
    ensures forall c :: c in r <==> c in charges && IsPrevious(c, storeId, category, period, monthKey, weekKey)
    ensures Descending(r, ByMonthThenWeek)
  {
    var found := Filter(charges, c => IsPrevious(c, storeId, category, period, monthKey, weekKey));
    forall c ensures c in SortDescending(found, ByMonthThenWeek) <==> c in found {
      SortedMembers(found, ByMonthThenWeek, c);
    }
    SortDescending(found, ByMonthThenWeek)
  }

  /** The `WHERE` clause of `findHistoricalCharges`. */
  predicate IsHistorical(c: FixedCharge, storeId: int, category: ChargeCategory, period: ChargePeriod,
                         monthKey: Option<string>) {
    && c.storeId == storeId && c.category == category && c.period == period
    && c.monthKey.Some? && monthKey.Some?
    && (c.monthKey.value == monthKey.value || LexLess(c.monthKey.value, monthKey.value))
  }

  /** `findHistoricalCharges`: up to and including the month, newest month
      first. */
  function FindHistoricalCharges(charges: seq<FixedCharge>, storeId: int, category: ChargeCategory,
                                 period: ChargePeriod, monthKey: Option<string>)
    : (r: seq<FixedCharge>)
    ensures forall c :: c in r <==> c in charges && IsHistorical(c, storeId, category, period, monthKey)
    ensures Descending(r, ByMonth)
  {
    var found := Filter(charges, c => IsHistorical(c, storeId, category, period, monthKey));
    forall c ensures c in SortDescending(found, ByMonth) <==> c in found {
      SortedMembers(found, ByMonth, c);
    }
    SortDescending(found, ByMonth)
  }

  /** The first row of `findPreviousCharges` for a charge: a charge of the
      same store, category and period that is strictly earlier, and that no
      other such charge is more recent than. */
  function PreviousCharge(charges: seq<FixedCharge>, c: FixedCharge, storeId: int): (r: Option<FixedCharge>)
    ensures r.None? <==>
      forall d :: d in charges ==> !IsPrevious(d, storeId, c.category, c.period, c.monthKey, c.weekKey.GetOr(""))
    ensures r.Some? ==>
      && r.value in charges
      && IsPrevious(r.value, storeId, c.category, c.period, c.monthKey, c.weekKey.GetOr(""))
      && forall d :: d in charges && IsPrevious(d, storeId, c.category, c.period, c.monthKey, c.weekKey.GetOr("")) ==>
           !KeyLess(KeyOf(r.value, ByMonthThenWeek), KeyOf(d, ByMonthThenWeek))
  {
    var found := FindPreviousCharges(charges, storeId, c.category, c.period, c.monthKey, c.weekKey.GetOr(""));
    if |found| == 0 then None
    else
      assert found[0] in found;
      assert forall d :: d in found ==> exists j :: 0 <= j < |found| && found[j] == d;
      assert forall j :: 0 < j < |found| ==> !KeyLess(KeyOf(found[0], ByMonthThenWeek), KeyOf(found[j], ByMonthThenWeek));
      KeyLessFacts(KeyOf(found[0], ByMonthThenWeek), KeyOf(found[0], ByMonthThenWeek), KeyOf(found[0], ByMonthThenWeek));
      Some(found[0])
  }

  /** A charge is never its own predecessor: its key is not below itself. */
  lemma NeverOwnPredecessor(c: FixedCharge, storeId: int)
    ensures !IsPrevious(c, storeId, c.category, c.period, c.monthKey, c.weekKey.GetOr(""))
  {
    if c.monthKey.Some? {
      LexLessIrreflexive(c.monthKey.value);
    }
    if c.weekKey.Some? {
      LexLessIrreflexive(c.weekKey.value);
    }
  }

  /** A weekly charge without a week key is queried with "", below which
      there is nothing, so it has no predecessor. */
  lemma WeekWithoutKeyHasNoPredecessor(charges: seq<FixedCharge>, c: FixedCharge, storeId: int)
    requires c.period == Week && c.weekKey.None?
    ensures PreviousCharge(charges, c, storeId).None?
  {
  }

  /** For well-formed month keys the predecessor of a monthly charge is of
      an earlier calendar month. */
  lemma MonthPredecessorIsEarlier(charges: seq<FixedCharge>, c: FixedCharge, storeId: int)
    requires c.period == Month && c.monthKey.Some? && ParseMonthKey(c.monthKey.value).Some?
    requires var p := PreviousCharge(charges, c, storeId);
      p.Some? && ParseMonthKey(p.value.monthKey.value).Some?
    ensures var p := PreviousCharge(charges, c, storeId).value;
      MonthStart(ParseMonthKey(p.monthKey.value).value) < MonthStart(ParseMonthKey(c.monthKey.value).value)
  {
    var p := PreviousCharge(charges, c, storeId).value;
    var a := ParseMonthKey(p.monthKey.value).value;
    var b := ParseMonthKey(c.monthKey.value).value;
    MonthKeyRoundTrip(p.monthKey.value);
    MonthKeyRoundTrip(c.monthKey.value);
    MonthKeyChronological(a, b);
  }

  /** For canonical week keys (no day clamped by the parser) the predecessor
      of a weekly charge is of an earlier week. */
  lemma WeekPredecessorIsEarlier(charges: seq<FixedCharge>, c: FixedCharge, storeId: int)
    requires c.period == Week && c.weekKey.Some? && ParseDateKey(c.weekKey.value).Some?
    requires DateKey(ParseDateKey(c.weekKey.value).value) == c.weekKey.value
    requires var p := PreviousCharge(charges, c, storeId);
      && p.Some? && ParseDateKey(p.value.weekKey.value).Some?
      && DateKey(ParseDateKey(p.value.weekKey.value).value) == p.value.weekKey.value
    ensures var p := PreviousCharge(charges, c, storeId).value;
      ToEpochDay(ParseDateKey(p.weekKey.value).value) < ToEpochDay(ParseDateKey(c.weekKey.value).value)
  {
    var p := PreviousCharge(charges, c, storeId).value;
    DateKeyChronological(ParseDateKey(p.weekKey.value).value, ParseDateKey(c.weekKey.value).value);
  }

  // ---------------------------------------------------------------------------
  // Trend
  // ---------------------------------------------------------------------------

  /** `THRESHOLD_PERCENTAGE`: 20 (percent). */
  const THRESHOLD: int := 20 * ONE

  /** The trend of `calculateAndSetTrend` given the predecessor's amount. */
  function TrendFrom(previous: Option<int>, current: int): (t: Trend)
    ensures previous.None? <==> t == Trend(None, None, None, false)
    ensures previous.Some? ==>
      && t.previousAmount == previous
      && t.direction.Some? && t.percentage.Some?
      && (t.direction.value == Up <==> current > previous.value)
      && (t.direction.value == Down <==> current < previous.value)
      && (previous.value > 0 ==>
            t.percentage.value % CENT == 0 && IsHalfUpQuotient((current - previous.value) * ONE, previous.value, t.percentage.value / CENT))
      && (previous.value <= 0 ==> t.percentage.value == 0)
      && (t.abnormalIncrease <==> t.percentage.value > THRESHOLD)
  {
    match previous
    case None => Trend(None, None, None, false)
    case Some(p) =>
      var diff := current - p;
      var pct := if p > 0 then Percentage(diff, p) else 0;
      Trend(Some(if diff > 0 then Up else if diff < 0 then Down else Stable), Some(pct), Some(p), pct > THRESHOLD)
  }

  /** A rise is abnormal exactly when it is at least 20.005% of a positive
      previous amount (the ratio is rounded at four decimals first), and
      only rises can be abnormal. */
  lemma AbnormalIff(previous: int, current: int)
    ensures var t := TrendFrom(Some(previous), current);
      t.abnormalIncrease <==> previous > 0 && 2 * ONE * (current - previous) >= 4001 * previous
    ensures TrendFrom(Some(previous), current).abnormalIncrease ==> TrendFrom(Some(previous), current).direction == Some(Up)
  {
    if previous > 0 {
      var n := (current - previous) * ONE;
      var q := DivHalfUp(n, previous);
      assert TrendFrom(Some(previous), current).percentage == Some(q * 100);
      HalfUpAbove(n, previous, q, 2000);
    }
  }

  /** A non-negative HALF_UP quotient exceeds k exactly when n / d reaches
      k + 1/2. */
  lemma HalfUpAbove(n: int, d: int, q: int, k: int)
    requires d > 0 && k >= 0 && IsHalfUpQuotient(n, d, q)
    ensures q > k <==> 2 * n >= (2 * k + 1) * d
  {
    var p := q * d;
    var kd := k * d;
    ProductNonNegative(k, d);
    assert (2 * k + 1) * d == 2 * kd + d;
    if q > k {
      ProductNonNegative(q - k - 1, d);
      assert (q - k - 1) * d == p - kd - d;
    } else {
      ProductNonNegative(k - q, d);
      assert (k - q) * d == kd - p;
    }
    HalfUpAboveLinear(n, d, p, kd);
  }

  lemma HalfUpAboveLinear(n: int, d: int, p: int, kd: int)
    requires d > 0 && kd >= 0 && (p >= kd + d || p <= kd)
    requires 2 * Abs(n - p) <= d && (2 * Abs(n - p) == d ==> Abs(p) > Abs(n))
    ensures p >= kd + d <==> 2 * n >= 2 * kd + d
  {
  }

  /** 100 → 130 is a 30.00% rise, abnormal; 100 → 105 is 5.00%, not. */
  lemma TrendExamples()
    ensures TrendFrom(Some(100 * ONE), 130 * ONE) == Trend(Some(Up), Some(30 * ONE), Some(100 * ONE), true)
    ensures TrendFrom(Some(100 * ONE), 105 * ONE) == Trend(Some(Up), Some(5 * ONE), Some(100 * ONE), false)
  {
    DivHalfUpExact(30 * ONE * ONE, 100 * ONE);
    DivHalfUpExact(5 * ONE * ONE, 100 * ONE);
  }

  /** `calculateAndSetTrend`: the trend against the first row of
      `findPreviousCharges`. */
  function CalculateTrend(charges: seq<FixedCharge>, c: FixedCharge, storeId: int): (t: Trend)
    ensures PreviousCharge(charges, c, storeId).None? ==> t == Trend(None, None, None, false)
    ensures PreviousCharge(charges, c, storeId).Some? ==>
      t.previousAmount == Some(PreviousCharge(charges, c, storeId).value.amount)
  {
    match PreviousCharge(charges, c, storeId)
    case None => TrendFrom(None, c.amount)
    case Some(p) => TrendFrom(Some(p.amount), c.amount)
  }
}
