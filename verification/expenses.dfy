/** The expense record (`dorm.expense`): its stored fields, the two field
    constraints, creation with the owner default and the deletion guard.
    The table is a sequence of records in creation order together with
    the next value of its id sequence. */
module Expenses {
  import opened Wrappers
  import opened Calendar
  import opened Categories

  datatype State = Draft | Submitted | Approved | Rejected | Paid

  datatype Currency = Currency(symbol: string)

  type UserId = nat

  /** One stored expense. Amounts are in cents of `currency`. An archived
      record has `active` false; searches skip it. Notes, tags, location,
      payment method, sharing and company are plain declarations with no
      behaviour and are not modelled. */
  datatype Expense = Expense(
    id: nat,
    description: string,
    date: Date,
    amount: int,
    currency: Currency,
    category: Category,
    user: UserId,
    receipt: Option<string>,
    receiptFilename: Option<string>,
    state: State,
    active: bool)

  /** The errors the core raises, one per message in the source. */
  datatype Error =
    | AmountNotPositive           // "Amount must be greater than zero."
    | AmountTooHigh               // "Amount seems unusually high. Please verify."
    | DateInFuture                // "Expense date cannot be in the future."
    | DateTooOld                  // "Expense date is more than 1 year old. Please verify."
    | DateArithmeticOverflow      // `today - timedelta(days=365)` falls before 0001-01-01
    | CannotDeleteApprovedOrPaid  // "Cannot delete approved or paid expenses."
    | ExpectedSingleton           // `ensure_one` on a recordset that is not one record
    | InvalidDateBound            // a search bound "YYYY-MM-31" that names no date

  /** 999,999.99 in cents. */
  const MaxAmount: int := 99_999_999

  /** The window of `_check_date`, in days. */
  const DateWindow: int := 365

  /** `_check_amount` on one record: the non-positive test first, then the upper bound. */
  function CheckAmount(amount: int): (r: Option<Error>)
    ensures r.None? <==> 0 < amount <= MaxAmount
    ensures r == Some(AmountNotPositive) <==> amount <= 0
    ensures r == Some(AmountTooHigh) <==> amount > MaxAmount
  {
    if amount <= 0 then Some(AmountNotPositive)
    else if amount > MaxAmount then Some(AmountTooHigh)
    else None
  }

  /** `_check_date` on one record, given today's date: the future test
      first, then the one-year-ago bound, whose computation itself fails
      when it would fall before the first representable date. */
  function CheckDate(date: Date, today: Date): (r: Option<Error>)
    ensures r.None? <==>
      !Before(today, date) && DateWindow < Ordinal(today) && Ordinal(today) - DateWindow <= Ordinal(date)
    ensures r == Some(DateInFuture) <==> Before(today, date)
    ensures r == Some(DateTooOld) <==>
      !Before(today, date) && DateWindow < Ordinal(today) && Ordinal(date) < Ordinal(today) - DateWindow
    ensures r == Some(DateArithmeticOverflow) <==> !Before(today, date) && Ordinal(today) <= DateWindow
  {
    if Before(today, date) then Some(DateInFuture)
    else if Ordinal(today) - DateWindow < 1 then Some(DateArithmeticOverflow)
    else if Ordinal(date) < Ordinal(today) - DateWindow then Some(DateTooOld)
    else None
  }

  /** For any realistic today (one more than a year after 0001-01-01) the
      date check accepts exactly the window [today - 365, today], both
      endpoints included. */
  lemma DateWindowExact(date: Date, today: Date)
    requires DateWindow < Ordinal(today)
    ensures CheckDate(date, today).None? <==>
      Ordinal(today) - DateWindow <= Ordinal(date) <= Ordinal(today)
    ensures CheckDate(today, today).None?
  {
    OrdinalOrder(today, date);
  }

  /** The fields supplied to `create`. A missing `date`, `user_id` or
      `state` key is None. */
  datatype NewExpense = NewExpense(
    description: string,
    date: Option<Date>,
    amount: int,
    currency: Currency,
    category: Category,
    user: Option<UserId>,
    receipt: Option<string>,
    receiptFilename: Option<string>,
    state: Option<State>)

  predicate IdsUnique(records: seq<Expense>) {
    forall i, j :: 0 <= i < j < |records| ==> records[i].id != records[j].id
  }

  /** The table: its records in creation order and the next value of the
      id sequence. The sequence only moves forward, so a deleted record's
      id is not handed out again. */
  datatype Store = Store(records: seq<Expense>, nextId: nat)

  /** What the database guarantees of the table: ids are unique and all
      below the sequence's next value. */
  predicate Valid(store: Store) {
    && IdsUnique(store.records)
    && forall k :: 0 <= k < |store.records| ==> store.records[k].id < store.nextId
  }

  /** The date a value set ends up with: `date` defaults to today. */
  function DateOf(v: NewExpense, today: Date): (d: Date)
    ensures v.date.Some? ==> d == v.date.value
    ensures v.date.None? ==> d == today
  {
    v.date.GetOr(today)
  }

  /** `e` is the record `create` makes of `v`: the supplied fields, the
      date defaulting to today, the owner to the acting user, the state to
      draft, and active. */
  predicate Stored(e: Expense, v: NewExpense, actingUser: UserId, today: Date) {
    && (v.state.Some? ==> e.state == v.state.value)
    && (v.state.None? ==> e.state == Draft)
    && e.active
    && (v.user.Some? ==> e.user == v.user.value)
    && (v.user.None? ==> e.user == actingUser)
    && (v.date.Some? ==> e.date == v.date.value)
    && (v.date.None? ==> e.date == today)
    && e.amount == v.amount
    && e.category == v.category && e.description == v.description
    && e.receipt == v.receipt && e.receiptFilename == v.receiptFilename
    && e.currency == v.currency
  }

  function Materialize(v: NewExpense, id: nat, actingUser: UserId, today: Date): Expense {
    Expense(id, v.description, DateOf(v, today), v.amount, v.currency, v.category,
            v.user.GetOr(actingUser), v.receipt, v.receiptFilename, v.state.GetOr(Draft), true)
  }

  function MaterializeAll(vals: seq<NewExpense>, firstId: nat, actingUser: UserId, today: Date): (r: seq<Expense>)
    ensures |r| == |vals|
    ensures forall i :: 0 <= i < |vals| ==> Stored(r[i], vals[i], actingUser, today) && r[i].id == firstId + i
    decreases |vals|
  {
    if |vals| == 0 then []
    else [Materialize(vals[0], firstId, actingUser, today)] + MaterializeAll(vals[1..], firstId + 1, actingUser, today)
  }

  /** The first error `_check_amount` raises over a batch, scanning in order. */
  function FirstAmountError(vals: seq<NewExpense>): (r: Option<Error>)
    ensures r.None? <==> forall i :: 0 <= i < |vals| ==> CheckAmount(vals[i].amount).None?
    ensures r.Some? ==> exists k :: 0 <= k < |vals| && CheckAmount(vals[k].amount) == r
                          && forall j :: 0 <= j < k ==> CheckAmount(vals[j].amount).None?
    decreases |vals|
  {
    if |vals| == 0 then None
    else if CheckAmount(vals[0].amount).Some? then CheckAmount(vals[0].amount)
    else
      var rest := FirstAmountError(vals[1..]);
      assert forall i :: 1 <= i < |vals| ==> vals[i] == vals[1..][i - 1];
      if rest.Some? then
        var k :| 0 <= k < |vals[1..]| && CheckAmount(vals[1..][k].amount) == rest
                 && forall j :: 0 <= j < k ==> CheckAmount(vals[1..][j].amount).None?;
        assert CheckAmount(vals[k + 1].amount) == rest;
        rest
      else rest
  }

  /** The first error `_check_date` raises over a batch, scanning in order. */
  function FirstDateError(vals: seq<NewExpense>, today: Date): (r: Option<Error>)
    ensures r.None? <==> forall i :: 0 <= i < |vals| ==> CheckDate(DateOf(vals[i], today), today).None?
    ensures r.Some? ==> exists k :: 0 <= k < |vals| && CheckDate(DateOf(vals[k], today), today) == r
                          && forall j :: 0 <= j < k ==> CheckDate(DateOf(vals[j], today), today).None?
    decreases |vals|
  {
    if |vals| == 0 then None
    else if CheckDate(DateOf(vals[0], today), today).Some? then CheckDate(DateOf(vals[0], today), today)
    else
      var rest := FirstDateError(vals[1..], today);
      assert forall i :: 1 <= i < |vals| ==> vals[i] == vals[1..][i - 1];
      if rest.Some? then
        var k :| 0 <= k < |vals[1..]| && CheckDate(DateOf(vals[1..][k], today), today) == rest
                 && forall j :: 0 <= j < k ==> CheckDate(DateOf(vals[1..][j], today), today).None?;
        assert CheckDate(DateOf(vals[k + 1], today), today) == rest;
        rest
      else rest
  }

  predicate Acceptable(v: NewExpense, today: Date) {
    CheckAmount(v.amount).None? && CheckDate(DateOf(v, today), today).None?
  }

  /** The table after `create` stores `vals`: the old records, then one
      record per value set, in order, numbered by the id sequence. */
  function AddRecords(store: Store, vals: seq<NewExpense>, actingUser: UserId, today: Date): (r: Store)
    ensures |r.records| == |store.records| + |vals|
    ensures r.records[..|store.records|] == store.records
    ensures forall i :: 0 <= i < |vals| ==>
      Stored(r.records[|store.records| + i], vals[i], actingUser, today)
      && r.records[|store.records| + i].id == store.nextId + i
    ensures r.nextId == store.nextId + |vals|
  {
    var created := MaterializeAll(vals, store.nextId, actingUser, today);
    assert (store.records + created)[..|store.records|] == store.records;
    Store(store.records + created, store.nextId + |vals|)
  }

  /** Records appended with consecutive ids from `n` on, after records
      whose ids are all below `n`, have ids above everything before them. */
  lemma AppendedIdsIncrease(store: seq<Expense>, created: seq<Expense>, n: int)
    requires forall k :: 0 <= k < |store| ==> store[k].id < n
    requires forall i :: 0 <= i < |created| ==> created[i].id == n + i
    ensures forall k, j :: 0 <= k < j < |store + created| && |store| <= j ==>
      (store + created)[k].id < (store + created)[j].id
  {
    var r := store + created;
    forall k, j | 0 <= k < j < |r| && |store| <= j
      ensures r[k].id < r[j].id
    {
      assert r[j] == created[j - |store|];
      if k < |store| {
        assert r[k] == store[k];
      } else {
        assert r[k] == created[k - |store|];
      }
    }
  }

  /** `create(vals_list)`: the amount constraint runs over the whole batch,
      then the date constraint; any violation aborts the whole batch, else
      the records are added. */
  function Create(store: Store, vals: seq<NewExpense>, actingUser: UserId, today: Date)
    : (r: Result<Store, Error>)
    ensures r.Success? <==> forall i :: 0 <= i < |vals| ==> Acceptable(vals[i], today)
    ensures r.Success? ==> r.value == AddRecords(store, vals, actingUser, today)
    ensures r.Failure? && (exists i :: 0 <= i < |vals| && CheckAmount(vals[i].amount).Some?) ==>
      r.error == FirstAmountError(vals).value
    ensures r.Failure? && (forall i :: 0 <= i < |vals| ==> CheckAmount(vals[i].amount).None?) ==>
      r.error == FirstDateError(vals, today).value
  {
    var amountError := FirstAmountError(vals);
    var dateError := FirstDateError(vals, today);
    if amountError.Some? then Failure(amountError.value)
    else if dateError.Some? then Failure(dateError.value)
    else Success(AddRecords(store, vals, actingUser, today))
  }

  /** Creation keeps the table valid, and the new records' ids are above
      every earlier id, so ids follow creation order. */
  lemma CreateKeepsValid(store: Store, vals: seq<NewExpense>, actingUser: UserId, today: Date)
    requires Valid(store)
    requires Create(store, vals, actingUser, today).Success?
    ensures Valid(Create(store, vals, actingUser, today).value)
    ensures var r := Create(store, vals, actingUser, today).value.records;
      forall k, j :: 0 <= k < j < |r| && |store.records| <= j ==> r[k].id < r[j].id
  {
    var r := AddRecords(store, vals, actingUser, today);
    var created := r.records[|store.records|..];
    assert r.records == store.records + created;
    AppendedIdsIncrease(store.records, created, store.nextId);
    forall i, j | 0 <= i < j < |r.records|
      ensures r.records[i].id != r.records[j].id
    {
      if j < |store.records| {
        assert r.records[i] == store.records[i];
        assert r.records[j] == store.records[j];
      }
    }
  }

  predicate Protected(s: State) {
    s == Approved || s == Paid
  }

  function Remove(store: seq<Expense>, ids: set<nat>): (r: seq<Expense>)
    ensures forall e :: e in r <==> e in store && e.id !in ids
    ensures forall e :: multiset(r)[e] == (if e.id in ids then 0 else multiset(store)[e])
    decreases |store|
  {
    if |store| == 0 then []
    else
      assert store == [store[0]] + store[1..];
      (if store[0].id in ids then [] else [store[0]]) + Remove(store[1..], ids)
  }

  /** `unlink` on the records of `store` whose id is in `ids`: refused as a
      whole when any of them is approved or paid, else all of them go. The
      id sequence does not move back. */
  function Unlink(store: Store, ids: set<nat>): (r: Result<Store, Error>)
    ensures r.Failure? <==>
      exists k :: 0 <= k < |store.records| && store.records[k].id in ids && Protected(store.records[k].state)
    ensures r.Failure? ==> r.error == CannotDeleteApprovedOrPaid
    ensures r.Success? ==> forall e :: e in r.value.records <==> e in store.records && e.id !in ids
    ensures r.Success? ==> r.value.nextId == store.nextId
  {
    if exists k :: 0 <= k < |store.records| && store.records[k].id in ids && Protected(store.records[k].state) then
      Failure(CannotDeleteApprovedOrPaid)
    else
      Success(Store(Remove(store.records, ids), store.nextId))
  }

  /** A successful deletion leaves every record outside the batch, with its
      multiplicity, and nothing else. */
  lemma UnlinkRemovesExactlyBatch(store: Store, ids: set<nat>)
    requires Unlink(store, ids).Success?
    ensures forall k :: 0 <= k < |store.records| && store.records[k].id in ids ==> !Protected(store.records[k].state)
    ensures forall e ::
      multiset(Unlink(store, ids).value.records)[e] == (if e.id in ids then 0 else multiset(store.records)[e])
    ensures |Unlink(store, ids).value.records| <= |store.records|
  {
    var r := Unlink(store, ids).value;
    assert r.records == Remove(store.records, ids);
    RemoveShrinks(store.records, ids);
  }

  /** Deletion keeps the table valid. */
  lemma UnlinkKeepsValid(store: Store, ids: set<nat>)
    requires Valid(store)
    requires Unlink(store, ids).Success?
    ensures Valid(Unlink(store, ids).value)
  {
    RemoveKeepsIdsUnique(store.records, ids);
    var r := Remove(store.records, ids);
    forall k | 0 <= k < |r|
      ensures r[k].id < store.nextId
    {
      assert r[k] in store.records;
    }
  }

  lemma {:induction false} RemoveKeepsIdsUnique(records: seq<Expense>, ids: set<nat>)
    requires IdsUnique(records)
    ensures IdsUnique(Remove(records, ids))
    decreases |records|
  {
    if |records| > 0 {
      var tail := records[1..];
      TailIdsUnique(records);
      RemoveKeepsIdsUnique(tail, ids);
      var rest := Remove(tail, ids);
      assert records == [records[0]] + tail;
      if records[0].id in ids {
        assert Remove(records, ids) == rest;
      } else {
        RestAvoidsHead(records, ids);
        ConsKeepsIdsUnique(records[0], rest);
        assert Remove(records, ids) == [records[0]] + rest;
      }
    }
  }

  lemma TailIdsUnique(records: seq<Expense>)
    requires 0 < |records| && IdsUnique(records)
    ensures IdsUnique(records[1..])
  {
    var tail := records[1..];
    forall i, j | 0 <= i < j < |tail|
      ensures tail[i].id != tail[j].id
    {
      assert tail[i] == records[i + 1] && tail[j] == records[j + 1];
    }
  }

  /** What is left of the tail holds no record with the head's id. */
  lemma RestAvoidsHead(records: seq<Expense>, ids: set<nat>)
    requires 0 < |records| && IdsUnique(records)
    ensures forall k :: 0 <= k < |Remove(records[1..], ids)| ==> Remove(records[1..], ids)[k].id != records[0].id
  {
    var tail := records[1..];
    var rest := Remove(tail, ids);
    forall k | 0 <= k < |rest|
      ensures rest[k].id != records[0].id
    {
      assert rest[k] in tail;
      var m :| 0 <= m < |tail| && tail[m] == rest[k];
      assert tail[m] == records[m + 1];
    }
  }

  lemma ConsKeepsIdsUnique(e: Expense, rest: seq<Expense>)
    requires IdsUnique(rest)
    requires forall k :: 0 <= k < |rest| ==> rest[k].id != e.id
    ensures IdsUnique([e] + rest)
  {
    var r := [e] + rest;
    forall i, j | 0 <= i < j < |r|
      ensures r[i].id != r[j].id
    {
      assert r[j] == rest[j - 1];
      if 0 < i {
        assert r[i] == rest[i - 1];
      }
    }
  }

  /** The id of a deleted record is not handed out again: records created
      after a deletion have ids different from every id the table held
      before it. */
  lemma DeletedIdNotReused(store: Store, ids: set<nat>, vals: seq<NewExpense>, actingUser: UserId, today: Date)
    requires Valid(store)
    requires Unlink(store, ids).Success?
    requires Create(Unlink(store, ids).value, vals, actingUser, today).Success?
    ensures var kept := Unlink(store, ids).value;
      var r := Create(kept, vals, actingUser, today).value.records;
      forall j, k :: |kept.records| <= j < |r| && 0 <= k < |store.records| ==> r[j].id != store.records[k].id
  {
    var kept := Unlink(store, ids).value;
    var r := Create(kept, vals, actingUser, today).value.records;
    forall j, k | |kept.records| <= j < |r| && 0 <= k < |store.records|
      ensures r[j].id != store.records[k].id
    {
      assert r[j].id == kept.nextId + (j - |kept.records|);
    }
  }

  lemma {:induction false} RemoveShrinks(store: seq<Expense>, ids: set<nat>)
    ensures |Remove(store, ids)| <= |store|
    decreases |store|
  {
    if |store| > 0 {
      RemoveShrinks(store[1..], ids);
    }
  }
}
