/** The five workflow buttons. Each one writes a fixed state onto every
    record it is applied to, whatever state the record was in: the code
    has no transition table. A state write does not touch amount or date,
    so it re-runs neither field constraint. All buttons but reset-to-draft
    then post a chatter message, which needs the recordset to be exactly
    one record; on any other recordset the call raises and the write is
    rolled back. */
module Workflow {
  import opened Wrappers
  import opened Expenses

  datatype Action = Submit | Approve | Reject | ResetDraft | MarkPaid

  /** The state each action writes. */
  function Target(a: Action): State {
    match a
    case Submit => Submitted
    case Approve => Approved
    case Reject => Rejected
    case ResetDraft => Draft
    case MarkPaid => Paid
  }

  /** One action on one record: the state becomes the target, every other field stays. */
  function Perform(a: Action, e: Expense): (r: Expense)
    ensures r.state == Target(a)
    ensures r.(state := e.state) == e
  {
    e.(state := Target(a))
  }

  /** Any action is accepted from any state, and the last one applied wins:
      in particular a paid expense can be reset to draft and an approved
      one rejected. */
  lemma LastActionWins(a: Action, b: Action, e: Expense)
    ensures Perform(b, Perform(a, e)) == Perform(b, e)
    ensures Perform(a, Perform(a, e)) == Perform(a, e)
  {
  }

  /** `self.write({'state': ...})` on the records of `records` whose id is in `ids`. */
  function WriteState(a: Action, records: seq<Expense>, ids: set<nat>): (r: seq<Expense>)
    ensures |r| == |records|
    ensures forall k :: 0 <= k < |records| ==>
      r[k].state == (if records[k].id in ids then Target(a) else records[k].state)
    ensures forall k :: 0 <= k < |records| ==> r[k].(state := records[k].state) == records[k]
    decreases |records|
  {
    if |records| == 0 then []
    else
      var head := if records[0].id in ids then Perform(a, records[0]) else records[0];
      [head] + WriteState(a, records[1..], ids)
  }

  lemma SameIdSameIndex(records: seq<Expense>, i: nat, j: nat)
    requires IdsUnique(records)
    requires i < |records| && j < |records| && records[i].id == records[j].id
    ensures i == j
  {
  }

  /** Whether the action goes on to post a message about the recordset
      (and, for approve, to read its description). */
  predicate NeedsOneRecord(a: Action) {
    a != ResetDraft
  }

  /** `ids` selects exactly one record of `records`. */
  predicate SelectsOne(records: seq<Expense>, ids: set<nat>) {
    exists k :: 0 <= k < |records| && records[k].id in ids
      && forall j :: 0 <= j < |records| && records[j].id in ids ==> j == k
  }

  /** A workflow button pressed on the records of `store` whose id is in
      `ids`. Reset-to-draft works on any recordset; the others only on a
      single record. */
  function PerformOn(a: Action, store: Store, ids: set<nat>): (r: Result<Store, Error>)
    ensures r.Failure? <==> NeedsOneRecord(a) && !SelectsOne(store.records, ids)
    ensures r.Failure? ==> r.error == ExpectedSingleton
    ensures r.Success? ==> |r.value.records| == |store.records| && r.value.nextId == store.nextId
    ensures r.Success? ==> forall k :: 0 <= k < |store.records| ==>
      r.value.records[k].state == (if store.records[k].id in ids then Target(a) else store.records[k].state)
    ensures r.Success? ==> forall k :: 0 <= k < |store.records| ==>
      r.value.records[k].(state := store.records[k].state) == store.records[k]
  {
    if NeedsOneRecord(a) && !SelectsOne(store.records, ids) then Failure(ExpectedSingleton)
    else Success(Store(WriteState(a, store.records, ids), store.nextId))
  }

  /** A single record can be moved by every button, from every state. */
  lemma EveryButtonOnOneRecord(a: Action, store: Store, id: nat, k: nat)
    requires Valid(store)
    requires k < |store.records| && store.records[k].id == id
    ensures PerformOn(a, store, {id}).Success?
    ensures PerformOn(a, store, {id}).value.records[k] == Perform(a, store.records[k])
  {
    forall j | 0 <= j < |store.records| && store.records[j].id in {id}
      ensures j == k
    {
      SameIdSameIndex(store.records, j, k);
    }
    assert SelectsOne(store.records, {id});
  }

  /** Two records in one recordset: every button but reset-to-draft fails. */
  lemma BatchNeedsReset(a: Action, store: Store, i: nat, j: nat)
    requires i < j < |store.records|
    ensures PerformOn(a, store, {store.records[i].id, store.records[j].id}).Success? <==> a == ResetDraft
  {
    TwoSelected(store.records, {store.records[i].id, store.records[j].id}, i, j);
  }

  lemma TwoSelected(records: seq<Expense>, ids: set<nat>, i: nat, j: nat)
    requires i < j < |records|
    requires records[i].id in ids && records[j].id in ids
    ensures !SelectsOne(records, ids)
  {
    forall k | 0 <= k < |records| && records[k].id in ids
      ensures exists m :: 0 <= m < |records| && records[m].id in ids && m != k
    {
      if k == i {
        assert records[j].id in ids;
      } else {
        assert records[i].id in ids;
      }
    }
  }

  /** A workflow action keeps the table valid: ids are not touched. */
  lemma PerformOnKeepsValid(a: Action, store: Store, ids: set<nat>)
    requires Valid(store)
    requires PerformOn(a, store, ids).Success?
    ensures Valid(PerformOn(a, store, ids).value)
  {
    var r := PerformOn(a, store, ids).value.records;
    forall i, j | 0 <= i < j < |r|
      ensures r[i].id != r[j].id
    {
      assert r[i].id == store.records[i].id && r[j].id == store.records[j].id;
    }
    forall k | 0 <= k < |r|
      ensures r[k].id < store.nextId
    {
      assert r[k].id == store.records[k].id;
    }
  }

  /** Because reset-to-draft is not guarded and accepts any recordset, a
      batch that could not be deleted (it held approved or paid records)
      can be deleted right after it is reset. */
  lemma ResetThenUnlink(store: Store, ids: set<nat>)
    ensures PerformOn(ResetDraft, store, ids).Success?
    ensures Unlink(PerformOn(ResetDraft, store, ids).value, ids).Success?
  {
    var r := PerformOn(ResetDraft, store, ids).value.records;
    assert forall k :: 0 <= k < |r| && r[k].id in ids ==> r[k].state == Draft;
    assert !exists k :: 0 <= k < |r| && r[k].id in ids && Protected(r[k].state);
  }
}
