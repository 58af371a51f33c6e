/** `get_monthly_stats`: the expenses of one user in one calendar month,
    rejected ones left out, summarised as total, count, average, per
    category-name sums and the top category. The search returns the
    matching records in the model's `_order` (latest date first, and on
    one date the latest created first); `by_category` is a Python dict
    filled in that order, so it is modelled as a list of buckets in
    insertion order. */
module MonthlyStats {
  import opened Wrappers
  import opened Expenses
  import opened Calendar
  import opened Categories
  import opened Workflow
  import opened Sorting

  /** The search domain: owner, year and month of the date, state not
      rejected; the ORM adds "not archived" to every search. */
  predicate Counted(e: Expense, user: UserId, month: int, year: int) {
    e.user == user && e.date.year == year && e.date.month == month && e.state != Rejected && e.active
  }

  /** The records the search selects, in store order. */
  function Matching(es: seq<Expense>, user: UserId, month: int, year: int): (r: seq<Expense>)
    ensures |r| <= |es|
    decreases |es|
  {
    if |es| == 0 then []
    else (if Counted(es[0], user, month, year) then [es[0]] else []) + Matching(es[1..], user, month, year)
  }

  /** The search selects exactly the counted records, each as often as the store holds it. */
  lemma {:induction false} MatchingExactly(es: seq<Expense>, user: UserId, month: int, year: int)
    ensures forall e ::
      multiset(Matching(es, user, month, year))[e] == (if Counted(e, user, month, year) then multiset(es)[e] else 0)
    decreases |es|
  {
    if |es| > 0 {
      MatchingExactly(es[1..], user, month, year);
      assert es == [es[0]] + es[1..];
    }
  }

  lemma {:induction false} MatchingAppend(es: seq<Expense>, more: seq<Expense>, user: UserId, month: int, year: int)
    ensures Matching(es + more, user, month, year) == Matching(es, user, month, year) + Matching(more, user, month, year)
    decreases |es|
  {
    if |es| > 0 {
      assert (es + more)[1..] == es[1..] + more;
      MatchingAppend(es[1..], more, user, month, year);
    } else {
      assert es + more == more;
    }
  }

  /** `_order = 'date desc, create_date desc'`: `a` may be listed before
      `b`. Creation hands out increasing ids, so the later-created record
      is the one with the larger id. */
  predicate ListedBefore(a: Expense, b: Expense) {
    Before(b.date, a.date) || (a.date == b.date && a.id >= b.id)
  }

  lemma ListedBeforeIsTotal()
    ensures IsTotal(ListedBefore)
  {
    forall a: Expense, b: Expense
      ensures ListedBefore(a, b) || ListedBefore(b, a)
    {
      OrdinalOrder(a.date, b.date);
    }
  }

  /** `self.search(domain)`: the counted records, each as often as the
      store holds it, in search order. */
  function Search(es: seq<Expense>, user: UserId, month: int, year: int): (r: seq<Expense>)
    ensures Ordered(r, ListedBefore)
    ensures forall e :: multiset(r)[e] == (if Counted(e, user, month, year) then multiset(es)[e] else 0)
  {
    MatchingExactly(es, user, month, year);
    ListedBeforeIsTotal();
    Sort(ListedBefore, Matching(es, user, month, year))
  }

  /** `sum(expenses.mapped('amount'))`. */
  function Total(es: seq<Expense>): int
    decreases |es|
  {
    if |es| == 0 then 0 else es[0].amount + Total(es[1..])
  }

  /** Sum of the amounts of the records whose category is called `name`. */
  function SumFor(es: seq<Expense>, name: string): int
    decreases |es|
  {
    if |es| == 0 then 0
    else (if es[0].category.name == name then es[0].amount else 0) + SumFor(es[1..], name)
  }

  predicate NameIn(es: seq<Expense>, name: string) {
    exists k :: 0 <= k < |es| && es[k].category.name == name
  }

  /** Inserting a record adds its amount to the total and to its category's sum. */
  lemma {:induction false} InsertSums(le: (Expense, Expense) -> bool, x: Expense, s: seq<Expense>, n: string)
    requires IsTotal(le) && Ordered(s, le)
    ensures Total(Insert(le, x, s)) == x.amount + Total(s)
    ensures SumFor(Insert(le, x, s), n) == (if x.category.name == n then x.amount else 0) + SumFor(s, n)
    decreases |s|
  {
    if |s| == 0 {
      ConsSums(x, [], n);
    } else if le(x, s[0]) {
      ConsSums(x, s, n);
    } else {
      OrderedTail(s, le);
      InsertSums(le, x, s[1..], n);
      var rest := Insert(le, x, s[1..]);
      assert Insert(le, x, s) == [s[0]] + rest;
      ConsSums(s[0], rest, n);
      ConsSums(s[0], s[1..], n);
      assert s == [s[0]] + s[1..];
    }
  }

  lemma ConsSums(a: Expense, rest: seq<Expense>, n: string)
    ensures Total([a] + rest) == a.amount + Total(rest)
    ensures SumFor([a] + rest, n) == (if a.category.name == n then a.amount else 0) + SumFor(rest, n)
  {
    assert ([a] + rest)[1..] == rest;
  }

  /** Sorting changes neither the total nor any category's sum. */
  lemma {:induction false} SortSums(le: (Expense, Expense) -> bool, s: seq<Expense>, n: string)
    requires IsTotal(le)
    ensures Total(Sort(le, s)) == Total(s)
    ensures SumFor(Sort(le, s), n) == SumFor(s, n)
    decreases |s|
  {
    if |s| > 0 {
      SortSums(le, s[1..], n);
      InsertSums(le, s[0], Sort(le, s[1..]), n);
    }
  }

  /** Two orderings of the same records hold the same category names. */
  lemma SameRecordsSameNames(a: seq<Expense>, b: seq<Expense>, n: string)
    requires multiset(a) == multiset(b)
    ensures NameIn(a, n) <==> NameIn(b, n)
  {
    if NameIn(a, n) {
      var k :| 0 <= k < |a| && a[k].category.name == n;
      assert a[k] in multiset(b);
      var j :| 0 <= j < |b| && b[j] == a[k];
    }
    if NameIn(b, n) {
      var k :| 0 <= k < |b| && b[k].category.name == n;
      assert b[k] in multiset(a);
      var j :| 0 <= j < |a| && a[j] == b[k];
    }
  }

  /** The search order does not change what is summed or counted. */
  lemma SearchSums(es: seq<Expense>, user: UserId, month: int, year: int)
    ensures var found, m := Search(es, user, month, year), Matching(es, user, month, year);
      && |found| == |m| && Total(found) == Total(m)
      && (forall n :: SumFor(found, n) == SumFor(m, n))
      && (forall n :: NameIn(found, n) <==> NameIn(m, n))
  {
    var found, m := Search(es, user, month, year), Matching(es, user, month, year);
    ListedBeforeIsTotal();
    assert found == Sort(ListedBefore, m);
    assert |multiset(found)| == |multiset(m)|;
    SortSums(ListedBefore, m, "");
    forall n
      ensures SumFor(found, n) == SumFor(m, n)
      ensures NameIn(found, n) <==> NameIn(m, n)
    {
      SortSums(ListedBefore, m, n);
      SameRecordsSameNames(found, m, n);
    }
  }

  datatype Bucket = Bucket(name: string, sum: int)

  predicate HasKey(b: seq<Bucket>, name: string) {
    exists k :: 0 <= k < |b| && b[k].name == name
  }

  predicate DistinctNames(b: seq<Bucket>) {
    forall i, j :: 0 <= i < j < |b| ==> b[i].name != b[j].name
  }

  /** `by_category.get(name, 0)`. */
  function Get(b: seq<Bucket>, name: string): int
    decreases |b|
  {
    if |b| == 0 then 0 else if b[0].name == name then b[0].sum else Get(b[1..], name)
  }

  function BucketsTotal(b: seq<Bucket>): int
    decreases |b|
  {
    if |b| == 0 then 0 else b[0].sum + BucketsTotal(b[1..])
  }

  lemma HasKeyTail(b: seq<Bucket>, name: string)
    requires 0 < |b|
    ensures HasKey(b, name) <==> b[0].name == name || HasKey(b[1..], name)
  {
    if HasKey(b, name) && b[0].name != name {
      var k :| 0 <= k < |b| && b[k].name == name;
      assert b[1..][k - 1].name == name;
    }
    if HasKey(b[1..], name) {
      var k :| 0 <= k < |b[1..]| && b[1..][k].name == name;
      assert b[k + 1].name == name;
    }
  }

  /** `by_category[name] = by_category.get(name, 0) + amount`: an existing
      key is updated in place, a new one is appended, so keys keep their
      insertion order. */
  function AddTo(b: seq<Bucket>, name: string, amount: int): (r: seq<Bucket>)
    requires DistinctNames(b)
    ensures DistinctNames(r)
    ensures forall n :: HasKey(r, n) <==> HasKey(b, n) || n == name
    ensures forall n :: Get(r, n) == Get(b, n) + (if n == name then amount else 0)
    ensures BucketsTotal(r) == BucketsTotal(b) + amount
    ensures |r| == (if HasKey(b, name) then |b| else |b| + 1)
    ensures forall k :: 0 <= k < |b| ==> r[k].name == b[k].name
    decreases |b|
  {
    if |b| == 0 then
      var r := [Bucket(name, amount)];
      forall n ensures HasKey(r, n) <==> n == name {
        HasKeyTail(r, n);
      }
      r
    else if b[0].name == name then
      var r := [Bucket(name, b[0].sum + amount)] + b[1..];
      assert r[1..] == b[1..];
      HasKeyTail(b, name);
      forall n ensures HasKey(r, n) <==> HasKey(b, n) || n == name {
        HasKeyTail(r, n);
        HasKeyTail(b, n);
      }
      forall n ensures Get(r, n) == Get(b, n) + (if n == name then amount else 0) {
        if n != name {
          assert !HasKey(b[1..], name);
        }
      }
      r
    else
      var rest := AddTo(b[1..], name, amount);
      var r := [b[0]] + rest;
      assert r[1..] == rest;
      HasKeyTail(b, name);
      assert !HasKey(b[1..], b[0].name);
      forall n ensures HasKey(r, n) <==> HasKey(b, n) || n == name {
        HasKeyTail(r, n);
        HasKeyTail(b, n);
      }
      r
  }

  /** Position of the first record of `es` whose category is called
      `name`; `|es|` when there is none. */
  function FirstIndex(es: seq<Expense>, name: string): (k: nat)
    ensures k <= |es|
    ensures k < |es| <==> NameIn(es, name)
    ensures k < |es| ==> es[k].category.name == name
    ensures forall j :: 0 <= j < k ==> es[j].category.name != name
    decreases |es|
  {
    if |es| == 0 then 0
    else if es[0].category.name == name then 0
    else
      var k := 1 + FirstIndex(es[1..], name);
      assert forall j :: 1 <= j < |es| ==> es[1..][j - 1] == es[j];
      k
  }

  /** The keys of `b` from position `from` on come in order of their first
      record in `es`. */
  predicate KeysInFirstOrder(b: seq<Bucket>, from: nat, es: seq<Expense>) {
    forall i, j :: from <= i < j < |b| ==> FirstIndex(es, b[i].name) < FirstIndex(es, b[j].name)
  }

  lemma NameInCons(es: seq<Expense>, n: string)
    requires 0 < |es|
    ensures NameIn(es, n) <==> es[0].category.name == n || NameIn(es[1..], n)
  {
    if NameIn(es, n) && es[0].category.name != n {
      var k :| 0 <= k < |es| && es[k].category.name == n;
      assert es[1..][k - 1].category.name == n;
    }
    if NameIn(es[1..], n) {
      var k :| 0 <= k < |es[1..]| && es[1..][k].category.name == n;
      assert es[k + 1].category.name == n;
    }
  }

  /** The grouping loop of get_monthly_stats, continuing from `acc`: the
      keys of `acc` stay where they are, and the names met for the first
      time are appended in the order the records list them. */
  function GroupFrom(acc: seq<Bucket>, es: seq<Expense>): (r: seq<Bucket>)
    requires DistinctNames(acc)
    ensures DistinctNames(r)
    ensures forall n :: Get(r, n) == Get(acc, n) + SumFor(es, n)
    ensures forall n :: HasKey(r, n) <==> HasKey(acc, n) || NameIn(es, n)
    ensures BucketsTotal(r) == BucketsTotal(acc) + Total(es)
    ensures |acc| <= |r|
    ensures forall k :: 0 <= k < |acc| ==> r[k].name == acc[k].name
    ensures KeysInFirstOrder(r, |acc|, es)
    ensures |es| > 0 ==> 0 < |r|
    decreases |es|
  {
    if |es| == 0 then acc
    else
      var x := es[0].category.name;
      var next := AddTo(acc, x, es[0].amount);
      var r := GroupFrom(next, es[1..]);
      forall n ensures NameIn(es, n) <==> x == n || NameIn(es[1..], n) {
        NameInCons(es, n);
      }
      GroupFromNewKeys(acc, es, next, r);
      r
  }

  /** The ordering step of `GroupFrom`: after the first record's name is
      added, the keys the rest appends are ordered by their first record
      in the whole of `es`. */
  lemma GroupFromNewKeys(acc: seq<Bucket>, es: seq<Expense>, next: seq<Bucket>, r: seq<Bucket>)
    requires 0 < |es| && DistinctNames(r)
    requires |next| == (if HasKey(acc, es[0].category.name) then |acc| else |acc| + 1)
    requires forall k :: 0 <= k < |acc| ==> next[k].name == acc[k].name
    requires HasKey(next, es[0].category.name)
    requires |next| <= |r| && forall k :: 0 <= k < |next| ==> r[k].name == next[k].name
    requires KeysInFirstOrder(r, |next|, es[1..])
    ensures KeysInFirstOrder(r, |acc|, es)
  {
    var x := es[0].category.name;
    // The first record's name sits before the keys the rest appends.
    var k :| 0 <= k < |next| && next[k].name == x;
    assert !HasKey(acc, x) ==> k == |acc|;
    assert r[k].name == x && k <= |acc|;
    forall i, j | |acc| <= i < j < |r|
      ensures FirstIndex(es, r[i].name) < FirstIndex(es, r[j].name)
    {
      if i == k {
        assert r[j].name != x;
      } else {
        assert r[i].name != x && r[j].name != x;
      }
    }
  }

  /** Index of the first bucket with the largest sum: Python's `max` keeps
      the first maximal item it meets. */
  function ArgMax(b: seq<Bucket>): (k: nat)
    requires 0 < |b|
    ensures k < |b|
    ensures forall j :: 0 <= j < |b| ==> b[j].sum <= b[k].sum
    ensures forall j :: 0 <= j < k ==> b[j].sum < b[k].sum
    decreases |b|
  {
    if |b| == 1 then 0
    else
      var k := ArgMax(b[..|b| - 1]);
      assert forall j :: 0 <= j < |b| - 1 ==> b[..|b| - 1][j] == b[j];
      if b[|b| - 1].sum > b[k].sum then |b| - 1 else k
  }

  datatype Stats = Stats(
    total: int,
    count: nat,
    average: real,
    byCategory: seq<Bucket>,
    topCategory: Option<string>)

  /** `total / count` when there is something to count, else 0. */
  predicate IsAverage(average: real, total: int, count: nat) {
    (count == 0 ==> average == 0.0) && (count > 0 ==> average * (count as real) == total as real)
  }

  /** `total / len(expenses) if expenses else 0`. */
  function Average(total: int, count: nat): (a: real)
    ensures IsAverage(a, total, count)
  {
    if count > 0 then total as real / count as real else 0.0
  }

  /** `name` is the key of the first bucket with the largest sum. */
  predicate FirstMax(b: seq<Bucket>, name: string) {
    exists k :: 0 <= k < |b| && b[k].name == name
      && (forall j :: 0 <= j < |b| ==> b[j].sum <= b[k].sum)
      && (forall j :: 0 <= j < k ==> b[j].sum < b[k].sum)
  }

  /** `max(by_category.items(), key=...)[0]`, or None for an empty dict:
      the name of the first bucket with the largest sum. */
  function TopCategory(b: seq<Bucket>): (r: Option<string>)
    ensures r.None? <==> |b| == 0
    ensures r.Some? ==> FirstMax(b, r.value)
  {
    if |b| > 0 then Some(b[ArgMax(b)].name) else None
  }

  /** The statistics of the records `found`, taken in the order given. */
  function Summarise(found: seq<Expense>): (r: Stats)
    ensures r.count == |found| && r.total == Total(found)
    ensures r.count == 0 ==> r.total == 0
    ensures IsAverage(r.average, r.total, r.count)
    ensures DistinctNames(r.byCategory)
    ensures BucketsTotal(r.byCategory) == r.total
    ensures forall n :: Get(r.byCategory, n) == SumFor(found, n)
    ensures forall n :: HasKey(r.byCategory, n) <==> NameIn(found, n)
    ensures KeysInFirstOrder(r.byCategory, 0, found)
    ensures |r.byCategory| == 0 <==> r.count == 0
    ensures r.topCategory == TopCategory(r.byCategory)
  {
    var total := Total(found);
    var byCategory := GroupFrom([], found);
    var count := |found|;
    Stats(total, count, Average(total, count), byCategory, TopCategory(byCategory))
  }

  /** `get_monthly_stats(user_id, month, year)` over the store `es`. */
  function GetMonthlyStats(es: seq<Expense>, user: UserId, month: int, year: int): (r: Stats)
    ensures r.count == |Matching(es, user, month, year)|
    ensures r.total == Total(Matching(es, user, month, year))
    ensures r.count == 0 ==> r.total == 0
    ensures IsAverage(r.average, r.total, r.count)
    ensures DistinctNames(r.byCategory)
    ensures BucketsTotal(r.byCategory) == r.total
    ensures forall n :: Get(r.byCategory, n) == SumFor(Matching(es, user, month, year), n)
    ensures forall n :: HasKey(r.byCategory, n) <==> NameIn(Matching(es, user, month, year), n)
    ensures KeysInFirstOrder(r.byCategory, 0, Search(es, user, month, year))
    ensures |r.byCategory| == 0 <==> r.count == 0
    ensures r.topCategory.None? <==> |r.byCategory| == 0
    ensures r.topCategory.Some? ==> FirstMax(r.byCategory, r.topCategory.value)
  {
    SearchSums(es, user, month, year);
    Summarise(Search(es, user, month, year))
  }

  /** A distinct-keyed bucket list answers `Get` with the bucket's own sum. */
  lemma {:induction false} GetAt(b: seq<Bucket>, k: nat)
    requires DistinctNames(b) && k < |b|
    ensures Get(b, b[k].name) == b[k].sum
    decreases k
  {
    if k > 0 {
      assert b[1..][k - 1] == b[k];
      GetAt(b[1..], k - 1);
    }
  }

  /** The first maximal key of buckets listed in first-record order beats
      every other key on its sum, or ties and was met earlier. */
  lemma FirstMaxEarliest(b: seq<Bucket>, found: seq<Expense>, top: string, n: string)
    requires DistinctNames(b) && KeysInFirstOrder(b, 0, found)
    requires FirstMax(b, top) && HasKey(b, n)
    ensures Get(b, n) < Get(b, top) || (Get(b, n) == Get(b, top) && FirstIndex(found, top) <= FirstIndex(found, n))
  {
    var k :| 0 <= k < |b| && b[k].name == top
      && (forall j :: 0 <= j < |b| ==> b[j].sum <= b[k].sum)
      && (forall j :: 0 <= j < k ==> b[j].sum < b[k].sum);
    var j :| 0 <= j < |b| && b[j].name == n;
    GetAt(b, k);
    GetAt(b, j);
  }

  /** The top category has the largest sum, and among the categories with
      that sum it is the one whose first record the search lists earliest:
      Python's `max` keeps the first maximal key, and the dict's keys come
      in the order the search result first names them. */
  lemma TopCategoryEarliestMax(es: seq<Expense>, user: UserId, month: int, year: int, n: string)
    requires NameIn(Matching(es, user, month, year), n)
    ensures var r := GetMonthlyStats(es, user, month, year);
      var found, m := Search(es, user, month, year), Matching(es, user, month, year);
      && r.topCategory.Some?
      && NameIn(m, r.topCategory.value)
      && (|| SumFor(m, n) < SumFor(m, r.topCategory.value)
          || (SumFor(m, n) == SumFor(m, r.topCategory.value)
              && FirstIndex(found, r.topCategory.value) <= FirstIndex(found, n)))
  {
    var r := GetMonthlyStats(es, user, month, year);
    var found, m := Search(es, user, month, year), Matching(es, user, month, year);
    var top := r.topCategory.value;
    assert FirstMax(r.byCategory, top);
    FirstMaxEarliest(r.byCategory, found, top, n);
  }

  /** `get_monthly_stats` as written. The search bounds the date by the
      strings "YYYY-MM-01" and "YYYY-MM-31". The database refuses a bound
      that names no date, so the call fails for every month with fewer
      than 31 days. For the other months the bounds are the month's first
      and last day, and the result is that of `GetMonthlyStats`. */
  function GetMonthlyStatsAsWritten(es: seq<Expense>, user: UserId, month: int, year: int): (r: Result<Stats, Error>)
    ensures r.Failure? <==> !(1 <= month <= 12) || DaysInMonth(year, month) < 31
    ensures r.Failure? ==> r.error == InvalidDateBound
    ensures r.Success? ==> r.value == GetMonthlyStats(es, user, month, year)
  {
    if 1 <= month <= 12 && DaysInMonth(year, month) == 31 then Success(GetMonthlyStats(es, user, month, year))
    else Failure(InvalidDateBound)
  }

  /** As written, the statistics of any February cannot be asked for. */
  lemma FebruaryStatsFail(es: seq<Expense>, user: UserId, year: int)
    ensures GetMonthlyStatsAsWritten(es, user, 2, year) == Failure(InvalidDateBound)
    ensures GetMonthlyStatsAsWritten(es, user, 4, year) == Failure(InvalidDateBound)
  {
  }

  /** Bounding the date by the month's first and last day, as the search
      evidently means to, selects exactly the dates of that year and month:
      the filter `GetMonthlyStats` applies. */
  lemma MonthBoundsMatchMonth(d: Date, month: int, year: int)
    requires 1 <= month <= 12 && 1 <= year <= 9999
    ensures var first: Date := Civil(year, month, 1);
      var last: Date := Civil(year, month, DaysInMonth(year, month));
      (!Before(d, first) && !Before(last, d)) <==> d.year == year && d.month == month
  {
  }

  /** A record outside the domain (another user, another month, rejected or
      archived), wherever it sits in the store, has no influence on the
      statistics. */
  lemma UncountedIgnored(es1: seq<Expense>, e: Expense, es2: seq<Expense>, user: UserId, month: int, year: int)
    requires !Counted(e, user, month, year)
    ensures GetMonthlyStats(es1 + [e] + es2, user, month, year) == GetMonthlyStats(es1 + es2, user, month, year)
  {
    MatchingAppend(es1 + [e], es2, user, month, year);
    MatchingAppend(es1, [e], user, month, year);
    MatchingAppend(es1, es2, user, month, year);
    assert Matching([e], user, month, year) == [];
    assert Matching(es1, user, month, year) + [] == Matching(es1, user, month, year);
    assert Matching(es1 + [e] + es2, user, month, year) == Matching(es1 + es2, user, month, year);
  }

  /** Rejecting an expense takes exactly that record out of the month's
      statistics and keeps the others, in order. The button only works on
      a single record, so `ids` selects one. */
  lemma RejectLeavesStats(store: Store, ids: set<nat>, user: UserId, month: int, year: int)
    requires PerformOn(Reject, store, ids).Success?
    ensures SelectsOne(store.records, ids)
    ensures Matching(PerformOn(Reject, store, ids).value.records, user, month, year)
         == Remove(Matching(store.records, user, month, year), ids)
  {
    assert PerformOn(Reject, store, ids).value.records == WriteState(Reject, store.records, ids);
    RejectWriteLeavesMatching(store.records, ids, user, month, year);
  }

  lemma {:induction false} RejectWriteLeavesMatching(es: seq<Expense>, ids: set<nat>, user: UserId, month: int, year: int)
    ensures Matching(WriteState(Reject, es, ids), user, month, year) == Remove(Matching(es, user, month, year), ids)
    decreases |es|
  {
    if |es| > 0 {
      var r := WriteState(Reject, es, ids);
      assert r == [if es[0].id in ids then Perform(Reject, es[0]) else es[0]] + WriteState(Reject, es[1..], ids);
      assert r[1..] == WriteState(Reject, es[1..], ids);
      RejectWriteLeavesMatching(es[1..], ids, user, month, year);
      var head := if Counted(es[0], user, month, year) then [es[0]] else [];
      var head' := if Counted(r[0], user, month, year) then [r[0]] else [];
      assert Matching(r, user, month, year) == head' + Matching(r[1..], user, month, year);
      assert Matching(es, user, month, year) == head + Matching(es[1..], user, month, year);
      RejectHead(es[0], r[0], ids, user, month, year);
      RemoveAppend(head, Matching(es[1..], user, month, year), ids);
    }
  }

  lemma RejectHead(e: Expense, e': Expense, ids: set<nat>, user: UserId, month: int, year: int)
    requires e' == (if e.id in ids then Perform(Reject, e) else e)
    ensures (if Counted(e', user, month, year) then [e'] else [])
         == Remove(if Counted(e, user, month, year) then [e] else [], ids)
  {
  }

  lemma RemoveAppend(a: seq<Expense>, b: seq<Expense>, ids: set<nat>)
    requires |a| <= 1
    ensures Remove(a + b, ids) == Remove(a, ids) + Remove(b, ids)
  {
    if |a| == 1 {
      assert (a + b)[0] == a[0] && (a + b)[1..] == b;
      assert a[1..] == [];
    } else {
      assert a + b == b;
    }
  }

  /** The worked example: expenses 1 and 2 of 10.00 and 20.00 on food and
      expense 3 of 5.00 on transport, all on one March day. The search
      lists the latest created first, so transport is the first key of
      by_category; food has the larger sum and is on top. */
  lemma MarchExample(food: Category, transport: Category, day: Date, cur: Currency)
    requires food.name == "food" && transport.name == "transport"
    requires day.year == 2024 && day.month == 3
    ensures var es := [
        Expense(1, "lunch", day, 1000, cur, food, 7, None, None, Draft, true),
        Expense(2, "dinner", day, 2000, cur, food, 7, None, None, Submitted, true),
        Expense(3, "bus", day, 500, cur, transport, 7, None, None, Approved, true)];
      var r := GetMonthlyStats(es, 7, 3, 2024);
      && r.total == 3500 && r.count == 3 && r.average == 3500.0 / 3.0
      && r.byCategory == [Bucket("transport", 500), Bucket("food", 3000)]
      && r.topCategory == Some("food")
  {
    var es := [
        Expense(1, "lunch", day, 1000, cur, food, 7, None, None, Draft, true),
        Expense(2, "dinner", day, 2000, cur, food, 7, None, None, Submitted, true),
        Expense(3, "bus", day, 500, cur, transport, 7, None, None, Approved, true)];
    MarchSearch(es);
    MarchGroups(es[2], es[1], es[0]);
    var b := [Bucket("transport", 500), Bucket("food", 3000)];
    assert TopCategory(b) == Some("food") by {
      assert ArgMax(b[..1]) == 0;
      assert ArgMax(b) == 1;
    }
    assert Summarise([es[2], es[1], es[0]]).byCategory == b;
  }

  /** The March records all match and are listed newest first. */
  lemma MarchSearch(es: seq<Expense>)
    requires |es| == 3
    requires forall k :: 0 <= k < 3 ==> Counted(es[k], 7, 3, 2024) && es[k].id == k + 1
    requires es[0].date == es[1].date == es[2].date
    ensures Search(es, 7, 3, 2024) == [es[2], es[1], es[0]]
  {
    assert Matching(es[2..], 7, 3, 2024) == [es[2]];
    assert Matching(es[1..], 7, 3, 2024) == es[1..];
    assert Matching(es, 7, 3, 2024) == es;
    ListedBeforeIsTotal();
    NewestFirst(es[0], es[1], es[2]);
    assert es == [es[0]] + [es[1], es[2]];
    assert Sort(ListedBefore, es) == Insert(ListedBefore, es[0], Sort(ListedBefore, [es[1], es[2]]));
  }

  /** Sorting three records of one day whose ids increase. */
  lemma NewestFirst(a: Expense, b: Expense, c: Expense)
    requires a.date == b.date == c.date && a.id < b.id < c.id
    ensures IsTotal(ListedBefore)
    ensures Sort(ListedBefore, [b, c]) == [c, b]
    ensures Insert(ListedBefore, a, [c, b]) == [c, b, a]
  {
    ListedBeforeIsTotal();
    OrdinalOrder(a.date, a.date);
    assert !ListedBefore(b, c) && !ListedBefore(a, c) && !ListedBefore(a, b);
    assert [b, c][1..] == [c];
    assert Sort(ListedBefore, [c]) == [c];
    assert [c, b][1..] == [b];
    assert Insert(ListedBefore, a, [b]) == [b, a];
  }

  /** Grouping transport 5.00, food 20.00, food 10.00 in that order. */
  lemma MarchGroups(bus: Expense, dinner: Expense, lunch: Expense)
    requires bus.category.name == "transport" && bus.amount == 500
    requires dinner.category.name == "food" && dinner.amount == 2000
    requires lunch.category.name == "food" && lunch.amount == 1000
    ensures GroupFrom([], [bus, dinner, lunch]) == [Bucket("transport", 500), Bucket("food", 3000)]
    ensures Total([bus, dinner, lunch]) == 3500
  {
    var es := [bus, dinner, lunch];
    assert "food" != "transport" by {
      assert "food"[0] != "transport"[0];
    }
    var b1 := AddTo([], "transport", 500);
    assert b1 == [Bucket("transport", 500)];
    assert AddTo([], "food", 2000) == [Bucket("food", 2000)];
    var b2 := AddTo(b1, "food", 2000);
    assert b2 == [Bucket("transport", 500), Bucket("food", 2000)];
    assert b2[1..] == [Bucket("food", 2000)];
    var b3 := AddTo(b2, "food", 1000);
    assert AddTo(b2[1..], "food", 1000) == [Bucket("food", 3000)];
    assert b3 == [Bucket("transport", 500), Bucket("food", 3000)];
    assert GroupFrom(b3, es[3..]) == b3;
    assert GroupFrom(b2, es[2..]) == b3;
    assert GroupFrom(b1, es[1..]) == b3;
    assert Total(es[2..]) == 1000;
    assert Total(es[1..]) == 3000;
  }
}
