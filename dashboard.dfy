/**
 * `GET /flats/:flatId/dashboard`: the current calendar month, the month's
 * expenses and their total, the per-category chart, the five latest
 * expenses, the open-task count and the per-user balance chart.
 */
module Dashboard {
  import opened Money
  import opened Domain
  import opened Sorting
  import Ledger

  // ---------------------------------------------------------------------
  // The calendar month
  // ---------------------------------------------------------------------

  /**
   * `getMonthRange(now)`: midnight of day 1 of `now`'s month, and midnight
   * of day 1 of the month after, where month 12 rolls over into January of
   * the next year (as `new Date(y, m + 1, 1)` does).
   */
  function MonthRange(now: Moment): (r: (Moment, Moment))
    requires 0 <= now.month < 12
    ensures WellFormed(r.0) && WellFormed(r.1) && Before(r.0, r.1)
    ensures r.0 == Moment(now.year, now.month, 1, 0)
    ensures now.month < 11 ==> r.1 == Moment(now.year, now.month + 1, 1, 0)
    ensures now.month == 11 ==> r.1 == Moment(now.year + 1, 0, 1, 0)
  {
    var start := Moment(now.year, now.month, 1, 0);
    var end := if now.month == 11 then Moment(now.year + 1, 0, 1, 0) else Moment(now.year, now.month + 1, 1, 0);
    (start, end)
  }

  /** The Mongo filter `date: { $gte: start, $lt: end }`. */
  predicate InRange(t: Moment, range: (Moment, Moment)) {
    !Before(t, range.0) && Before(t, range.1)
  }

  /** A well-formed instant is in the range exactly when it falls in the same year and month as `now`. */
  lemma MonthRangeIsTheMonth(now: Moment, t: Moment)
    requires 0 <= now.month < 12 && WellFormed(t)
    ensures InRange(t, MonthRange(now)) <==> t.year == now.year && t.month == now.month
  {
  }

  /** The point on the time line of a well-formed instant, in milliseconds. */
  function Stamp(t: Moment): real {
    ((((t.year * 12 + t.month) * 32 + t.day) * 86_400_000) + t.millis) as real
  }

  /** Sorting by `Stamp` is sorting chronologically. */
  lemma StampOrdersMoments(a: Moment, b: Moment)
    requires WellFormed(a) && WellFormed(b)
    ensures Before(a, b) <==> Stamp(a) < Stamp(b)
    ensures a == b <==> Stamp(a) == Stamp(b)
  {
  }

  function When(e: Expense): real { Stamp(e.date) }

  function Amount(e: Expense): real { e.amount }

  // ---------------------------------------------------------------------
  // The month's expenses and their total
  // ---------------------------------------------------------------------

  function InMonthOnly(expenses: seq<Expense>, range: (Moment, Moment)): (r: seq<Expense>)
    ensures forall e :: e in r <==> e in expenses && InRange(e.date, range)
  {
    if expenses == [] then []
    else (if InRange(expenses[0].date, range) then [expenses[0]] else []) + InMonthOnly(expenses[1..], range)
  }

  /** `Expense.find({ flat, date in range }).sort({ date: -1 })`. */
  function MonthExpenses(expenses: seq<Expense>, now: Moment): seq<Expense>
    requires 0 <= now.month < 12
  {
    SortDesc(InMonthOnly(expenses, MonthRange(now)), When)
  }

  /**
   * `monthExpenses.reduce((acc, e) => acc + Number(e.amount || 0), 0)`; a
   * stored amount is a number, so `|| 0` changes nothing.
   */
  function MonthTotal(monthExpenses: seq<Expense>): real {
    Total(monthExpenses, Amount)
  }

  /**
   * The month's expenses are the ones dated in the month, latest first, and
   * their total does not depend on that order.
   */
  lemma MonthExpensesCorrect(expenses: seq<Expense>, now: Moment)
    requires 0 <= now.month < 12
    ensures var r := MonthExpenses(expenses, now);
      && SortedDesc(r, When)
      && multiset(r) == multiset(InMonthOnly(expenses, MonthRange(now)))
      && (forall e :: e in r <==> e in expenses && InRange(e.date, MonthRange(now)))
      && MonthTotal(r) == Total(InMonthOnly(expenses, MonthRange(now)), Amount)
  {
    var s := InMonthOnly(expenses, MonthRange(now));
    SortDescCorrect(s, When);
    TotalPermutation(SortDesc(s, When), s, Amount);
    SameElements(SortDesc(s, When), s);
  }

  lemma SameElements<T>(a: seq<T>, b: seq<T>)
    requires multiset(a) == multiset(b)
    ensures forall e :: e in a <==> e in b
  {
    forall e ensures e in a <==> e in b {
      assert e in a <==> e in multiset(a);
      assert e in b <==> e in multiset(b);
    }
  }

  /** Stored amounts are never negative, so neither is the total. */
  lemma {:induction false} MonthTotalNonNegative(es: seq<Expense>)
    requires forall k :: 0 <= k < |es| ==> es[k].amount >= 0.0
    ensures MonthTotal(es) >= 0.0
  {
    if es != [] {
      MonthTotalNonNegative(es[1..]);
    }
  }

  // ---------------------------------------------------------------------
  // The five latest expenses and the open tasks
  // ---------------------------------------------------------------------

  /** `Expense.find({ flat }).sort({ date: -1 }).limit(5)`. */
  function Recent(expenses: seq<Expense>): seq<Expense> {
    var sorted := SortDesc(expenses, When);
    sorted[..if |sorted| < 5 then |sorted| else 5]
  }

  /**
   * At most five expenses, latest first, all of the flat's, and none of the
   * others later than any of them; fewer than five only when the flat has
   * fewer.
   */
  lemma RecentAreLatest(expenses: seq<Expense>)
    ensures var r := Recent(expenses);
      && |r| == (if |expenses| < 5 then |expenses| else 5)
      && SortedDesc(r, When)
      && (forall e :: e in r ==> e in expenses)
      && (forall j, k :: 0 <= j < |r| <= k < |SortDesc(expenses, When)| ==> When(r[j]) >= When(SortDesc(expenses, When)[k]))
      && multiset(SortDesc(expenses, When)) == multiset(expenses)
  {
    var sorted := SortDesc(expenses, When);
    SortDescCorrect(expenses, When);
    forall e | e in Recent(expenses) ensures e in expenses {
      assert e in multiset(sorted);
      assert e in multiset(expenses);
    }
  }

  /** A task as the dashboard counts it. */
  datatype Task = Task(title: string, status: string)

  predicate Open(t: Task) {
    t.status == "pending" || t.status == "doing"
  }

  /** `Task.countDocuments({ flat, status: { $in: ["pending", "doing"] } })`. */
  function PendingTasksCount(tasks: seq<Task>): (r: nat)
    ensures r <= |tasks|
  {
    if tasks == [] then 0 else (if Open(tasks[0]) then 1 else 0) + PendingTasksCount(tasks[1..])
  }

  /** The count is zero exactly when no task is open, and the list's length exactly when all are. */
  lemma {:induction false} PendingCountBounds(tasks: seq<Task>)
    ensures PendingTasksCount(tasks) == 0 <==> forall k :: 0 <= k < |tasks| ==> !Open(tasks[k])
    ensures PendingTasksCount(tasks) == |tasks| <==> forall k :: 0 <= k < |tasks| ==> Open(tasks[k])
  {
    if tasks != [] {
      PendingCountBounds(tasks[1..]);
      assert forall k :: 1 <= k < |tasks| ==> tasks[k] == tasks[1..][k - 1];
      assert forall k :: 0 <= k < |tasks[1..]| ==> tasks[1..][k] == tasks[k + 1];
    }
  }

  /** The count is the number of open tasks: the size of the set of their positions. */
  lemma PendingTasksCountExact(tasks: seq<Task>)
    ensures PendingTasksCount(tasks) == |set k | 0 <= k < |tasks| && Open(tasks[k])|
  {
    OpenFrom(tasks, 0);
    assert tasks[0..] == tasks;
  }

  /** The open tasks from position `i` on are as many as the count of `tasks[i..]`. */
  lemma {:induction false} OpenFrom(tasks: seq<Task>, i: nat)
    requires i <= |tasks|
    ensures PendingTasksCount(tasks[i..]) == |set k | i <= k < |tasks| && Open(tasks[k])|
    decreases |tasks| - i
  {
    var here := set k | i <= k < |tasks| && Open(tasks[k]);
    if i == |tasks| {
      assert here == {};
    } else {
      var later := set k | i + 1 <= k < |tasks| && Open(tasks[k]);
      OpenFrom(tasks, i + 1);
      assert tasks[i..][1..] == tasks[i + 1..];
      assert tasks[i..][0] == tasks[i];
      if Open(tasks[i]) {
        assert here == {i} + later;
        assert i !in later;
      } else {
        assert here == later;
      }
    }
  }

  // ---------------------------------------------------------------------
  // The per-category chart
  // ---------------------------------------------------------------------

  /** `e.category || "general"`. */
  function CategoryOf(e: Expense): string {
    if e.category == "" then "general" else e.category
  }

  /** The keys of `catMap` in insertion order. */
  function CategoryNames(es: seq<Expense>): seq<string>
    decreases |es|
  {
    if es == [] then []
    else
      var names := CategoryNames(es[..|es| - 1]);
      var c := CategoryOf(es[|es| - 1]);
      if c in names then names else names + [c]
  }

  /** `catMap` after the loop: each category's accumulated amount. */
  function CategoryMap(es: seq<Expense>): map<string, real>
    decreases |es|
  {
    if es == [] then map[]
    else Ledger.Credit(CategoryMap(es[..|es| - 1]), CategoryOf(es[|es| - 1]), es[|es| - 1].amount)
  }

  /** What the month's expenses of category `c` add up to, summed front to back. */
  function CategorySum(es: seq<Expense>, c: string): real {
    if es == [] then 0.0 else (if CategoryOf(es[0]) == c then es[0].amount else 0.0) + CategorySum(es[1..], c)
  }

  lemma {:induction false} CategorySumSnoc(es: seq<Expense>, x: Expense, c: string)
    ensures CategorySum(es + [x], c) == CategorySum(es, c) + (if CategoryOf(x) == c then x.amount else 0.0)
  {
    if es == [] {
      assert es + [x] == [x];
    } else {
      assert (es + [x])[1..] == es[1..] + [x];
      CategorySumSnoc(es[1..], x, c);
    }
  }

  /** Each category's accumulated amount is the sum of the month's expenses in that category. */
  lemma {:induction false} CategoryTotalIs(es: seq<Expense>, c: string)
    ensures Ledger.Get(CategoryMap(es), c) == CategorySum(es, c)
    decreases |es|
  {
    if es != [] {
      var init, last := es[..|es| - 1], es[|es| - 1];
      assert es == init + [last];
      CategoryTotalIs(init, c);
      CategorySumSnoc(init, last, c);
    }
  }

  /** The `for (const e of monthExpenses)` loop that fills `catMap`. */
  method CategoryTotals(es: seq<Expense>) returns (names: seq<string>, catMap: map<string, real>)
    ensures names == CategoryNames(es) && catMap == CategoryMap(es)
  {
    names, catMap := [], map[];
    for n := 0 to |es|
      invariant names == CategoryNames(es[..n]) && catMap == CategoryMap(es[..n])
    {
      assert es[..n + 1][..n] == es[..n];
      var cat := CategoryOf(es[n]);
      if cat !in names {
        names := names + [cat];
      }
      catMap := catMap[cat := (if cat in catMap then catMap[cat] else 0.0) + es[n].amount];
    }
    assert es[..|es|] == es;
  }

  /** The categories the month's expenses fall in. */
  function Categories(es: seq<Expense>): set<string> {
    set k | 0 <= k < |es| :: CategoryOf(es[k])
  }

  lemma CategoriesSnoc(es: seq<Expense>)
    requires es != []
    ensures Categories(es) == Categories(es[..|es| - 1]) + {CategoryOf(es[|es| - 1])}
  {
    var init := es[..|es| - 1];
    forall c | c in Categories(es) ensures c in Categories(init) + {CategoryOf(es[|es| - 1])} {
      var k :| 0 <= k < |es| && CategoryOf(es[k]) == c;
      if k < |init| {
        assert init[k] == es[k];
      }
    }
    forall c | c in Categories(init) ensures c in Categories(es) {
      var k :| 0 <= k < |init| && CategoryOf(init[k]) == c;
      assert es[k] == init[k];
    }
  }

  /**
   * One name per distinct category, in the order of first appearance; the
   * map's keys are exactly those names.
   */
  lemma CategoryNamesCorrect(es: seq<Expense>)
    ensures Distinct(CategoryNames(es))
    ensures forall c :: c in CategoryNames(es) <==> c in Categories(es)
    ensures CategoryMap(es).Keys == Categories(es)
  {
    NamesDistinct(es);
    NamesAreCategories(es);
  }

  lemma {:induction false} NamesDistinct(es: seq<Expense>)
    ensures Distinct(CategoryNames(es))
    decreases |es|
  {
    if es != [] {
      var init := es[..|es| - 1];
      NamesDistinct(init);
      var names := CategoryNames(init);
      var c := CategoryOf(es[|es| - 1]);
      if c !in names {
        forall a, b | 0 <= a < b < |names + [c]| ensures (names + [c])[a] != (names + [c])[b] {
          if b == |names| {
            assert (names + [c])[a] == names[a];
          }
        }
      }
    }
  }

  lemma {:induction false} NamesAreCategories(es: seq<Expense>)
    ensures forall c :: c in CategoryNames(es) <==> c in Categories(es)
    ensures CategoryMap(es).Keys == Categories(es)
    decreases |es|
  {
    if es == [] {
      assert Categories(es) == {};
    } else {
      NamesAreCategories(es[..|es| - 1]);
      CategoriesSnoc(es);
    }
  }

  lemma {:induction false} SumOverSnoc(keys: seq<string>, m: map<string, real>, x: string)
    ensures Ledger.SumOver(keys + [x], m) == Ledger.SumOver(keys, m) + Ledger.Get(m, x)
  {
    if keys != [] {
      assert (keys + [x])[1..] == keys[1..] + [x];
      SumOverSnoc(keys[1..], m, x);
    } else {
      assert keys + [x] == [x];
    }
  }

  /** The category totals add up to the month total: the loop loses and invents nothing. */
  lemma {:induction false} CategoriesAddUp(es: seq<Expense>)
    ensures Ledger.SumOver(CategoryNames(es), CategoryMap(es)) == MonthTotal(es)
    decreases |es|
  {
    if es != [] {
      var init, last := es[..|es| - 1], es[|es| - 1];
      assert es == init + [last];
      TotalSnoc(init, last, Amount);
      CategoriesAddUp(init);
      CategoryNamesCorrect(init);
      var names, m, c := CategoryNames(init), CategoryMap(init), CategoryOf(last);
      if c in names {
        Ledger.SumOverCredit(names, m, c, last.amount);
      } else {
        Ledger.SumOverElsewhere(names, m, c, last.amount);
        SumOverSnoc(names, Ledger.Credit(m, c, last.amount), c);
        assert c !in m;
      }
    }
  }

  /** A bar of the category chart. */
  datatype CategoryRow = CategoryRow(name: string, total: real)

  function RowTotal(r: CategoryRow): real { r.total }

  function RowName(r: CategoryRow): string { r.name }

  /** `Array.from(catMap.entries()).map(([name, total]) => ({ name, total: Number(total.toFixed(2)) }))`. */
  function Rows(names: seq<string>, catMap: map<string, real>): seq<CategoryRow> {
    if names == [] then []
    else [CategoryRow(names[0], Round2(Ledger.Get(catMap, names[0])))] + Rows(names[1..], catMap)
  }

  lemma {:induction false} RowsShape(names: seq<string>, catMap: map<string, real>)
    ensures |Rows(names, catMap)| == |names|
    ensures forall k :: 0 <= k < |names| ==> Rows(names, catMap)[k] == CategoryRow(names[k], Round2(Ledger.Get(catMap, names[k])))
    ensures -0.005 * |names| as real <= Total(Rows(names, catMap), RowTotal) - Ledger.SumOver(names, catMap) <= 0.005 * |names| as real
  {
    if names != [] {
      RowsShape(names[1..], catMap);
    }
  }

  /** `byCategory`: the rows sorted by descending total. */
  function ByCategory(monthExpenses: seq<Expense>): seq<CategoryRow> {
    SortDesc(Rows(CategoryNames(monthExpenses), CategoryMap(monthExpenses)), RowTotal)
  }

  /**
   * The chart has one bar per distinct category of the month (an empty
   * category counting as "general"), is sorted by descending total, and its
   * rounded totals add up to the month total within half a cent per bar.
   */
  lemma ByCategoryCorrect(es: seq<Expense>)
    ensures var chart := ByCategory(es);
      && SortedDesc(chart, RowTotal)
      && DistinctBy(chart, RowName)
      && multiset(chart) == multiset(Rows(CategoryNames(es), CategoryMap(es)))
      && (forall k :: 0 <= k < |chart| ==> chart[k].name in Categories(es))
      && -0.005 * |chart| as real <= Total(chart, RowTotal) - MonthTotal(es) <= 0.005 * |chart| as real
      && (forall k :: 0 <= k < |chart| ==> chart[k].total == Round2(CategorySum(es, chart[k].name)))
  {
    var rows := Rows(CategoryNames(es), CategoryMap(es));
    SortDescCorrect(rows, RowTotal);
    RowsNamed(es);
    SortDescKeeps(rows, RowTotal, RowName);
    ByCategoryNames(es);
    ByCategoryTotal(es);
    ByCategoryBars(es);
  }

  /** Each bar's total is its category's sum over the month, rounded to cents. */
  lemma ByCategoryBars(es: seq<Expense>)
    ensures forall k :: 0 <= k < |ByCategory(es)| ==>
      ByCategory(es)[k].total == Round2(CategorySum(es, ByCategory(es)[k].name))
  {
    var names, m := CategoryNames(es), CategoryMap(es);
    var rows := Rows(names, m);
    var chart := ByCategory(es);
    RowsShape(names, m);
    SortDescCorrect(rows, RowTotal);
    forall k | 0 <= k < |chart| ensures chart[k].total == Round2(CategorySum(es, chart[k].name)) {
      assert chart[k] in multiset(rows);
      var i :| 0 <= i < |rows| && rows[i] == chart[k];
      CategoryTotalIs(es, names[i]);
    }
  }

  /** The unsorted rows name each category of the month once. */
  lemma RowsNamed(es: seq<Expense>)
    ensures var rows := Rows(CategoryNames(es), CategoryMap(es));
      && DistinctBy(rows, RowName)
      && (forall i :: 0 <= i < |rows| ==> rows[i].name in Categories(es))
  {
    var names, m := CategoryNames(es), CategoryMap(es);
    var rows := Rows(names, m);
    CategoryNamesCorrect(es);
    RowsShape(names, m);
    forall i | 0 <= i < |rows| ensures rows[i].name == names[i] && rows[i].name in Categories(es) {
      assert names[i] in names;
    }
  }

  /** Every bar of the chart names a category of the month. */
  lemma ByCategoryNames(es: seq<Expense>)
    ensures forall k :: 0 <= k < |ByCategory(es)| ==> ByCategory(es)[k].name in Categories(es)
  {
    var rows := Rows(CategoryNames(es), CategoryMap(es));
    var chart := ByCategory(es);
    RowsNamed(es);
    SortDescCorrect(rows, RowTotal);
    SameElements(chart, rows);
    forall k | 0 <= k < |chart| ensures chart[k].name in Categories(es) {
      assert chart[k] in rows;
    }
  }

  /** The rounded bars add up to the month total within half a cent each. */
  lemma ByCategoryTotal(es: seq<Expense>)
    ensures -0.005 * |ByCategory(es)| as real <= Total(ByCategory(es), RowTotal) - MonthTotal(es) <= 0.005 * |ByCategory(es)| as real
  {
    var names, m := CategoryNames(es), CategoryMap(es);
    var rows := Rows(names, m);
    CategoriesAddUp(es);
    RowsShape(names, m);
    SortDescCorrect(rows, RowTotal);
    SortDescKeeps(rows, RowTotal, RowName);
  }

  /** Every category of the month has a row before sorting. */
  lemma RowsCover(es: seq<Expense>, c: string)
    requires c in Categories(es)
    ensures exists i :: 0 <= i < |Rows(CategoryNames(es), CategoryMap(es))| && Rows(CategoryNames(es), CategoryMap(es))[i].name == c
  {
    var names, m := CategoryNames(es), CategoryMap(es);
    CategoryNamesCorrect(es);
    RowsShape(names, m);
    assert c in names;
    var i :| 0 <= i < |names| && names[i] == c;
    assert Rows(names, m)[i].name == c;
  }

  /** Every category present in the month gets a bar. */
  lemma EveryCategoryCharted(es: seq<Expense>, j: nat)
    requires j < |es|
    ensures exists k :: 0 <= k < |ByCategory(es)| && ByCategory(es)[k].name == CategoryOf(es[j])
  {
    var rows := Rows(CategoryNames(es), CategoryMap(es));
    var c := CategoryOf(es[j]);
    assert c in Categories(es);
    RowsCover(es, c);
    var i :| 0 <= i < |rows| && rows[i].name == c;
    SortDescCorrect(rows, RowTotal);
    SameElements(ByCategory(es), rows);
    assert rows[i] in ByCategory(es);
    var k :| 0 <= k < |ByCategory(es)| && ByCategory(es)[k] == rows[i];
  }

  /** An expense with no category is charted under "general". */
  lemma UncategorisedIsGeneral(es: seq<Expense>, j: nat)
    requires j < |es| && es[j].category == ""
    ensures exists k :: 0 <= k < |ByCategory(es)| && ByCategory(es)[k].name == "general"
  {
    EveryCategoryCharted(es, j);
  }

  // ---------------------------------------------------------------------
  // The whole reply
  // ---------------------------------------------------------------------

  datatype Summary = Summary(membersCount: nat, monthTotal: real, pendingTasksCount: nat)

  datatype Reply = Reply(summary: Summary, recentExpenses: seq<Expense>,
                         byCategory: seq<CategoryRow>, byUser: seq<Ledger.Entry>)

  /** The dashboard reply for a member: the balance chart covers all expenses, the rest only the month's. */
  function DashboardReply(members: seq<UserId>, expenses: seq<Expense>, tasks: seq<Task>, now: Moment): Reply
    requires 0 <= now.month < 12
  {
    var month := MonthExpenses(expenses, now);
    Reply(Summary(|members|, Round2(MonthTotal(month)), PendingTasksCount(tasks)),
          Recent(expenses), ByCategory(month), Ledger.ByUser(members, expenses))
  }

  /** The handler after `ensureMember`, running the category loop and the balance fold as the source does. */
  method Dashboard(members: seq<UserId>, expenses: seq<Expense>, tasks: seq<Task>, now: Moment) returns (reply: Reply)
    requires 0 <= now.month < 12
    ensures reply == DashboardReply(members, expenses, tasks, now)
  {
    var month := MonthExpenses(expenses, now);
    var names, catMap := CategoryTotals(month);
    var balance := Ledger.ComputeBalances(Ledger.SkipEmptySplit, members, expenses);
    var byUser := SortDesc(Ledger.Totals(members, balance), Ledger.Net);
    reply := Reply(Summary(|members|, Round2(MonthTotal(month)), PendingTasksCount(tasks)),
                   Recent(expenses), SortDesc(Rows(names, catMap), RowTotal), byUser);
  }

  /**
   * `byUser` has one row per member, sorted by descending net, and with
   * every expense among distinct members its nets add up to zero within
   * half a cent per member.
   */
  lemma ByUserCorrect(members: seq<UserId>, expenses: seq<Expense>)
    requires Distinct(members)
    requires Ledger.Covered(Ledger.SkipEmptySplit, members, expenses, members)
    ensures var chart := Ledger.ByUser(members, expenses);
      && |chart| == |members|
      && SortedDesc(chart, Ledger.Net)
      && DistinctBy(chart, Ledger.Member)
      && -0.005 * |members| as real <= Total(chart, Ledger.Net) <= 0.005 * |members| as real
  {
    var rows := Ledger.Totals(members, Ledger.Balances(Ledger.SkipEmptySplit, members, expenses));
    Ledger.SortedRows(Ledger.SkipEmptySplit, members, expenses);
    Ledger.NetsNearlyBalance(Ledger.SkipEmptySplit, members, expenses);
    SortDescKeeps(rows, Ledger.Net, Ledger.Member);
  }
}
