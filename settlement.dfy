/**
 * The greedy settlement planner: a debtor list and a creditor list, a cursor
 * into each, and at every iteration a transfer of the smaller of the two
 * remaining amounts.  Two copies of the loop exist and differ in the threshold
 * under which a party counts as settled and in whether every iteration emits a
 * transfer; `Variant` selects between them.
 */
module Settlement {
  import opened Money
  import opened Domain

  /** A debtor or creditor and the amount it still has to pay or receive. */
  datatype Party = Party(user: UserId, remaining: real)

  /** A suggested payment `from` → `to`. */
  datatype Transfer = Transfer(from: UserId, to: UserId, amount: real)

  /**
   * FlatRoute: the planner of the flat router (the one served), threshold
   * 0.001, a transfer on every iteration.  BalanceRoute: the balance router's
   * copy, threshold 0.009, a transfer only when the amount exceeds it.
   */
  datatype Variant = FlatRoute | BalanceRoute

  const FLAT_EPSILON: real := 0.001
  const BALANCE_EPSILON: real := 0.009

  function Epsilon(v: Variant): (e: real)
    ensures 0.0 < e < 0.01
  {
    if v.FlatRoute? then FLAT_EPSILON else BALANCE_EPSILON
  }

  /** Whether an iteration moving `amount` pushes a transfer. */
  predicate Emits(v: Variant, amount: real) {
    v.FlatRoute? || amount > BALANCE_EPSILON
  }

  function Remainings(ps: seq<Party>): (r: seq<real>)
    ensures |r| == |ps| && forall k :: 0 <= k < |ps| ==> r[k] == ps[k].remaining
  {
    if ps == [] then [] else [ps[0].remaining] + Remainings(ps[1..])
  }

  function Users(ps: seq<Party>): (r: seq<UserId>)
    ensures |r| == |ps| && forall k :: 0 <= k < |ps| ==> r[k] == ps[k].user
  {
    if ps == [] then [] else [ps[0].user] + Users(ps[1..])
  }

  /** The loop's variables: what each debtor still owes, what each creditor is still owed, the cursors. */
  datatype State = State(owe: seq<real>, owed: seq<real>, i: nat, j: nat)

  predicate InRange(st: State) {
    st.i <= |st.owe| && st.j <= |st.owed|
  }

  /** The loop condition `i < debtors.length && j < creditors.length`. */
  predicate Running(st: State) {
    st.i < |st.owe| && st.j < |st.owed|
  }

  function Start(debtors: seq<Party>, creditors: seq<Party>): State {
    State(Remainings(debtors), Remainings(creditors), 0, 0)
  }

  /** The amount moved by the iteration at `st`: the smaller of the two remainders. */
  function StepAmount(st: State): real
    requires Running(st)
  {
    Min(st.owe[st.i], st.owed[st.j])
  }

  /**
   * One iteration: both remainders drop by the step amount and each cursor
   * moves on once its party's remainder is at most the threshold.  At least
   * one remainder reaches zero, so at least one cursor moves.
   */
  function Next(v: Variant, st: State): (n: State)
    requires Running(st)
    ensures InRange(n) && |n.owe| == |st.owe| && |n.owed| == |st.owed|
    ensures n.i + n.j > st.i + st.j
    ensures st.i <= n.i <= st.i + 1 && st.j <= n.j <= st.j + 1
  {
    var a := StepAmount(st);
    var owe := st.owe[st.i := st.owe[st.i] - a];
    var owed := st.owed[st.j := st.owed[st.j] - a];
    State(owe, owed,
          if owe[st.i] <= Epsilon(v) then st.i + 1 else st.i,
          if owed[st.j] <= Epsilon(v) then st.j + 1 else st.j)
  }

  /** What one iteration did: which debtor paid which creditor, and how much. */
  datatype Step = Step(debtor: nat, creditor: nat, amount: real)

  function Measure(st: State): nat
    requires InRange(st)
  {
    |st.owe| - st.i + |st.owed| - st.j
  }

  /** The iterations from `st` until a cursor runs off the end of its list. */
  function Steps(v: Variant, st: State): (r: seq<Step>)
    requires InRange(st)
    ensures forall n :: 0 <= n < |r| ==> r[n].debtor < |st.owe| && r[n].creditor < |st.owed|
    decreases Measure(st)
  {
    if !Running(st) then []
    else [Step(st.i, st.j, StepAmount(st))] + Steps(v, Next(v, st))
  }

  /** The loop's variables after its last iteration. */
  function Final(v: Variant, st: State): (r: State)
    requires InRange(st)
    ensures InRange(r) && !Running(r) && |r.owe| == |st.owe| && |r.owed| == |st.owed|
    ensures r.i >= st.i && r.j >= st.j
    decreases Measure(st)
  {
    if !Running(st) then st else Final(v, Next(v, st))
  }

  /** The transfers pushed for a list of iterations, amounts shown to the cent. */
  function Emit(v: Variant, debtors: seq<Party>, creditors: seq<Party>, steps: seq<Step>): seq<Transfer>
    requires forall n :: 0 <= n < |steps| ==> steps[n].debtor < |debtors| && steps[n].creditor < |creditors|
  {
    if steps == [] then []
    else
      var s := steps[0];
      (if Emits(v, s.amount)
       then [Transfer(debtors[s.debtor].user, creditors[s.creditor].user, Round2(s.amount))]
       else [])
      + Emit(v, debtors, creditors, steps[1..])
  }

  /**
   * Every pushed transfer goes from a debtor to a creditor; the balance
   * router's copy pushes only amounts that show as at least one cent; the flat
   * router's copy pushes one transfer per iteration.
   */
  lemma {:induction false} EmitShape(v: Variant, debtors: seq<Party>, creditors: seq<Party>, steps: seq<Step>)
    requires forall n :: 0 <= n < |steps| ==> steps[n].debtor < |debtors| && steps[n].creditor < |creditors|
    ensures |Emit(v, debtors, creditors, steps)| <= |steps|
    ensures v.FlatRoute? ==> |Emit(v, debtors, creditors, steps)| == |steps|
    ensures forall t :: t in Emit(v, debtors, creditors, steps) ==>
              t.from in Users(debtors) && t.to in Users(creditors)
    ensures v.BalanceRoute? ==> forall t :: t in Emit(v, debtors, creditors, steps) ==> t.amount >= 0.01
  {
    if steps != [] {
      var s := steps[0];
      EmitShape(v, debtors, creditors, steps[1..]);
      if Emits(v, s.amount) { ShownAtLeastOneCent(v, s.amount); }
      assert Users(debtors)[s.debtor] == debtors[s.debtor].user;
      assert Users(creditors)[s.creditor] == creditors[s.creditor].user;
    }
  }

  /** An amount above the balance router's threshold shows as at least 0.01. */
  lemma ShownAtLeastOneCent(v: Variant, amount: real)
    requires Emits(v, amount)
    ensures v.BalanceRoute? ==> Round2(amount) >= 0.01
  {
    if v.BalanceRoute? {
      CentsPositive(Round2(amount));
    }
  }

  /** The transfer (if any) that the iteration at `st` pushes. */
  function Pushed(v: Variant, debtors: seq<Party>, creditors: seq<Party>, st: State): seq<Transfer>
    requires Running(st) && |st.owe| == |debtors| && |st.owed| == |creditors|
  {
    if Emits(v, StepAmount(st))
    then [Transfer(debtors[st.i].user, creditors[st.j].user, Round2(StepAmount(st)))]
    else []
  }

  /** The loop invariant: what is pushed so far followed by what the rest of the run pushes is the plan. */
  ghost predicate Progress(v: Variant, debtors: seq<Party>, creditors: seq<Party>, st: State, done: seq<Transfer>) {
    && InRange(st) && |st.owe| == |debtors| && |st.owed| == |creditors|
    && done + Emit(v, debtors, creditors, Steps(v, st)) == Plan(v, debtors, creditors)
  }

  /** One iteration of the loop keeps `Progress`. */
  lemma ProgressStep(v: Variant, debtors: seq<Party>, creditors: seq<Party>, st: State, done: seq<Transfer>)
    requires Progress(v, debtors, creditors, st, done) && Running(st)
    ensures Progress(v, debtors, creditors, Next(v, st), done + Pushed(v, debtors, creditors, st))
  {
    var steps := Steps(v, st);
    assert steps[0] == Step(st.i, st.j, StepAmount(st));
    assert steps[1..] == Steps(v, Next(v, st));
    var rest := Emit(v, debtors, creditors, Steps(v, Next(v, st)));
    assert Emit(v, debtors, creditors, steps) == Pushed(v, debtors, creditors, st) + rest;
    assert done + (Pushed(v, debtors, creditors, st) + rest) == (done + Pushed(v, debtors, creditors, st)) + rest;
  }

  /** The settlement list the handler returns for the given debtors and creditors. */
  function Plan(v: Variant, debtors: seq<Party>, creditors: seq<Party>): seq<Transfer> {
    Emit(v, debtors, creditors, Steps(v, Start(debtors, creditors)))
  }

  /**
   * The body of the `while` loop: move `min(remaining)` from debtor `i` to
   * creditor `j`, push a transfer when this copy of the loop does, and move
   * each cursor whose party is settled.
   */
  method Iterate(v: Variant, debtors: seq<Party>, creditors: seq<Party>,
                 owe: seq<real>, owed: seq<real>, i: nat, j: nat, settlements: seq<Transfer>)
    returns (owe': seq<real>, owed': seq<real>, i': nat, j': nat, settlements': seq<Transfer>)
    requires Running(State(owe, owed, i, j)) && |owe| == |debtors| && |owed| == |creditors|
    ensures State(owe', owed', i', j') == Next(v, State(owe, owed, i, j))
    ensures settlements' == settlements + Pushed(v, debtors, creditors, State(owe, owed, i, j))
  {
    var amount := Min(owe[i], owed[j]);
    settlements' := settlements;
    if v.FlatRoute? || amount > BALANCE_EPSILON {
      settlements' := settlements' + [Transfer(debtors[i].user, creditors[j].user, Round2(amount))];
    }
    owe' := owe[i := owe[i] - amount];
    owed' := owed[j := owed[j] - amount];
    i', j' := i, j;
    if owe'[i] <= Epsilon(v) { i' := i' + 1; }
    if owed'[j] <= Epsilon(v) { j' := j' + 1; }
  }

  /**
   * The `while` loop of either router.  `owe` and `owed` hold the parties'
   * `remaining` fields, which the handler mutates in place.
   */
  method Settle(v: Variant, debtors: seq<Party>, creditors: seq<Party>) returns (settlements: seq<Transfer>)
    ensures settlements == Plan(v, debtors, creditors)
  {
    var owe := Remainings(debtors);
    var owed := Remainings(creditors);
    var i: nat, j: nat := 0, 0;
    settlements := [];
    while i < |owe| && j < |owed|
      invariant Progress(v, debtors, creditors, State(owe, owed, i, j), settlements)
      decreases |owe| - i + |owed| - j
    {
      ProgressStep(v, debtors, creditors, State(owe, owed, i, j), settlements);
      owe, owed, i, j, settlements := Iterate(v, debtors, creditors, owe, owed, i, j, settlements);
    }
  }

  // ---------------------------------------------------------------------
  // Properties of the loop
  // ---------------------------------------------------------------------

  /**
   * The loop runs at most |debtors| + |creditors| - 1 times: every iteration
   * moves at least one cursor and the last one ends with both in range only
   * if one of them moved off.
   */
  lemma {:induction false} StepsBound(v: Variant, st: State)
    requires InRange(st)
    ensures Running(st) ==> |Steps(v, st)| <= Measure(st) - 1
    ensures !Running(st) ==> Steps(v, st) == []
    decreases Measure(st)
  {
    if Running(st) {
      StepsBound(v, Next(v, st));
    }
  }

  /** Number of settlements: none when either list is empty, else at most |debtors| + |creditors| - 1. */
  lemma PlanBound(v: Variant, debtors: seq<Party>, creditors: seq<Party>)
    ensures |debtors| == 0 || |creditors| == 0 ==> Plan(v, debtors, creditors) == []
    ensures |Plan(v, debtors, creditors)| <= if |debtors| == 0 || |creditors| == 0 then 0 else |debtors| + |creditors| - 1
    ensures v.FlatRoute? ==> |Plan(v, debtors, creditors)| == |Steps(v, Start(debtors, creditors))|
    ensures forall t :: t in Plan(v, debtors, creditors) ==> t.from in Users(debtors) && t.to in Users(creditors)
    ensures v.BalanceRoute? ==> forall t :: t in Plan(v, debtors, creditors) ==> t.amount >= 0.01
  {
    var st := Start(debtors, creditors);
    StepsBound(v, st);
    EmitShape(v, debtors, creditors, Steps(v, st));
  }

  /** Total paid so far by debtor `k`. */
  function Paid(steps: seq<Step>, k: nat): real {
    if steps == [] then 0.0
    else (if steps[0].debtor == k then steps[0].amount else 0.0) + Paid(steps[1..], k)
  }

  /** Total received so far by creditor `k`. */
  function Received(steps: seq<Step>, k: nat): real {
    if steps == [] then 0.0
    else (if steps[0].creditor == k then steps[0].amount else 0.0) + Received(steps[1..], k)
  }

  /** Every iteration moves the smaller of what its debtor and its creditor still have. */
  lemma {:induction false} StepMovesSmallerRemainder(v: Variant, st: State, n: nat)
    requires InRange(st) && n < |Steps(v, st)|
    ensures var s := Steps(v, st)[n];
      s.amount == Min(st.owe[s.debtor] - Paid(Steps(v, st)[..n], s.debtor),
                      st.owed[s.creditor] - Received(Steps(v, st)[..n], s.creditor))
    decreases Measure(st)
  {
    var steps := Steps(v, st);
    var s := steps[n];
    if n == 0 {
      assert s == Step(st.i, st.j, StepAmount(st));
      assert steps[..n] == [];
    } else {
      var nx := Next(v, st);
      var rest := Steps(v, nx);
      assert steps[1..] == rest;
      StepMovesSmallerRemainder(v, nx, n - 1);
      assert s == rest[n - 1];
      PaidShift(v, st, n, s.debtor);
      ReceivedShift(v, st, n, s.creditor);
    }
  }

  /** What a debtor has left before iteration `n` is the same counted from the start or from the next state. */
  lemma PaidShift(v: Variant, st: State, n: nat, d: nat)
    requires Running(st) && 0 < n <= |Steps(v, st)| && d < |st.owe|
    ensures st.owe[d] - Paid(Steps(v, st)[..n], d) == Next(v, st).owe[d] - Paid(Steps(v, Next(v, st))[..n - 1], d)
  {
    var steps := Steps(v, st);
    assert steps[..n][0] == steps[0];
    assert steps[..n][1..] == Steps(v, Next(v, st))[..n - 1];
  }

  lemma ReceivedShift(v: Variant, st: State, n: nat, c: nat)
    requires Running(st) && 0 < n <= |Steps(v, st)| && c < |st.owed|
    ensures st.owed[c] - Received(Steps(v, st)[..n], c) == Next(v, st).owed[c] - Received(Steps(v, Next(v, st))[..n - 1], c)
  {
    var steps := Steps(v, st);
    assert steps[..n][0] == steps[0];
    assert steps[..n][1..] == Steps(v, Next(v, st))[..n - 1];
  }

  /** What each party still has at the end plus what it paid or received is what it started with. */
  lemma {:induction false} StepsConserve(v: Variant, st: State)
    requires InRange(st)
    ensures forall k :: 0 <= k < |st.owe| ==> Final(v, st).owe[k] + Paid(Steps(v, st), k) == st.owe[k]
    ensures forall k :: 0 <= k < |st.owed| ==> Final(v, st).owed[k] + Received(Steps(v, st), k) == st.owed[k]
    decreases Measure(st)
  {
    if Running(st) {
      var nx := Next(v, st);
      StepsConserve(v, nx);
      var steps := Steps(v, st);
      assert steps[0] == Step(st.i, st.j, StepAmount(st));
      assert steps[1..] == Steps(v, nx);
    }
  }

  /** Remainders at and after the cursors are positive. */
  predicate AheadPositive(st: State) {
    && (forall k :: st.i <= k < |st.owe| ==> st.owe[k] > 0.0)
    && (forall k :: st.j <= k < |st.owed| ==> st.owed[k] > 0.0)
  }

  /** Remainders behind the cursors are zero. */
  predicate BehindZero(st: State) {
    && (forall k :: 0 <= k < st.i && k < |st.owe| ==> st.owe[k] == 0.0)
    && (forall k :: 0 <= k < st.j && k < |st.owed| ==> st.owed[k] == 0.0)
  }

  predicate AllCents(st: State) {
    && (forall k :: 0 <= k < |st.owe| ==> OnCents(st.owe[k]))
    && (forall k :: 0 <= k < |st.owed| ==> OnCents(st.owed[k]))
  }

  /** With positive parties every iteration moves a positive amount, and positivity ahead is kept. */
  lemma NextPositive(v: Variant, st: State)
    requires Running(st) && AheadPositive(st)
    ensures StepAmount(st) > 0.0 && AheadPositive(Next(v, st))
  {
  }

  /** Every iteration of a run over positive parties moves a positive amount. */
  lemma {:induction false} StepsPositive(v: Variant, st: State)
    requires InRange(st) && AheadPositive(st)
    ensures forall n :: 0 <= n < |Steps(v, st)| ==> Steps(v, st)[n].amount > 0.0
    decreases Measure(st)
  {
    if Running(st) {
      NextPositive(v, st);
      StepsPositive(v, Next(v, st));
      assert Steps(v, st)[1..] == Steps(v, Next(v, st));
    }
  }

  /**
   * On whole cents an iteration moves a whole number of cents (at least one),
   * leaves whole cents, zeroes what the cursors pass and lowers both totals
   * by the same amount.
   */
  lemma NextCents(v: Variant, st: State)
    requires Running(st) && AheadPositive(st) && AllCents(st) && BehindZero(st)
    ensures OnCents(StepAmount(st)) && StepAmount(st) >= 0.01
    ensures AllCents(Next(v, st)) && BehindZero(Next(v, st)) && AheadPositive(Next(v, st))
    ensures Sum(Next(v, st).owe) == Sum(st.owe) - StepAmount(st)
    ensures Sum(Next(v, st).owed) == Sum(st.owed) - StepAmount(st)
  {
    NextPositive(v, st);
    StepOnCents(st);
    NextOnCents(v, st);
    NextBehindZero(v, st);
    NextSums(v, st);
  }

  lemma StepOnCents(st: State)
    requires Running(st) && AheadPositive(st) && AllCents(st)
    ensures OnCents(StepAmount(st)) && StepAmount(st) >= 0.01
  {
    var a := StepAmount(st);
    assert OnCents(st.owe[st.i]) && OnCents(st.owed[st.j]);
    assert st.owe[st.i] > 0.0 && st.owed[st.j] > 0.0;
    CentsPositive(a);
  }

  lemma NextOnCents(v: Variant, st: State)
    requires Running(st) && AllCents(st) && OnCents(StepAmount(st))
    ensures AllCents(Next(v, st))
  {
    var a := StepAmount(st);
    CentsSub(st.owe[st.i], a);
    CentsSub(st.owed[st.j], a);
  }

  lemma NextBehindZero(v: Variant, st: State)
    requires Running(st) && AllCents(Next(v, st)) && BehindZero(st) && AheadPositive(Next(v, st))
    ensures BehindZero(Next(v, st))
  {
    var nx := Next(v, st);
    if nx.i > st.i {
      assert 0.0 <= nx.owe[st.i] <= Epsilon(v) < 0.01;
      CentsBelowOneCent(nx.owe[st.i]);
    }
    if nx.j > st.j {
      assert 0.0 <= nx.owed[st.j] <= Epsilon(v) < 0.01;
      CentsBelowOneCent(nx.owed[st.j]);
    }
  }

  lemma NextSums(v: Variant, st: State)
    requires Running(st)
    ensures Sum(Next(v, st).owe) == Sum(st.owe) - StepAmount(st)
    ensures Sum(Next(v, st).owed) == Sum(st.owed) - StepAmount(st)
  {
    var a := StepAmount(st);
    SumUpdate(st.owe, st.i, st.owe[st.i] - a);
    SumUpdate(st.owed, st.j, st.owed[st.j] - a);
  }

  /** Zeros up to `j` and positive terms from `j` on: the sum is positive as soon as there is a term at `j`. */
  lemma PositiveAheadSum(s: seq<real>, j: nat)
    requires forall k :: 0 <= k < j && k < |s| ==> s[k] == 0.0
    requires forall k :: j <= k < |s| ==> s[k] > 0.0
    ensures j < |s| ==> Sum(s) > 0.0
  {
    SumNonNegative(s);
    if j < |s| {
      assert s[j] > 0.0;
    }
  }

  /**
   * Balanced whole-cent inputs settle exactly: both cursors reach the end,
   * every remainder ends at zero and every iteration moves at least one cent.
   */
  lemma {:induction false} SettlesExactly(v: Variant, st: State)
    requires InRange(st) && AheadPositive(st) && AllCents(st) && BehindZero(st)
    requires Sum(st.owe) == Sum(st.owed)
    ensures Final(v, st).i == |st.owe| && Final(v, st).j == |st.owed|
    ensures forall k :: 0 <= k < |st.owe| ==> Final(v, st).owe[k] == 0.0
    ensures forall k :: 0 <= k < |st.owed| ==> Final(v, st).owed[k] == 0.0
    ensures forall n :: 0 <= n < |Steps(v, st)| ==>
              OnCents(Steps(v, st)[n].amount) && Steps(v, st)[n].amount >= 0.01
    decreases Measure(st)
  {
    if Running(st) {
      NextCents(v, st);
      SettlesExactly(v, Next(v, st));
      assert Steps(v, st)[1..] == Steps(v, Next(v, st));
    } else if st.i == |st.owe| {
      SumZeros(st.owe);
      PositiveAheadSum(st.owed, st.j);
    } else {
      SumZeros(st.owed);
      PositiveAheadSum(st.owe, st.i);
      assert false;
    }
  }

  /**
   * Whole-cent inputs that need not balance: every remainder ends at zero
   * or above, one of the two sides ends fully settled, and what is left over
   * is exactly the imbalance the two sides started with.
   */
  lemma {:induction false} SettlesUpToImbalance(v: Variant, st: State)
    requires InRange(st) && AheadPositive(st) && AllCents(st) && BehindZero(st)
    ensures var f := Final(v, st);
      && (forall k :: 0 <= k < |st.owe| ==> f.owe[k] >= 0.0)
      && (forall k :: 0 <= k < |st.owed| ==> f.owed[k] >= 0.0)
      && ((forall k :: 0 <= k < |st.owe| ==> f.owe[k] == 0.0) || (forall k :: 0 <= k < |st.owed| ==> f.owed[k] == 0.0))
      && Sum(f.owe) - Sum(f.owed) == Sum(st.owe) - Sum(st.owed)
    ensures forall n :: 0 <= n < |Steps(v, st)| ==>
              OnCents(Steps(v, st)[n].amount) && Steps(v, st)[n].amount >= 0.01
    decreases Measure(st)
  {
    if Running(st) {
      NextCents(v, st);
      SettlesUpToImbalance(v, Next(v, st));
      assert Steps(v, st)[1..] == Steps(v, Next(v, st));
    }
  }

  /** The total `u` pays over a list of transfers. */
  function PaidBy(ts: seq<Transfer>, u: UserId): real {
    if ts == [] then 0.0 else (if ts[0].from == u then ts[0].amount else 0.0) + PaidBy(ts[1..], u)
  }

  /** The total `u` receives over a list of transfers. */
  function ReceivedBy(ts: seq<Transfer>, u: UserId): real {
    if ts == [] then 0.0 else (if ts[0].to == u then ts[0].amount else 0.0) + ReceivedBy(ts[1..], u)
  }

  /**
   * When every iteration moves a whole, positive number of cents, every
   * iteration is pushed unrounded, so what a party pays or receives over the
   * transfers is what it paid or received over the iterations.
   */
  lemma {:induction false} EmitTotals(v: Variant, debtors: seq<Party>, creditors: seq<Party>, steps: seq<Step>, k: nat, l: nat)
    requires forall n :: 0 <= n < |steps| ==> steps[n].debtor < |debtors| && steps[n].creditor < |creditors|
    requires forall n :: 0 <= n < |steps| ==> OnCents(steps[n].amount) && steps[n].amount >= 0.01
    requires Distinct(Users(debtors)) && Distinct(Users(creditors))
    requires k < |debtors| && l < |creditors|
    ensures PaidBy(Emit(v, debtors, creditors, steps), debtors[k].user) == Paid(steps, k)
    ensures ReceivedBy(Emit(v, debtors, creditors, steps), creditors[l].user) == Received(steps, l)
  {
    if steps != [] {
      var s := steps[0];
      EmitTotals(v, debtors, creditors, steps[1..], k, l);
      RoundOnCents(s.amount);
      assert Users(debtors)[s.debtor] == debtors[s.debtor].user && Users(debtors)[k] == debtors[k].user;
      assert Users(creditors)[s.creditor] == creditors[s.creditor].user && Users(creditors)[l] == creditors[l].user;
      var t := Transfer(debtors[s.debtor].user, creditors[s.creditor].user, s.amount);
      var rest := Emit(v, debtors, creditors, steps[1..]);
      assert Emit(v, debtors, creditors, steps) == [t] + rest;
      assert ([t] + rest)[1..] == rest;
    }
  }

  /**
   * Settlement correctness: when the debtors' and creditors' amounts are
   * positive whole cents, balance each other, and name distinct users, the
   * returned transfers make every debtor pay exactly what it owes and every
   * creditor receive exactly what it is owed, in either copy of the loop.
   */
  lemma PlanSettlesEveryParty(v: Variant, debtors: seq<Party>, creditors: seq<Party>)
    requires Distinct(Users(debtors)) && Distinct(Users(creditors))
    requires forall k :: 0 <= k < |debtors| ==> debtors[k].remaining > 0.0 && OnCents(debtors[k].remaining)
    requires forall k :: 0 <= k < |creditors| ==> creditors[k].remaining > 0.0 && OnCents(creditors[k].remaining)
    requires Sum(Remainings(debtors)) == Sum(Remainings(creditors))
    ensures forall k :: 0 <= k < |debtors| ==> PaidBy(Plan(v, debtors, creditors), debtors[k].user) == debtors[k].remaining
    ensures forall l :: 0 <= l < |creditors| ==> ReceivedBy(Plan(v, debtors, creditors), creditors[l].user) == creditors[l].remaining
  {
    if |debtors| > 0 && |creditors| > 0 {
      var st := Start(debtors, creditors);
      SettlesExactly(v, st);
      StepsConserve(v, st);
      PlanPays(v, debtors, creditors, Steps(v, st));
    } else {
      OneSideEmpty(debtors, creditors);
    }
  }

  lemma PlanPays(v: Variant, debtors: seq<Party>, creditors: seq<Party>, steps: seq<Step>)
    requires Distinct(Users(debtors)) && Distinct(Users(creditors))
    requires |debtors| > 0 && |creditors| > 0
    requires steps == Steps(v, Start(debtors, creditors))
    requires forall n :: 0 <= n < |steps| ==> OnCents(steps[n].amount) && steps[n].amount >= 0.01
    requires forall k :: 0 <= k < |debtors| ==> Paid(steps, k) == debtors[k].remaining
    requires forall l :: 0 <= l < |creditors| ==> Received(steps, l) == creditors[l].remaining
    ensures forall k :: 0 <= k < |debtors| ==> PaidBy(Plan(v, debtors, creditors), debtors[k].user) == debtors[k].remaining
    ensures forall l :: 0 <= l < |creditors| ==> ReceivedBy(Plan(v, debtors, creditors), creditors[l].user) == creditors[l].remaining
  {
    forall k | 0 <= k < |debtors|
      ensures PaidBy(Plan(v, debtors, creditors), debtors[k].user) == debtors[k].remaining
    {
      EmitTotals(v, debtors, creditors, steps, k, 0);
    }
    forall l | 0 <= l < |creditors|
      ensures ReceivedBy(Plan(v, debtors, creditors), creditors[l].user) == creditors[l].remaining
    {
      EmitTotals(v, debtors, creditors, steps, 0, l);
    }
  }

  /** Balanced sums of positive remainders: one side empty means both are. */
  lemma OneSideEmpty(debtors: seq<Party>, creditors: seq<Party>)
    requires forall k :: 0 <= k < |debtors| ==> debtors[k].remaining > 0.0
    requires forall k :: 0 <= k < |creditors| ==> creditors[k].remaining > 0.0
    requires Sum(Remainings(debtors)) == Sum(Remainings(creditors))
    requires |debtors| == 0 || |creditors| == 0
    ensures |debtors| == 0 && |creditors| == 0
  {
    PositiveAheadSum(Remainings(debtors), 0);
    PositiveAheadSum(Remainings(creditors), 0);
  }

  /** A user named in no transfer as payer pays nothing, and likewise for receiving. */
  lemma {:induction false} Uninvolved(ts: seq<Transfer>, u: UserId)
    ensures (forall t :: t in ts ==> t.from != u) ==> PaidBy(ts, u) == 0.0
    ensures (forall t :: t in ts ==> t.to != u) ==> ReceivedBy(ts, u) == 0.0
  {
    if ts != [] {
      Uninvolved(ts[1..], u);
      assert forall t :: t in ts[1..] ==> t in ts;
    }
  }

  /**
   * Settlement within the imbalance: when the parties are positive whole
   * cents and name distinct users, but the two sides need not balance, no
   * debtor pays more than it owes and no creditor receives more than it is
   * owed; each falls short by at most the gap between the two sides'
   * totals, and on one of the two sides every party is squared exactly.
   */
  lemma PlanLeavesAtMostTheGap(v: Variant, debtors: seq<Party>, creditors: seq<Party>)
    requires Distinct(Users(debtors)) && Distinct(Users(creditors))
    requires forall k :: 0 <= k < |debtors| ==> debtors[k].remaining > 0.0 && OnCents(debtors[k].remaining)
    requires forall k :: 0 <= k < |creditors| ==> creditors[k].remaining > 0.0 && OnCents(creditors[k].remaining)
    ensures forall k :: 0 <= k < |debtors| ==>
      0.0 <= debtors[k].remaining - PaidBy(Plan(v, debtors, creditors), debtors[k].user)
          <= Abs(Sum(Remainings(debtors)) - Sum(Remainings(creditors)))
    ensures forall l :: 0 <= l < |creditors| ==>
      0.0 <= creditors[l].remaining - ReceivedBy(Plan(v, debtors, creditors), creditors[l].user)
          <= Abs(Sum(Remainings(debtors)) - Sum(Remainings(creditors)))
    ensures || (forall k :: 0 <= k < |debtors| ==> PaidBy(Plan(v, debtors, creditors), debtors[k].user) == debtors[k].remaining)
            || (forall l :: 0 <= l < |creditors| ==> ReceivedBy(Plan(v, debtors, creditors), creditors[l].user) == creditors[l].remaining)
  {
    PlanBounds(v, debtors, creditors, Plan(v, debtors, creditors), Abs(Sum(Remainings(debtors)) - Sum(Remainings(creditors))));
  }

  /** The same bounds, with the plan and the gap named so that the solver does not unfold them. */
  lemma PlanBounds(v: Variant, debtors: seq<Party>, creditors: seq<Party>, ts: seq<Transfer>, gap: real)
    requires Distinct(Users(debtors)) && Distinct(Users(creditors))
    requires forall k :: 0 <= k < |debtors| ==> debtors[k].remaining > 0.0 && OnCents(debtors[k].remaining)
    requires forall k :: 0 <= k < |creditors| ==> creditors[k].remaining > 0.0 && OnCents(creditors[k].remaining)
    requires ts == Plan(v, debtors, creditors)
    requires gap == Abs(Sum(Remainings(debtors)) - Sum(Remainings(creditors)))
    ensures forall k :: 0 <= k < |debtors| ==> 0.0 <= debtors[k].remaining - PaidBy(ts, debtors[k].user) <= gap
    ensures forall l :: 0 <= l < |creditors| ==> 0.0 <= creditors[l].remaining - ReceivedBy(ts, creditors[l].user) <= gap
    ensures || (forall k :: 0 <= k < |debtors| ==> PaidBy(ts, debtors[k].user) == debtors[k].remaining)
            || (forall l :: 0 <= l < |creditors| ==> ReceivedBy(ts, creditors[l].user) == creditors[l].remaining)
  {
    var steps := Steps(v, Start(debtors, creditors));
    PlanShortfall(v, debtors, creditors, steps, gap);
    PlanPaysSteps(v, debtors, creditors, ts, steps);
    ShortfallOfTransfers(debtors, creditors, ts, steps, gap);
  }

  /** Bounds on what the parties paid and received over the iterations carry over to the transfers. */
  lemma ShortfallOfTransfers(debtors: seq<Party>, creditors: seq<Party>, ts: seq<Transfer>, steps: seq<Step>, gap: real)
    requires forall k :: 0 <= k < |debtors| ==> PaidBy(ts, debtors[k].user) == Paid(steps, k)
    requires forall l :: 0 <= l < |creditors| ==> ReceivedBy(ts, creditors[l].user) == Received(steps, l)
    requires forall k :: 0 <= k < |debtors| ==> 0.0 <= debtors[k].remaining - Paid(steps, k) <= gap
    requires forall l :: 0 <= l < |creditors| ==> 0.0 <= creditors[l].remaining - Received(steps, l) <= gap
    requires || (forall k :: 0 <= k < |debtors| ==> Paid(steps, k) == debtors[k].remaining)
             || (forall l :: 0 <= l < |creditors| ==> Received(steps, l) == creditors[l].remaining)
    ensures forall k :: 0 <= k < |debtors| ==> 0.0 <= debtors[k].remaining - PaidBy(ts, debtors[k].user) <= gap
    ensures forall l :: 0 <= l < |creditors| ==> 0.0 <= creditors[l].remaining - ReceivedBy(ts, creditors[l].user) <= gap
    ensures || (forall k :: 0 <= k < |debtors| ==> PaidBy(ts, debtors[k].user) == debtors[k].remaining)
            || (forall l :: 0 <= l < |creditors| ==> ReceivedBy(ts, creditors[l].user) == creditors[l].remaining)
  {
  }

  /** The same bounds over the iterations: what each party paid or received there. */
  lemma PlanShortfall(v: Variant, debtors: seq<Party>, creditors: seq<Party>, steps: seq<Step>, gap: real)
    requires forall k :: 0 <= k < |debtors| ==> debtors[k].remaining > 0.0 && OnCents(debtors[k].remaining)
    requires forall k :: 0 <= k < |creditors| ==> creditors[k].remaining > 0.0 && OnCents(creditors[k].remaining)
    requires steps == Steps(v, Start(debtors, creditors))
    requires gap == Abs(Sum(Remainings(debtors)) - Sum(Remainings(creditors)))
    ensures forall n :: 0 <= n < |steps| ==> OnCents(steps[n].amount) && steps[n].amount >= 0.01
    ensures forall k :: 0 <= k < |debtors| ==> 0.0 <= debtors[k].remaining - Paid(steps, k) <= gap
    ensures forall l :: 0 <= l < |creditors| ==> 0.0 <= creditors[l].remaining - Received(steps, l) <= gap
    ensures || (forall k :: 0 <= k < |debtors| ==> Paid(steps, k) == debtors[k].remaining)
            || (forall l :: 0 <= l < |creditors| ==> Received(steps, l) == creditors[l].remaining)
  {
    var st := Start(debtors, creditors);
    SettlesUpToImbalance(v, st);
    StepsConserve(v, st);
    ShortfallOfLeftover(debtors, creditors, Final(v, st).owe, Final(v, st).owed, steps, gap);
  }

  /** What the iterations leave over, bounded by the gap, read as what each party paid or received. */
  lemma ShortfallOfLeftover(debtors: seq<Party>, creditors: seq<Party>, owe: seq<real>, owed: seq<real>, steps: seq<Step>, gap: real)
    requires |owe| == |debtors| && |owed| == |creditors|
    requires forall k :: 0 <= k < |debtors| ==> owe[k] + Paid(steps, k) == debtors[k].remaining
    requires forall l :: 0 <= l < |creditors| ==> owed[l] + Received(steps, l) == creditors[l].remaining
    requires forall k :: 0 <= k < |owe| ==> owe[k] >= 0.0
    requires forall l :: 0 <= l < |owed| ==> owed[l] >= 0.0
    requires (forall k :: 0 <= k < |owe| ==> owe[k] == 0.0) || (forall l :: 0 <= l < |owed| ==> owed[l] == 0.0)
    requires Sum(owe) - Sum(owed) == Sum(Remainings(debtors)) - Sum(Remainings(creditors))
    requires gap == Abs(Sum(Remainings(debtors)) - Sum(Remainings(creditors)))
    ensures forall k :: 0 <= k < |debtors| ==> 0.0 <= debtors[k].remaining - Paid(steps, k) <= gap
    ensures forall l :: 0 <= l < |creditors| ==> 0.0 <= creditors[l].remaining - Received(steps, l) <= gap
    ensures || (forall k :: 0 <= k < |debtors| ==> Paid(steps, k) == debtors[k].remaining)
            || (forall l :: 0 <= l < |creditors| ==> Received(steps, l) == creditors[l].remaining)
  {
    LeftoverWithinGap(owe, owed, Sum(Remainings(debtors)) - Sum(Remainings(creditors)));
  }

  /**
   * Two non-negative lists, one all zero, whose sums differ by `d`: every
   * term is at most |d|.
   */
  lemma LeftoverWithinGap(owe: seq<real>, owed: seq<real>, d: real)
    requires forall k :: 0 <= k < |owe| ==> owe[k] >= 0.0
    requires forall k :: 0 <= k < |owed| ==> owed[k] >= 0.0
    requires (forall k :: 0 <= k < |owe| ==> owe[k] == 0.0) || (forall k :: 0 <= k < |owed| ==> owed[k] == 0.0)
    requires Sum(owe) - Sum(owed) == d
    ensures forall k :: 0 <= k < |owe| ==> owe[k] <= Abs(d)
    ensures forall k :: 0 <= k < |owed| ==> owed[k] <= Abs(d)
  {
    if forall k :: 0 <= k < |owe| ==> owe[k] == 0.0 {
      SumZeros(owe);
      forall k | 0 <= k < |owed| ensures owed[k] <= Abs(d) {
        TermAtMostSum(owed, k);
      }
    } else {
      SumZeros(owed);
      forall k | 0 <= k < |owe| ensures owe[k] <= Abs(d) {
        TermAtMostSum(owe, k);
      }
    }
  }

  /** What each party pays or receives over the plan is what it paid or received over the iterations. */
  lemma PlanPaysSteps(v: Variant, debtors: seq<Party>, creditors: seq<Party>, ts: seq<Transfer>, steps: seq<Step>)
    requires Distinct(Users(debtors)) && Distinct(Users(creditors))
    requires ts == Plan(v, debtors, creditors)
    requires steps == Steps(v, Start(debtors, creditors))
    requires forall n :: 0 <= n < |steps| ==> OnCents(steps[n].amount) && steps[n].amount >= 0.01
    ensures forall k :: 0 <= k < |debtors| ==> PaidBy(ts, debtors[k].user) == Paid(steps, k)
    ensures forall l :: 0 <= l < |creditors| ==> ReceivedBy(ts, creditors[l].user) == Received(steps, l)
  {
    if |debtors| == 0 || |creditors| == 0 {
      assert steps == [];
    } else {
      forall k | 0 <= k < |debtors|
        ensures PaidBy(Plan(v, debtors, creditors), debtors[k].user) == Paid(steps, k)
      {
        EmitTotals(v, debtors, creditors, steps, k, 0);
      }
      forall l | 0 <= l < |creditors|
        ensures ReceivedBy(Plan(v, debtors, creditors), creditors[l].user) == Received(steps, l)
      {
        EmitTotals(v, debtors, creditors, steps, 0, l);
      }
    }
  }


}
