/**
 * The balance calculator: a fold of a flat's expenses into a map from user id
 * to net amount (what the user fronted minus the shares the user owes).  The
 * copies in the flat router and the dashboard skip an expense with an empty
 * split; the balance router's copy charges such an expense to every member and
 * skips amounts that are zero or negative.
 */
module Ledger {
  import opened Money
  import opened Domain
  import opened Settlement
  import opened Sorting

  /** Which copy of the fold. */
  datatype Fold =
    | SkipEmptySplit      // flat.routes.js and dashboard.routes.js
    | EveryoneWhenEmpty   // balance.routes.js

  /** `balanceMap.get(u) || 0`: a user not in the map counts as 0. */
  function Get(m: map<UserId, real>, u: UserId): real {
    if u in m then m[u] else 0.0
  }

  /** `balanceMap.set(u, (balanceMap.get(u) || 0) + x)`. */
  function Credit(m: map<UserId, real>, u: UserId, x: real): (r: map<UserId, real>)
    ensures r.Keys == m.Keys + {u}
    ensures Get(r, u) == Get(m, u) + x
    ensures forall w :: w != u ==> Get(r, w) == Get(m, w)
  {
    m[u := Get(m, u) + x]
  }

  /** The users an expense is split between. */
  function Participants(f: Fold, members: seq<UserId>, e: Expense): seq<UserId> {
    if |e.splitBetween| > 0 then e.splitBetween
    else if f.EveryoneWhenEmpty? then members
    else []
  }

  /** Whether the fold books the expense at all. */
  predicate Counted(f: Fold, e: Expense) {
    match f
    case SkipEmptySplit => |e.splitBetween| > 0
    case EveryoneWhenEmpty => e.amount > 0.0
  }

  function Share(f: Fold, members: seq<UserId>, e: Expense): real {
    var n := |Participants(f, members, e)|;
    if n == 0 then 0.0 else e.amount / n as real
  }

  /** Debits `share` from each of `parts`, in order. */
  function DebitAll(m: map<UserId, real>, parts: seq<UserId>, share: real): map<UserId, real>
    decreases |parts|
  {
    if parts == [] then m
    else Credit(DebitAll(m, parts[..|parts| - 1], share), parts[|parts| - 1], -share)
  }

  /** One iteration of the expense loop. */
  function Book(f: Fold, members: seq<UserId>, m: map<UserId, real>, e: Expense): map<UserId, real> {
    if !Counted(f, e) then m
    else DebitAll(Credit(m, e.paidBy, e.amount), Participants(f, members, e), Share(f, members, e))
  }

  /** Every member starts at 0. */
  function Initial(members: seq<UserId>): map<UserId, real>
    decreases |members|
  {
    if members == [] then map[] else Initial(members[..|members| - 1])[members[|members| - 1] := 0.0]
  }

  /** The map after the loop over `expenses`. */
  function Balances(f: Fold, members: seq<UserId>, expenses: seq<Expense>): map<UserId, real>
    decreases |expenses|
  {
    if expenses == [] then Initial(members)
    else Book(f, members, Balances(f, members, expenses[..|expenses| - 1]), expenses[|expenses| - 1])
  }

  /**
   * The handler's loops: every member set to 0, then for each booked
   * expense the payer credited the amount and each participant debited
   * `amount / participants.length`.
   */
  method ComputeBalances(f: Fold, members: seq<UserId>, expenses: seq<Expense>) returns (balance: map<UserId, real>)
    ensures balance == Balances(f, members, expenses)
  {
    balance := map[];
    for k := 0 to |members|
      invariant balance == Initial(members[..k])
    {
      assert members[..k + 1][..k] == members[..k];
      balance := balance[members[k] := 0.0];
    }
    assert members[..|members|] == members;
    for n := 0 to |expenses|
      invariant balance == Balances(f, members, expenses[..n])
    {
      var e := expenses[n];
      assert expenses[..n + 1][..n] == expenses[..n];
      if Counted(f, e) {
        var parts := Participants(f, members, e);
        var share := Share(f, members, e);
        balance := balance[e.paidBy := Get(balance, e.paidBy) + e.amount];
        balance := DebitEach(balance, parts, share);
      }
    }
    assert expenses[..|expenses|] == expenses;
  }

  /** The inner loop: each participant in turn is debited `share`. */
  method DebitEach(balance: map<UserId, real>, parts: seq<UserId>, share: real) returns (result: map<UserId, real>)
    ensures result == DebitAll(balance, parts, share)
  {
    result := balance;
    for q := 0 to |parts|
      invariant result == DebitAll(balance, parts[..q], share)
    {
      assert parts[..q + 1][..q] == parts[..q];
      result := result[parts[q] := Get(result, parts[q]) - share];
    }
    assert parts[..|parts|] == parts;
  }

  // ---------------------------------------------------------------------
  // A closed form for each user's net
  // ---------------------------------------------------------------------

  function Count(s: seq<UserId>, u: UserId): nat {
    if s == [] then 0 else (if s[0] == u then 1 else 0) + Count(s[1..], u)
  }

  /** Total `u` fronted over the booked expenses. */
  function Fronted(f: Fold, expenses: seq<Expense>, u: UserId): real
    decreases |expenses|
  {
    if expenses == [] then 0.0
    else
      var e := expenses[|expenses| - 1];
      Fronted(f, expenses[..|expenses| - 1], u) + (if Counted(f, e) && e.paidBy == u then e.amount else 0.0)
  }

  /** Total of the shares `u` owes over the booked expenses. */
  function Owed(f: Fold, members: seq<UserId>, expenses: seq<Expense>, u: UserId): real
    decreases |expenses|
  {
    if expenses == [] then 0.0
    else
      var e := expenses[|expenses| - 1];
      Owed(f, members, expenses[..|expenses| - 1], u)
        + (if Counted(f, e) then Times(Count(Participants(f, members, e), u), Share(f, members, e)) else 0.0)
  }

  lemma {:induction false} CountSnoc(s: seq<UserId>, x: UserId, u: UserId)
    ensures Count(s + [x], u) == Count(s, u) + (if x == u then 1 else 0)
  {
    if s != [] {
      assert (s + [x])[1..] == s[1..] + [x];
      CountSnoc(s[1..], x, u);
    }
  }

  /** `n` copies of `x` added up; kept apart from `*` so the proofs stay linear. */
  function Times(n: nat, x: real): real {
    if n == 0 then 0.0 else Times(n - 1, x) + x
  }

  lemma {:induction false} TimesIsProduct(n: nat, x: real)
    ensures Times(n, x) == n as real * x
  {
    if n > 0 {
      TimesIsProduct(n - 1, x);
      assert (n - 1) as real * x + x == n as real * x;
    }
  }

  /** The shares of an expense add back up to its amount. */
  lemma SharesAddUp(n: nat, amount: real)
    requires n > 0
    ensures Times(n, amount / n as real) == amount
  {
    TimesIsProduct(n, amount / n as real);
  }

  lemma {:induction false} DebitAllAt(m: map<UserId, real>, parts: seq<UserId>, share: real, u: UserId)
    ensures Get(DebitAll(m, parts, share), u) == Get(m, u) - Times(Count(parts, u), share)
    decreases |parts|
  {
    if parts != [] {
      var init, last := parts[..|parts| - 1], parts[|parts| - 1];
      DebitAllAt(m, init, share, u);
      assert parts == init + [last];
      CountSnoc(init, last, u);
    }
  }

  lemma {:induction false} DebitAllKeys(m: map<UserId, real>, parts: seq<UserId>, share: real)
    ensures DebitAll(m, parts, share).Keys == m.Keys + set q | q in parts
    decreases |parts|
  {
    if parts != [] {
      var init := parts[..|parts| - 1];
      DebitAllKeys(m, init, share);
      assert parts == init + [parts[|parts| - 1]];
    }
  }

  lemma InitialAt(members: seq<UserId>, u: UserId)
    ensures Initial(members).Keys == set m | m in members
    ensures Get(Initial(members), u) == 0.0
    decreases |members|
  {
    if members != [] {
      var init := members[..|members| - 1];
      InitialAt(init, u);
      assert members == init + [members[|members| - 1]];
    }
  }

  /**
   * Each user's net is what that user fronted minus the shares that user
   * owes, over the booked expenses only; every member is in the map.
   */
  lemma {:induction false} BalanceIsFrontedMinusOwed(f: Fold, members: seq<UserId>, expenses: seq<Expense>, u: UserId)
    ensures Get(Balances(f, members, expenses), u) == Fronted(f, expenses, u) - Owed(f, members, expenses, u)
    decreases |expenses|
  {
    InitialAt(members, u);
    if expenses != [] {
      var init := expenses[..|expenses| - 1];
      var e := expenses[|expenses| - 1];
      BalanceIsFrontedMinusOwed(f, members, init, u);
      if Counted(f, e) {
        var before := Balances(f, members, init);
        DebitAllAt(Credit(before, e.paidBy, e.amount), Participants(f, members, e), Share(f, members, e), u);
      }
    }
  }

  /** Every member has an entry, booked expenses or not. */
  lemma {:induction false} MembersHaveEntries(f: Fold, members: seq<UserId>, expenses: seq<Expense>)
    ensures forall m :: m in members ==> m in Balances(f, members, expenses)
    decreases |expenses|
  {
    if expenses == [] {
      InitialAt(members, "");
    } else {
      var init := expenses[..|expenses| - 1];
      var e := expenses[|expenses| - 1];
      MembersHaveEntries(f, members, init);
      if Counted(f, e) {
        var before := Balances(f, members, init);
        DebitAllKeys(Credit(before, e.paidBy, e.amount), Participants(f, members, e), Share(f, members, e));
      }
    }
  }

  /** A user not charged and not paying in any booked expense has net 0. */
  lemma {:induction false} UninvolvedHasZeroNet(f: Fold, members: seq<UserId>, expenses: seq<Expense>, u: UserId)
    requires forall n :: 0 <= n < |expenses| && Counted(f, expenses[n]) ==>
      expenses[n].paidBy != u && u !in Participants(f, members, expenses[n])
    ensures Get(Balances(f, members, expenses), u) == 0.0
  {
    NotInvolved(f, members, expenses, u);
    BalanceIsFrontedMinusOwed(f, members, expenses, u);
  }

  lemma {:induction false} NotInvolved(f: Fold, members: seq<UserId>, expenses: seq<Expense>, u: UserId)
    requires forall n :: 0 <= n < |expenses| && Counted(f, expenses[n]) ==>
      expenses[n].paidBy != u && u !in Participants(f, members, expenses[n])
    ensures Fronted(f, expenses, u) == 0.0 && Owed(f, members, expenses, u) == 0.0
    decreases |expenses|
  {
    if expenses != [] {
      var init, e := expenses[..|expenses| - 1], expenses[|expenses| - 1];
      assert forall n :: 0 <= n < |init| ==> init[n] == expenses[n];
      NotInvolved(f, members, init, u);
      CountAbsent(Participants(f, members, e), u);
    }
  }

  lemma {:induction false} CountAbsent(s: seq<UserId>, u: UserId)
    ensures u !in s ==> Count(s, u) == 0
    ensures Distinct(s) && u in s ==> Count(s, u) == 1
  {
    if s != [] {
      CountAbsent(s[1..], u);
      if Distinct(s) {
        assert Distinct(s[1..]) by {
          forall a, b | 0 <= a < b < |s[1..]| ensures s[1..][a] != s[1..][b] {
            assert s[1..][a] == s[a + 1] && s[1..][b] == s[b + 1];
          }
        }
        if s[0] == u {
          forall k | 0 <= k < |s[1..]| ensures s[1..][k] != u {
            assert s[1..][k] == s[k + 1];
          }
        }
      }
    }
  }

  /**
   * In the balance router an expense with an empty split is charged evenly to
   * every member: each member's net moves by what it paid minus
   * `amount / |members|`.
   */
  lemma EmptySplitChargesEveryMember(members: seq<UserId>, m: map<UserId, real>, e: Expense, u: UserId)
    requires Distinct(members) && u in members
    requires e.splitBetween == [] && e.amount > 0.0
    ensures Get(Book(EveryoneWhenEmpty, members, m, e), u)
         == Get(m, u) + (if e.paidBy == u then e.amount else 0.0) - e.amount / |members| as real
  {
    CountAbsent(members, u);
    DebitAllAt(Credit(m, e.paidBy, e.amount), members, Share(EveryoneWhenEmpty, members, e), u);
  }

  /** The booked expenses, in order. */
  function CountedOnly(f: Fold, expenses: seq<Expense>): (r: seq<Expense>)
    ensures forall n :: 0 <= n < |r| ==> Counted(f, r[n]) && r[n] in expenses
    decreases |expenses|
  {
    if expenses == [] then []
    else
      var e := expenses[|expenses| - 1];
      CountedOnly(f, expenses[..|expenses| - 1]) + (if Counted(f, e) then [e] else [])
  }

  /** Skipped expenses (an empty split, or a non-positive amount in the balance router) change nothing. */
  lemma {:induction false} SkippedExpensesDoNotMatter(f: Fold, members: seq<UserId>, expenses: seq<Expense>)
    ensures Balances(f, members, expenses) == Balances(f, members, CountedOnly(f, expenses))
    decreases |expenses|
  {
    if expenses != [] {
      var init, e := expenses[..|expenses| - 1], expenses[|expenses| - 1];
      SkippedExpensesDoNotMatter(f, members, init);
      var kept := CountedOnly(f, init);
      assert init == expenses[..|expenses| - 1];
      if Counted(f, e) {
        assert CountedOnly(f, expenses) == kept + [e];
        assert (kept + [e])[..|kept + [e]| - 1] == kept;
        calc {
          Balances(f, members, expenses);
          Book(f, members, Balances(f, members, init), e);
          Book(f, members, Balances(f, members, kept), e);
          Balances(f, members, kept + [e]);
        }
      } else {
        assert CountedOnly(f, expenses) == kept + [];
        assert kept + [] == kept;
        calc {
          Balances(f, members, expenses);
          Book(f, members, Balances(f, members, init), e);
          Balances(f, members, init);
        }
      }
    }
  }

  // ---------------------------------------------------------------------
  // Conservation
  // ---------------------------------------------------------------------

  /** The sum of the map's values at `keys`. */
  function SumOver(keys: seq<UserId>, m: map<UserId, real>): real {
    if keys == [] then 0.0 else Get(m, keys[0]) + SumOver(keys[1..], m)
  }

  lemma {:induction false} SumOverElsewhere(keys: seq<UserId>, m: map<UserId, real>, u: UserId, x: real)
    requires u !in keys
    ensures SumOver(keys, Credit(m, u, x)) == SumOver(keys, m)
  {
    if keys != [] {
      SumOverElsewhere(keys[1..], m, u, x);
    }
  }

  lemma {:induction false} SumOverCredit(keys: seq<UserId>, m: map<UserId, real>, u: UserId, x: real)
    requires Distinct(keys) && u in keys
    ensures SumOver(keys, Credit(m, u, x)) == SumOver(keys, m) + x
  {
    DistinctTail(keys);
    if keys[0] == u {
      SumOverElsewhere(keys[1..], m, u, x);
    } else {
      SumOverCredit(keys[1..], m, u, x);
    }
  }

  lemma {:induction false} SumOverDebitAll(keys: seq<UserId>, m: map<UserId, real>, parts: seq<UserId>, share: real)
    requires Distinct(keys)
    requires forall p :: p in parts ==> p in keys
    ensures SumOver(keys, DebitAll(m, parts, share)) == SumOver(keys, m) - Times(|parts|, share)
    decreases |parts|
  {
    if parts != [] {
      var init, last := parts[..|parts| - 1], parts[|parts| - 1];
      assert forall p :: p in init ==> p in parts;
      SumOverDebitAll(keys, m, init, share);
      SumOverCredit(keys, DebitAll(m, init, share), last, -share);
    }
  }

  lemma {:induction false} SumOverInitial(keys: seq<UserId>, members: seq<UserId>)
    ensures SumOver(keys, Initial(members)) == 0.0
  {
    if keys != [] {
      InitialAt(members, keys[0]);
      SumOverInitial(keys[1..], members);
    }
  }

  /**
   * Every booked expense names its payer and a non-empty set of participants
   * among `keys`.
   */
  predicate Covered(f: Fold, members: seq<UserId>, expenses: seq<Expense>, keys: seq<UserId>) {
    forall n :: 0 <= n < |expenses| && Counted(f, expenses[n]) ==>
      && expenses[n].paidBy in keys
      && |Participants(f, members, expenses[n])| > 0
      && forall p :: p in Participants(f, members, expenses[n]) ==> p in keys
  }

  lemma BookConserves(f: Fold, members: seq<UserId>, m: map<UserId, real>, e: Expense, keys: seq<UserId>)
    requires Distinct(keys)
    requires Counted(f, e) ==>
      && e.paidBy in keys
      && |Participants(f, members, e)| > 0
      && forall p :: p in Participants(f, members, e) ==> p in keys
    ensures SumOver(keys, Book(f, members, m, e)) == SumOver(keys, m)
  {
    if Counted(f, e) {
      var parts := Participants(f, members, e);
      SumOverCredit(keys, m, e.paidBy, e.amount);
      SumOverDebitAll(keys, Credit(m, e.paidBy, e.amount), parts, Share(f, members, e));
      SharesAddUp(|parts|, e.amount);
    }
  }

  /**
   * Money is conserved: when all booked money moves between ids in `keys`,
   * the nets at `keys` add up to zero.
   */
  lemma {:induction false} Conservation(f: Fold, members: seq<UserId>, expenses: seq<Expense>, keys: seq<UserId>)
    requires Distinct(keys)
    requires Covered(f, members, expenses, keys)
    ensures SumOver(keys, Balances(f, members, expenses)) == 0.0
    decreases |expenses|
  {
    if expenses == [] {
      SumOverInitial(keys, members);
    } else {
      var init, e := expenses[..|expenses| - 1], expenses[|expenses| - 1];
      assert forall n :: 0 <= n < |init| ==> init[n] == expenses[n];
      Conservation(f, members, init, keys);
      BookConserves(f, members, Balances(f, members, init), e, keys);
    }
  }

  /** The ids other than members that the booked expenses reach. */
  function Reached(f: Fold, members: seq<UserId>, expenses: seq<Expense>): set<UserId>
    decreases |expenses|
  {
    if expenses == [] then {}
    else
      var e := expenses[|expenses| - 1];
      Reached(f, members, expenses[..|expenses| - 1])
        + (if Counted(f, e) then {e.paidBy} + (set p | p in Participants(f, members, e)) else {})
  }

  /**
   * The map holds exactly the members and every payer and participant of a
   * booked expense, members or not.
   */
  lemma {:induction false} BalanceKeys(f: Fold, members: seq<UserId>, expenses: seq<Expense>)
    ensures Balances(f, members, expenses).Keys == (set m | m in members) + Reached(f, members, expenses)
    decreases |expenses|
  {
    if expenses == [] {
      InitialAt(members, "");
    } else {
      var init, e := expenses[..|expenses| - 1], expenses[|expenses| - 1];
      BalanceKeys(f, members, init);
      if Counted(f, e) {
        DebitAllKeys(Credit(Balances(f, members, init), e.paidBy, e.amount), Participants(f, members, e), Share(f, members, e));
      }
    }
  }

  // ---------------------------------------------------------------------
  // Totals, creditors and debtors
  // ---------------------------------------------------------------------

  /** One row of `totals`: a member and its net rounded with `toFixed(2)`. */
  datatype Entry = Entry(user: UserId, net: real)

  function Net(e: Entry): real { e.net }

  function Member(e: Entry): UserId { e.user }

  /** `flat.members.map(m => ({ user, net: Number((balance[m] || 0).toFixed(2)) }))`. */
  function Totals(members: seq<UserId>, balance: map<UserId, real>): seq<Entry> {
    if members == [] then []
    else [Entry(members[0], Round2(Get(balance, members[0])))] + Totals(members[1..], balance)
  }

  /**
   * `totals` has one row per member, in member order, whose net is the
   * member's rounded balance; with distinct members no user appears twice.
   */
  lemma {:induction false} TotalsRows(members: seq<UserId>, balance: map<UserId, real>)
    ensures |Totals(members, balance)| == |members|
    ensures forall k :: 0 <= k < |members| ==>
      Totals(members, balance)[k].user == members[k]
      && Totals(members, balance)[k].net == Round2(Get(balance, members[k]))
    ensures Distinct(members) ==> DistinctBy(Totals(members, balance), Member)
  {
    if members != [] {
      TotalsRows(members[1..], balance);
      var t := Totals(members, balance);
      assert forall k :: 1 <= k < |members| ==> t[k] == Totals(members[1..], balance)[k - 1];
      if Distinct(members) {
        forall a, b | 0 <= a < b < |t| ensures Member(t[a]) != Member(t[b]) {
          assert t[a].user == members[a] && t[b].user == members[b];
        }
      }
    }
  }

  /**
   * The rounded nets add up to within half a cent per member of the
   * unrounded ones, and exactly to them when those are whole cents.
   */
  lemma {:induction false} RoundingDrift(members: seq<UserId>, balance: map<UserId, real>)
    ensures -0.005 * |members| as real <= Total(Totals(members, balance), Net) - SumOver(members, balance) <= 0.005 * |members| as real
    ensures (forall m :: m in members ==> OnCents(Get(balance, m))) ==>
      Total(Totals(members, balance), Net) == SumOver(members, balance)
  {
    if members != [] {
      RoundingDrift(members[1..], balance);
      var t := Totals(members, balance);
      assert t[1..] == Totals(members[1..], balance);
      if forall m :: m in members ==> OnCents(Get(balance, m)) {
        RoundOnCents(Get(balance, members[0]));
      }
    }
  }

  /** `totals.filter(x => x.net > 0).map(x => ({ user, remaining: x.net }))`. */
  function Creditors(t: seq<Entry>): seq<Party> {
    if t == [] then []
    else (if t[0].net > 0.0 then [Party(t[0].user, t[0].net)] else []) + Creditors(t[1..])
  }

  /** `totals.filter(x => x.net < 0).map(x => ({ user, remaining: Math.abs(x.net) }))`. */
  function Debtors(t: seq<Entry>): seq<Party> {
    if t == [] then []
    else (if t[0].net < 0.0 then [Party(t[0].user, -t[0].net)] else []) + Debtors(t[1..])
  }

  /**
   * The creditors are exactly the rows with a positive net, owed that net;
   * the debtors exactly the rows with a negative net, owing its magnitude.
   */
  lemma {:induction false} CreditorsAndDebtors(t: seq<Entry>)
    ensures forall p :: p in Creditors(t) <==> exists k :: 0 <= k < |t| && t[k].net > 0.0 && p == Party(t[k].user, t[k].net)
    ensures forall p :: p in Debtors(t) <==> exists k :: 0 <= k < |t| && t[k].net < 0.0 && p == Party(t[k].user, -t[k].net)
  {
    if t != [] {
      CreditorsAndDebtors(t[1..]);
      assert forall k :: 1 <= k < |t| ==> t[k] == t[1..][k - 1];
      forall p | p in Creditors(t)
        ensures exists k :: 0 <= k < |t| && t[k].net > 0.0 && p == Party(t[k].user, t[k].net)
      {
        if p !in Creditors(t[1..]) {
          assert p == Party(t[0].user, t[0].net);
        } else {
          var k :| 0 <= k < |t[1..]| && t[1..][k].net > 0.0 && p == Party(t[1..][k].user, t[1..][k].net);
          assert t[k + 1] == t[1..][k];
        }
      }
      forall p | p in Debtors(t)
        ensures exists k :: 0 <= k < |t| && t[k].net < 0.0 && p == Party(t[k].user, -t[k].net)
      {
        if p !in Debtors(t[1..]) {
          assert p == Party(t[0].user, -t[0].net);
        } else {
          var k :| 0 <= k < |t[1..]| && t[1..][k].net < 0.0 && p == Party(t[1..][k].user, -t[1..][k].net);
          assert t[k + 1] == t[1..][k];
        }
      }
    }
  }

  /** What the creditors are owed minus what the debtors owe is the sum of the nets. */
  lemma {:induction false} PartiesBalance(t: seq<Entry>)
    ensures Sum(Remainings(Creditors(t))) - Sum(Remainings(Debtors(t))) == Total(t, Net)
  {
    if t != [] {
      var rest := t[1..];
      PartiesBalance(rest);
      var hc := if t[0].net > 0.0 then [Party(t[0].user, t[0].net)] else [];
      var hd := if t[0].net < 0.0 then [Party(t[0].user, -t[0].net)] else [];
      assert Remainings(Creditors(t)) == Remainings(hc) + Remainings(Creditors(rest));
      assert Remainings(Debtors(t)) == Remainings(hd) + Remainings(Debtors(rest));
      SumAppend(Remainings(hc), Remainings(Creditors(rest)));
      SumAppend(Remainings(hd), Remainings(Debtors(rest)));
    }
  }

  /**
   * Both lists carry positive remainders, which are whole cents when the
   * nets are.
   */
  lemma {:induction false} PartiesPositive(t: seq<Entry>)
    ensures forall k :: 0 <= k < |Creditors(t)| ==> Creditors(t)[k].remaining > 0.0
    ensures forall k :: 0 <= k < |Debtors(t)| ==> Debtors(t)[k].remaining > 0.0
    ensures (forall k :: 0 <= k < |t| ==> OnCents(t[k].net)) ==>
      && (forall k :: 0 <= k < |Creditors(t)| ==> OnCents(Creditors(t)[k].remaining))
      && (forall k :: 0 <= k < |Debtors(t)| ==> OnCents(Debtors(t)[k].remaining))
  {
    if t != [] {
      var rest := t[1..];
      PartiesPositive(rest);
      assert forall k :: 1 <= k < |t| ==> t[k] == rest[k - 1];
      if forall k :: 0 <= k < |t| ==> OnCents(t[k].net) {
        CentsNeg(t[0].net);
      }
    }
  }

  /** Each list names only users of `t` whose net has the list's sign. */
  lemma {:induction false} PartiesNamed(t: seq<Entry>, positive: bool)
    ensures forall u :: u in Users(Side(t, positive)) ==>
      exists k :: 0 <= k < |t| && t[k].user == u && Signed(t[k].net, positive)
  {
    if t != [] {
      PartiesNamed(t[1..], positive);
      SideUsersOfRest(t, positive);
    }
  }

  /** Neither list names a user twice when `t` does not. */
  lemma {:induction false} PartiesDistinct(t: seq<Entry>, positive: bool)
    requires DistinctBy(t, Member)
    ensures Distinct(Users(Side(t, positive)))
  {
    if t != [] {
      var rest := t[1..];
      assert DistinctBy(rest, Member) by {
        forall a, b | 0 <= a < b < |rest| ensures Member(rest[a]) != Member(rest[b]) {
          assert rest[a] == t[a + 1] && rest[b] == t[b + 1];
        }
      }
      PartiesDistinct(rest, positive);
      PartiesNamed(rest, positive);
      var h := if Signed(t[0].net, positive) then [t[0].user] else [];
      assert Users(Side(t, positive)) == h + Users(Side(rest, positive));
      forall u | u in Users(Side(rest, positive)) ensures u != t[0].user {
        var k :| 0 <= k < |rest| && rest[k].user == u && Signed(rest[k].net, positive);
        assert Member(t[0]) != Member(t[k + 1]);
      }
      DistinctCons(h, Users(Side(rest, positive)));
    }
  }

  predicate Signed(x: real, positive: bool) {
    if positive then x > 0.0 else x < 0.0
  }

  /** The creditors (`positive`) or the debtors of `t`. */
  function Side(t: seq<Entry>, positive: bool): seq<Party> {
    if positive then Creditors(t) else Debtors(t)
  }

  lemma SideUsersOfRest(t: seq<Entry>, positive: bool)
    requires t != []
    requires forall u :: u in Users(Side(t[1..], positive)) ==>
      exists k :: 0 <= k < |t[1..]| && t[1..][k].user == u && Signed(t[1..][k].net, positive)
    ensures forall u :: u in Users(Side(t, positive)) ==>
      exists k :: 0 <= k < |t| && t[k].user == u && Signed(t[k].net, positive)
  {
    var rest := t[1..];
    var h := if Signed(t[0].net, positive) then [t[0].user] else [];
    assert Users(Side(t, positive)) == h + Users(Side(rest, positive));
    forall u | u in Users(Side(t, positive)) ensures exists k :: 0 <= k < |t| && t[k].user == u && Signed(t[k].net, positive) {
      if u in Users(Side(rest, positive)) {
        var k :| 0 <= k < |rest| && rest[k].user == u && Signed(rest[k].net, positive);
        assert t[k + 1] == rest[k];
      } else {
        assert t[0].user == u;
      }
    }
  }

  // ---------------------------------------------------------------------
  // The handlers
  // ---------------------------------------------------------------------

  /** What a balance handler replies: the totals and the settlement list. */
  datatype Report = Report(totals: seq<Entry>, settlements: seq<Transfer>)

  /** `GET /flats/:flatId/balance` as served by the flat router. */
  function FlatBalance(members: seq<UserId>, expenses: seq<Expense>): Report {
    var totals := Totals(members, Balances(SkipEmptySplit, members, expenses));
    Report(totals, Plan(FlatRoute, Debtors(totals), Creditors(totals)))
  }

  /** `GET /flats/:flatId/balance` as written in the balance router. */
  function SortedBalance(members: seq<UserId>, expenses: seq<Expense>): Report {
    var totals := SortDesc(Totals(members, Balances(EveryoneWhenEmpty, members, expenses)), Net);
    Report(totals, Plan(BalanceRoute, Debtors(totals), Creditors(totals)))
  }

  /** The dashboard's `charts.byUser`. */
  function ByUser(members: seq<UserId>, expenses: seq<Expense>): seq<Entry> {
    SortDesc(Totals(members, Balances(SkipEmptySplit, members, expenses)), Net)
  }

  method FlatBalanceHandler(members: seq<UserId>, expenses: seq<Expense>) returns (totals: seq<Entry>, settlements: seq<Transfer>)
    ensures Report(totals, settlements) == FlatBalance(members, expenses)
  {
    var balance := ComputeBalances(SkipEmptySplit, members, expenses);
    totals := Totals(members, balance);
    settlements := Settle(FlatRoute, Debtors(totals), Creditors(totals));
  }

  method SortedBalanceHandler(members: seq<UserId>, expenses: seq<Expense>) returns (totals: seq<Entry>, settlements: seq<Transfer>)
    ensures Report(totals, settlements) == SortedBalance(members, expenses)
  {
    var balance := ComputeBalances(EveryoneWhenEmpty, members, expenses);
    totals := SortDesc(Totals(members, balance), Net);
    settlements := Settle(BalanceRoute, Debtors(totals), Creditors(totals));
  }

  /**
   * When the rows name distinct users, are whole cents and add up to zero,
   * the planned transfers square every row: a debtor pays exactly what it
   * owes and receives nothing, a creditor receives exactly what it is owed
   * and pays nothing, and a row at zero takes part in no transfer.
   */
  lemma TransfersSquareEveryRow(v: Variant, t: seq<Entry>)
    requires DistinctBy(t, Member)
    requires forall k :: 0 <= k < |t| ==> OnCents(t[k].net)
    requires Total(t, Net) == 0.0
    ensures forall k :: 0 <= k < |t| ==>
      var ts := Plan(v, Debtors(t), Creditors(t));
      && t[k].net + PaidBy(ts, t[k].user) - ReceivedBy(ts, t[k].user) == 0.0
      && (t[k].net >= 0.0 ==> PaidBy(ts, t[k].user) == 0.0)
      && (t[k].net <= 0.0 ==> ReceivedBy(ts, t[k].user) == 0.0)
  {
    SettledParties(v, t);
    forall k | 0 <= k < |t|
      ensures t[k].net + PaidBy(Plan(v, Debtors(t), Creditors(t)), t[k].user)
                - ReceivedBy(Plan(v, Debtors(t), Creditors(t)), t[k].user) == 0.0
      ensures t[k].net >= 0.0 ==> PaidBy(Plan(v, Debtors(t), Creditors(t)), t[k].user) == 0.0
      ensures t[k].net <= 0.0 ==> ReceivedBy(Plan(v, Debtors(t), Creditors(t)), t[k].user) == 0.0
    {
      RowSquared(v, t, k);
    }
  }

  /** The planner's guarantees, instantiated for the debtors and creditors of `t`. */
  lemma SettledParties(v: Variant, t: seq<Entry>)
    requires DistinctBy(t, Member)
    requires forall k :: 0 <= k < |t| ==> OnCents(t[k].net)
    requires Total(t, Net) == 0.0
    ensures forall i :: 0 <= i < |Debtors(t)| ==>
      PaidBy(Plan(v, Debtors(t), Creditors(t)), Debtors(t)[i].user) == Debtors(t)[i].remaining
    ensures forall l :: 0 <= l < |Creditors(t)| ==>
      ReceivedBy(Plan(v, Debtors(t), Creditors(t)), Creditors(t)[l].user) == Creditors(t)[l].remaining
    ensures forall x :: x in Plan(v, Debtors(t), Creditors(t)) ==>
      x.from in Users(Debtors(t)) && x.to in Users(Creditors(t))
  {
    PartiesBalance(t);
    PartiesPositive(t);
    PartiesDistinct(t, true);
    PartiesDistinct(t, false);
    PlanBound(v, Debtors(t), Creditors(t));
    PlanSettlesEveryParty(v, Debtors(t), Creditors(t));
  }

  lemma RowSquared(v: Variant, t: seq<Entry>, k: nat)
    requires DistinctBy(t, Member) && k < |t|
    requires forall i :: 0 <= i < |Debtors(t)| ==>
      PaidBy(Plan(v, Debtors(t), Creditors(t)), Debtors(t)[i].user) == Debtors(t)[i].remaining
    requires forall l :: 0 <= l < |Creditors(t)| ==>
      ReceivedBy(Plan(v, Debtors(t), Creditors(t)), Creditors(t)[l].user) == Creditors(t)[l].remaining
    requires forall x :: x in Plan(v, Debtors(t), Creditors(t)) ==>
      x.from in Users(Debtors(t)) && x.to in Users(Creditors(t))
    ensures t[k].net + PaidBy(Plan(v, Debtors(t), Creditors(t)), t[k].user)
              - ReceivedBy(Plan(v, Debtors(t), Creditors(t)), t[k].user) == 0.0
    ensures t[k].net >= 0.0 ==> PaidBy(Plan(v, Debtors(t), Creditors(t)), t[k].user) == 0.0
    ensures t[k].net <= 0.0 ==> ReceivedBy(Plan(v, Debtors(t), Creditors(t)), t[k].user) == 0.0
  {
    var ds, cs := Debtors(t), Creditors(t);
    var ts := Plan(v, ds, cs);
    var u := t[k].user;
    RowSide(t, k);
    Uninvolved(ts, u);
    CreditorsAndDebtors(t);
    if t[k].net < 0.0 {
      assert Party(u, -t[k].net) in ds;
      var i :| 0 <= i < |ds| && ds[i] == Party(u, -t[k].net);
    } else if t[k].net > 0.0 {
      assert Party(u, t[k].net) in cs;
      var l :| 0 <= l < |cs| && cs[l] == Party(u, t[k].net);
    }
  }

  /** A row's user is a debtor only if its net is negative, a creditor only if positive. */
  lemma RowSide(t: seq<Entry>, k: nat)
    requires DistinctBy(t, Member) && k < |t|
    ensures t[k].net >= 0.0 ==> t[k].user !in Users(Debtors(t))
    ensures t[k].net <= 0.0 ==> t[k].user !in Users(Creditors(t))
  {
    PartiesNamed(t, false);
    PartiesNamed(t, true);
    if t[k].user in Users(Side(t, false)) {
      var k' :| 0 <= k' < |t| && t[k'].user == t[k].user && Signed(t[k'].net, false);
      assert Member(t[k']) == Member(t[k]);
    }
    if t[k].user in Users(Side(t, true)) {
      var k' :| 0 <= k' < |t| && t[k'].user == t[k].user && Signed(t[k'].net, true);
      assert Member(t[k']) == Member(t[k]);
    }
  }

  /**
   * The sorted rows (the balance router's `totals` and the dashboard's
   * `byUser`) are in descending order of net and hold exactly the rows of the
   * member-order list, each member once when the members are distinct.
   */
  lemma SortedRows(f: Fold, members: seq<UserId>, expenses: seq<Expense>)
    ensures var rows := Totals(members, Balances(f, members, expenses));
      && SortedDesc(SortDesc(rows, Net), Net)
      && multiset(SortDesc(rows, Net)) == multiset(rows)
      && |SortDesc(rows, Net)| == |members|
      && (Distinct(members) ==> DistinctBy(SortDesc(rows, Net), Member))
  {
    var rows := Totals(members, Balances(f, members, expenses));
    TotalsRows(members, Balances(f, members, expenses));
    SortDescCorrect(rows, Net);
    SortDescKeeps(rows, Net, Member);
  }

  /**
   * With distinct members and every booked expense among members, the
   * reported nets add up to within half a cent per member of zero.
   */
  lemma NetsNearlyBalance(f: Fold, members: seq<UserId>, expenses: seq<Expense>)
    requires Distinct(members)
    requires Covered(f, members, expenses, members)
    ensures var total := Total(Totals(members, Balances(f, members, expenses)), Net);
      -0.005 * |members| as real <= total <= 0.005 * |members| as real
  {
    Conservation(f, members, expenses, members);
    RoundingDrift(members, Balances(f, members, expenses));
  }

  /**
   * End to end for the served route: with distinct members, every booked
   * expense among members and every member's balance a whole number of
   * cents, the settlements bring every member's balance to zero.
   */
  lemma FlatBalanceSettlesEveryone(members: seq<UserId>, expenses: seq<Expense>)
    requires Distinct(members)
    requires Covered(SkipEmptySplit, members, expenses, members)
    requires forall m :: m in members ==> OnCents(Get(Balances(SkipEmptySplit, members, expenses), m))
    ensures |FlatBalance(members, expenses).totals| == |members|
    ensures forall k :: 0 <= k < |members| ==>
      var r := FlatBalance(members, expenses);
      && r.totals[k] == Entry(members[k], Get(Balances(SkipEmptySplit, members, expenses), members[k]))
      && Get(Balances(SkipEmptySplit, members, expenses), members[k])
           + PaidBy(r.settlements, members[k]) - ReceivedBy(r.settlements, members[k]) == 0.0
  {
    var balance := Balances(SkipEmptySplit, members, expenses);
    var t := Totals(members, balance);
    TotalsRows(members, balance);
    Conservation(SkipEmptySplit, members, expenses, members);
    RoundingDrift(members, balance);
    TransfersSquareEveryRow(FlatRoute, t);
    forall k | 0 <= k < |members| ensures t[k] == Entry(members[k], Get(balance, members[k])) {
      RoundOnCents(Get(balance, members[k]));
    }
  }

  /** The same for the balance router's copy, whose rows are sorted. */
  lemma SortedBalanceSettlesEveryone(members: seq<UserId>, expenses: seq<Expense>)
    requires Distinct(members)
    requires Covered(EveryoneWhenEmpty, members, expenses, members)
    requires forall m :: m in members ==> OnCents(Get(Balances(EveryoneWhenEmpty, members, expenses), m))
    ensures forall u :: u in members ==>
      var r := SortedBalance(members, expenses);
      && Entry(u, Get(Balances(EveryoneWhenEmpty, members, expenses), u)) in r.totals
      && Get(Balances(EveryoneWhenEmpty, members, expenses), u)
           + PaidBy(r.settlements, u) - ReceivedBy(r.settlements, u) == 0.0
  {
    var balance := Balances(EveryoneWhenEmpty, members, expenses);
    var t := SortDesc(Totals(members, balance), Net);
    SortedRowsBalance(members, balance);
    Conservation(EveryoneWhenEmpty, members, expenses, members);
    TransfersSquareEveryRow(BalanceRoute, t);
    forall u | u in members
      ensures Entry(u, Get(balance, u)) in t
    {
      MemberRow(members, balance, u);
    }
  }

  /** Sorting the rows keeps them whole cents, distinct and with the same sum. */
  lemma SortedRowsBalance(members: seq<UserId>, balance: map<UserId, real>)
    requires Distinct(members)
    requires forall m :: m in members ==> OnCents(Get(balance, m))
    ensures var t := SortDesc(Totals(members, balance), Net);
      && DistinctBy(t, Member)
      && (forall j :: 0 <= j < |t| ==> OnCents(t[j].net))
      && Total(t, Net) == SumOver(members, balance)
  {
    var rows := Totals(members, balance);
    var t := SortDesc(rows, Net);
    TotalsRows(members, balance);
    SortDescCorrect(rows, Net);
    SortDescKeeps(rows, Net, Member);
    RoundingDrift(members, balance);
    forall j | 0 <= j < |t| ensures OnCents(t[j].net) {
      assert t[j] in multiset(rows);
      var k :| 0 <= k < |rows| && rows[k] == t[j];
    }
  }

  /** A member whose balance is whole cents has its unchanged balance as a sorted row. */
  lemma MemberRow(members: seq<UserId>, balance: map<UserId, real>, u: UserId)
    requires u in members && OnCents(Get(balance, u))
    ensures Entry(u, Get(balance, u)) in SortDesc(Totals(members, balance), Net)
  {
    var rows := Totals(members, balance);
    TotalsRows(members, balance);
    SortDescCorrect(rows, Net);
    var k :| 0 <= k < |members| && members[k] == u;
    RoundOnCents(Get(balance, u));
    assert rows[k] in multiset(SortDesc(rows, Net));
  }

  /**
   * Without asking the nets to add up to zero: the planned transfers leave
   * every row on its own side of zero and at most |sum of the nets| away
   * from it, nobody pays or receives on the wrong side, and either every
   * debtor row or every creditor row is squared exactly.
   */
  lemma TransfersNearlySquareEveryRow(v: Variant, t: seq<Entry>)
    requires DistinctBy(t, Member)
    requires forall k :: 0 <= k < |t| ==> OnCents(t[k].net)
    ensures forall k :: 0 <= k < |t| ==>
      var ts := Plan(v, Debtors(t), Creditors(t));
      var left := t[k].net + PaidBy(ts, t[k].user) - ReceivedBy(ts, t[k].user);
      && (t[k].net <= 0.0 ==> -Abs(Total(t, Net)) <= left <= 0.0 && ReceivedBy(ts, t[k].user) == 0.0)
      && (t[k].net >= 0.0 ==> 0.0 <= left <= Abs(Total(t, Net)) && PaidBy(ts, t[k].user) == 0.0)
    ensures || (forall k :: 0 <= k < |t| && t[k].net < 0.0 ==>
                 t[k].net + PaidBy(Plan(v, Debtors(t), Creditors(t)), t[k].user) == 0.0)
            || (forall k :: 0 <= k < |t| && t[k].net > 0.0 ==>
                 t[k].net - ReceivedBy(Plan(v, Debtors(t), Creditors(t)), t[k].user) == 0.0)
  {
    RowsNearlySquared(v, t, Plan(v, Debtors(t), Creditors(t)), Abs(Total(t, Net)));
  }

  /** The same, with the plan and the gap named. */
  lemma RowsNearlySquared(v: Variant, t: seq<Entry>, ts: seq<Transfer>, gap: real)
    requires DistinctBy(t, Member)
    requires forall k :: 0 <= k < |t| ==> OnCents(t[k].net)
    requires ts == Plan(v, Debtors(t), Creditors(t))
    requires gap == Abs(Total(t, Net))
    ensures forall k :: 0 <= k < |t| ==>
      && (t[k].net <= 0.0 ==>
            -gap <= t[k].net + PaidBy(ts, t[k].user) - ReceivedBy(ts, t[k].user) <= 0.0 && ReceivedBy(ts, t[k].user) == 0.0)
      && (t[k].net >= 0.0 ==>
            0.0 <= t[k].net + PaidBy(ts, t[k].user) - ReceivedBy(ts, t[k].user) <= gap && PaidBy(ts, t[k].user) == 0.0)
    ensures || (forall k :: 0 <= k < |t| && t[k].net < 0.0 ==> t[k].net + PaidBy(ts, t[k].user) == 0.0)
            || (forall k :: 0 <= k < |t| && t[k].net > 0.0 ==> t[k].net - ReceivedBy(ts, t[k].user) == 0.0)
  {
    NearlySettledParties(v, t, ts, gap);
    forall k | 0 <= k < |t|
      ensures t[k].net <= 0.0 ==>
        -gap <= t[k].net + PaidBy(ts, t[k].user) - ReceivedBy(ts, t[k].user) <= 0.0 && ReceivedBy(ts, t[k].user) == 0.0
      ensures t[k].net >= 0.0 ==>
        0.0 <= t[k].net + PaidBy(ts, t[k].user) - ReceivedBy(ts, t[k].user) <= gap && PaidBy(ts, t[k].user) == 0.0
    {
      RowNearlySquared(t, k, ts, gap);
    }
    CreditorsAndDebtors(t);
    if forall i :: 0 <= i < |Debtors(t)| ==> PaidBy(ts, Debtors(t)[i].user) == Debtors(t)[i].remaining {
      forall k | 0 <= k < |t| && t[k].net < 0.0 ensures t[k].net + PaidBy(ts, t[k].user) == 0.0 {
        assert Party(t[k].user, -t[k].net) in Debtors(t);
        var i :| 0 <= i < |Debtors(t)| && Debtors(t)[i] == Party(t[k].user, -t[k].net);
      }
    } else {
      forall k | 0 <= k < |t| && t[k].net > 0.0 ensures t[k].net - ReceivedBy(ts, t[k].user) == 0.0 {
        assert Party(t[k].user, t[k].net) in Creditors(t);
        var l :| 0 <= l < |Creditors(t)| && Creditors(t)[l] == Party(t[k].user, t[k].net);
      }
    }
  }

  /** The planner's bounds without a zero sum, instantiated for the debtors and creditors of `t`. */
  lemma NearlySettledParties(v: Variant, t: seq<Entry>, ts: seq<Transfer>, gap: real)
    requires DistinctBy(t, Member)
    requires forall k :: 0 <= k < |t| ==> OnCents(t[k].net)
    requires ts == Plan(v, Debtors(t), Creditors(t))
    requires gap == Abs(Total(t, Net))
    ensures forall i :: 0 <= i < |Debtors(t)| ==> 0.0 <= Debtors(t)[i].remaining - PaidBy(ts, Debtors(t)[i].user) <= gap
    ensures forall l :: 0 <= l < |Creditors(t)| ==> 0.0 <= Creditors(t)[l].remaining - ReceivedBy(ts, Creditors(t)[l].user) <= gap
    ensures || (forall i :: 0 <= i < |Debtors(t)| ==> PaidBy(ts, Debtors(t)[i].user) == Debtors(t)[i].remaining)
            || (forall l :: 0 <= l < |Creditors(t)| ==> ReceivedBy(ts, Creditors(t)[l].user) == Creditors(t)[l].remaining)
    ensures forall x :: x in ts ==> x.from in Users(Debtors(t)) && x.to in Users(Creditors(t))
  {
    var ds, cs := Debtors(t), Creditors(t);
    PartiesReady(t);
    PlanBound(v, ds, cs);
    assert Sum(Remainings(ds)) - Sum(Remainings(cs)) == -Total(t, Net);
    AbsNeg(Total(t, Net));
    PlanBounds(v, ds, cs, ts, gap);
  }

  /** Distinct whole-cent rows give the planner what it needs: distinct users, positive whole-cent remainders. */
  lemma PartiesReady(t: seq<Entry>)
    requires DistinctBy(t, Member)
    requires forall k :: 0 <= k < |t| ==> OnCents(t[k].net)
    ensures Distinct(Users(Debtors(t))) && Distinct(Users(Creditors(t)))
    ensures forall k :: 0 <= k < |Debtors(t)| ==> Debtors(t)[k].remaining > 0.0 && OnCents(Debtors(t)[k].remaining)
    ensures forall k :: 0 <= k < |Creditors(t)| ==> Creditors(t)[k].remaining > 0.0 && OnCents(Creditors(t)[k].remaining)
    ensures Sum(Remainings(Creditors(t))) - Sum(Remainings(Debtors(t))) == Total(t, Net)
  {
    PartiesBalance(t);
    PartiesPositive(t);
    PartiesDistinct(t, true);
    PartiesDistinct(t, false);
  }

  lemma RowNearlySquared(t: seq<Entry>, k: nat, ts: seq<Transfer>, gap: real)
    requires DistinctBy(t, Member) && k < |t|
    requires gap >= 0.0
    requires forall i :: 0 <= i < |Debtors(t)| ==> 0.0 <= Debtors(t)[i].remaining - PaidBy(ts, Debtors(t)[i].user) <= gap
    requires forall l :: 0 <= l < |Creditors(t)| ==> 0.0 <= Creditors(t)[l].remaining - ReceivedBy(ts, Creditors(t)[l].user) <= gap
    requires forall x :: x in ts ==> x.from in Users(Debtors(t)) && x.to in Users(Creditors(t))
    ensures t[k].net <= 0.0 ==>
      -gap <= t[k].net + PaidBy(ts, t[k].user) - ReceivedBy(ts, t[k].user) <= 0.0 && ReceivedBy(ts, t[k].user) == 0.0
    ensures t[k].net >= 0.0 ==>
      0.0 <= t[k].net + PaidBy(ts, t[k].user) - ReceivedBy(ts, t[k].user) <= gap && PaidBy(ts, t[k].user) == 0.0
  {
    var u := t[k].user;
    RowSide(t, k);
    Uninvolved(ts, u);
    if t[k].net >= 0.0 {
      assert PaidBy(ts, u) == 0.0;
    }
    if t[k].net <= 0.0 {
      assert ReceivedBy(ts, u) == 0.0;
    }
    if t[k].net < 0.0 {
      var i := RowParty(t, k, false);
      assert 0.0 <= Debtors(t)[i].remaining - PaidBy(ts, u) <= gap;
    } else if t[k].net > 0.0 {
      var l := RowParty(t, k, true);
      assert 0.0 <= Creditors(t)[l].remaining - ReceivedBy(ts, u) <= gap;
    }
  }

  /** A row with a sign is a party of that side, owed or owing the magnitude of its net. */
  lemma RowParty(t: seq<Entry>, k: nat, positive: bool) returns (i: nat)
    requires k < |t| && Signed(t[k].net, positive)
    ensures i < |Side(t, positive)|
    ensures Side(t, positive)[i] == Party(t[k].user, if positive then t[k].net else -t[k].net)
  {
    CreditorsAndDebtors(t);
    var p := Party(t[k].user, if positive then t[k].net else -t[k].net);
    assert p in Side(t, positive);
    i :| 0 <= i < |Side(t, positive)| && Side(t, positive)[i] == p;
  }

  /**
   * End to end for the served route, with no assumption on the balances
   * beyond distinct members and expenses among them: each member's reported
   * row is its rounded balance, and after the settlements it is left on its
   * own side of zero and within half a cent per member of it.
   */
  lemma FlatBalanceNearlySettles(members: seq<UserId>, expenses: seq<Expense>)
    requires Distinct(members)
    requires Covered(SkipEmptySplit, members, expenses, members)
    ensures |FlatBalance(members, expenses).totals| == |members|
    ensures forall k :: 0 <= k < |members| ==>
      var r := FlatBalance(members, expenses);
      var left := r.totals[k].net + PaidBy(r.settlements, members[k]) - ReceivedBy(r.settlements, members[k]);
      && r.totals[k] == Entry(members[k], Round2(Get(Balances(SkipEmptySplit, members, expenses), members[k])))
      && -0.005 * |members| as real <= left <= 0.005 * |members| as real
      && (r.totals[k].net <= 0.0 ==> left <= 0.0)
      && (r.totals[k].net >= 0.0 ==> left >= 0.0)
  {
    var balance := Balances(SkipEmptySplit, members, expenses);
    var t := Totals(members, balance);
    TotalsRows(members, balance);
    NetsNearlyBalance(SkipEmptySplit, members, expenses);
    RowsWithinDrift(FlatRoute, t, FlatBalance(members, expenses).settlements, 0.005 * |members| as real);
  }

  /** The same for the balance router's copy, whose rows are sorted. */
  lemma SortedBalanceNearlySettles(members: seq<UserId>, expenses: seq<Expense>)
    requires Distinct(members)
    requires Covered(EveryoneWhenEmpty, members, expenses, members)
    ensures forall u :: u in members ==>
      var r := SortedBalance(members, expenses);
      var net := Round2(Get(Balances(EveryoneWhenEmpty, members, expenses), u));
      var left := net + PaidBy(r.settlements, u) - ReceivedBy(r.settlements, u);
      && Entry(u, net) in r.totals
      && -0.005 * |members| as real <= left <= 0.005 * |members| as real
      && (net <= 0.0 ==> left <= 0.0)
      && (net >= 0.0 ==> left >= 0.0)
  {
    var balance := Balances(EveryoneWhenEmpty, members, expenses);
    var t := SortDesc(Totals(members, balance), Net);
    var ts := SortedBalance(members, expenses).settlements;
    SortedRoundedRows(members, balance);
    NetsNearlyBalance(EveryoneWhenEmpty, members, expenses);
    RowsWithinDrift(BalanceRoute, t, ts, 0.005 * |members| as real);
    forall u | u in members
      ensures Entry(u, Round2(Get(balance, u))) in t
      ensures var net := Round2(Get(balance, u));
        var left := net + PaidBy(ts, u) - ReceivedBy(ts, u);
        && -0.005 * |members| as real <= left <= 0.005 * |members| as real
        && (net <= 0.0 ==> left <= 0.0)
        && (net >= 0.0 ==> left >= 0.0)
    {
      RoundedMemberRow(members, balance, u);
      var j :| 0 <= j < |t| && t[j] == Entry(u, Round2(Get(balance, u)));
    }
  }

  /** The sorted rounded rows: distinct, whole cents and with the member-order sum. */
  lemma SortedRoundedRows(members: seq<UserId>, balance: map<UserId, real>)
    requires Distinct(members)
    ensures DistinctBy(SortDesc(Totals(members, balance), Net), Member)
    ensures forall j :: 0 <= j < |SortDesc(Totals(members, balance), Net)| ==>
      OnCents(SortDesc(Totals(members, balance), Net)[j].net)
    ensures Total(SortDesc(Totals(members, balance), Net), Net) == Total(Totals(members, balance), Net)
  {
    var rows := Totals(members, balance);
    var t := SortDesc(rows, Net);
    TotalsRows(members, balance);
    SortDescCorrect(rows, Net);
    SortDescKeeps(rows, Net, Member);
    forall j | 0 <= j < |t| ensures OnCents(t[j].net) {
      assert t[j] in multiset(rows);
      var k :| 0 <= k < |rows| && rows[k] == t[j];
    }
  }

  /** Every member has its rounded balance as a sorted row. */
  lemma RoundedMemberRow(members: seq<UserId>, balance: map<UserId, real>, u: UserId)
    requires u in members
    ensures Entry(u, Round2(Get(balance, u))) in SortDesc(Totals(members, balance), Net)
  {
    var rows := Totals(members, balance);
    TotalsRows(members, balance);
    SortDescCorrect(rows, Net);
    var k :| 0 <= k < |members| && members[k] == u;
    assert rows[k] in multiset(SortDesc(rows, Net));
  }

  /** Rows whose nets add up to within `bound` of zero are each left within `bound` of zero, on their own side. */
  lemma RowsWithinDrift(v: Variant, t: seq<Entry>, ts: seq<Transfer>, bound: real)
    requires DistinctBy(t, Member)
    requires forall k :: 0 <= k < |t| ==> OnCents(t[k].net)
    requires ts == Plan(v, Debtors(t), Creditors(t))
    requires -bound <= Total(t, Net) <= bound
    ensures forall k :: 0 <= k < |t| ==>
      && -bound <= t[k].net + PaidBy(ts, t[k].user) - ReceivedBy(ts, t[k].user) <= bound
      && (t[k].net <= 0.0 ==> t[k].net + PaidBy(ts, t[k].user) - ReceivedBy(ts, t[k].user) <= 0.0)
      && (t[k].net >= 0.0 ==> t[k].net + PaidBy(ts, t[k].user) - ReceivedBy(ts, t[k].user) >= 0.0)
  {
    RowsNearlySquared(v, t, ts, Abs(Total(t, Net)));
  }
}
