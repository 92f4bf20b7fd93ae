/**
 * The flat router's membership rules: creating a flat, adding and removing
 * members, and the checks on a new expense and a new task.
 */
module Flats {
  import opened Wrappers
  import opened Text
  import opened Js
  import opened Domain
  import Ledger

  /** Every occurrence of `x` filtered out of `s`, the others kept in order. */
  function RemoveAll(s: seq<UserId>, x: UserId): seq<UserId> {
    if s == [] then [] else (if s[0] == x then [] else [s[0]]) + RemoveAll(s[1..], x)
  }

  /** `x` is gone and every other id stays, with its multiplicity. */
  lemma {:induction false} RemoveAllSpec(s: seq<UserId>, x: UserId)
    ensures forall y :: y in RemoveAll(s, x) <==> y in s && y != x
    ensures forall y :: y != x ==> multiset(RemoveAll(s, x))[y] == multiset(s)[y]
  {
    if s != [] {
      RemoveAllSpec(s[1..], x);
      assert s == [s[0]] + s[1..];
      var h := if s[0] == x then [] else [s[0]];
      assert RemoveAll(s, x) == h + RemoveAll(s[1..], x);
      assert multiset(RemoveAll(s, x)) == multiset(h) + multiset(RemoveAll(s[1..], x));
    }
  }

  /** Removing an id that is absent changes nothing. */
  lemma {:induction false} RemoveAllAbsent(s: seq<UserId>, x: UserId)
    requires x !in s
    ensures RemoveAll(s, x) == s
  {
    if s != [] {
      assert x !in s[1..];
      RemoveAllAbsent(s[1..], x);
      assert s == [s[0]] + s[1..];
    }
  }

  /** Removing twice is removing once. */
  lemma RemoveAllIdempotent(s: seq<UserId>, x: UserId)
    ensures RemoveAll(RemoveAll(s, x), x) == RemoveAll(s, x)
  {
    RemoveAllSpec(s, x);
    RemoveAllAbsent(RemoveAll(s, x), x);
  }

  /** Filtering distributes over concatenation, so the kept ids keep their order. */
  lemma {:induction false} RemoveAllAppend(s: seq<UserId>, t: seq<UserId>, x: UserId)
    ensures RemoveAll(s + t, x) == RemoveAll(s, x) + RemoveAll(t, x)
  {
    if s != [] {
      RemoveAllAppend(s[1..], t, x);
      assert (s + t)[0] == s[0];
      assert (s + t)[1..] == s[1..] + t;
      var h := if s[0] == x then [] else [s[0]];
      assert RemoveAll(s + t, x) == h + RemoveAll(s[1..] + t, x);
      assert RemoveAll(s, x) == h + RemoveAll(s[1..], x);
      assert h + (RemoveAll(s[1..], x) + RemoveAll(t, x)) == (h + RemoveAll(s[1..], x)) + RemoveAll(t, x);
    } else {
      assert s + t == t;
    }
  }

  /** Filtering keeps the member list free of duplicates. */
  lemma {:induction false} RemoveAllDistinct(s: seq<UserId>, x: UserId)
    requires Distinct(s)
    ensures Distinct(RemoveAll(s, x))
  {
    if s != [] {
      DistinctTail(s);
      RemoveAllDistinct(s[1..], x);
      RemoveAllSpec(s[1..], x);
      var h := if s[0] == x then [] else [s[0]];
      DistinctCons(h, RemoveAll(s[1..], x));
    }
  }

  /** A flat document: the fields the membership rules read and write. */
  class Flat {
    var name: string
    var description: string
    var owner: UserId
    var members: seq<UserId>

    /** What every handler keeps: the owner is a member and no member is listed twice. */
    ghost predicate Valid()
      reads this
    {
      owner in members && Distinct(members)
    }

    constructor (name: string, description: string, owner: UserId)
      ensures this.name == name && this.description == description
      ensures this.owner == owner && members == [owner]
      ensures Valid()
    {
      this.name := name;
      this.description := description;
      this.owner := owner;
      members := [owner];
    }

    /**
     * `POST /flats/:flatId/members`: the email is required, only the owner
     * may add, the user is looked up by the trimmed, lower-cased email, and
     * a member is not added twice; on success the user is appended.
     */
    method AddMember(caller: UserId, email: Value, users: map<string, UserId>) returns (status: int)
      modifies this
      ensures status == AddMemberStatus(old(owner), old(members), caller, email, users)
      ensures status == 200 ==> members == old(members) + [users[Lower(RequiredText(email).text)]]
      ensures status != 200 ==> members == old(members)
      ensures name == old(name) && description == old(description) && owner == old(owner)
      ensures old(Valid()) ==> Valid()
    {
      status := AddMemberStatus(owner, members, caller, email, users);
      if status == 200 {
        var user := users[Lower(RequiredText(email).text)];
        AppendKeepsDistinct(members, user);
        members := members + [user];
      }
    }

    /**
     * `DELETE /flats/:flatId/members/:memberId`: the id must be well
     * formed, only the owner may remove and the owner cannot be removed;
     * otherwise every occurrence of the id is filtered out.
     */
    method RemoveMember(caller: UserId, memberId: string) returns (status: int)
      modifies this
      ensures status == RemoveMemberStatus(old(owner), caller, memberId)
      ensures status == 200 ==> members == RemoveAll(old(members), memberId)
      ensures status != 200 ==> members == old(members)
      ensures name == old(name) && description == old(description) && owner == old(owner)
      ensures old(Valid()) ==> Valid()
    {
      status := RemoveMemberStatus(owner, caller, memberId);
      if status == 200 {
        if Valid() {
          RemoveAllSpec(members, memberId);
          RemoveAllDistinct(members, memberId);
        }
        members := RemoveAll(members, memberId);
      }
    }

    /**
     * Adds a user unless already listed: the accept handler's
     * `if (!isMember) flat.members.push(userId)` and the `$addToSet` of
     * the signup hook.
     */
    method Join(user: UserId)
      modifies this
      ensures members == Joined(old(members), user)
      ensures name == old(name) && description == old(description) && owner == old(owner)
      ensures old(Valid()) ==> Valid()
    {
      if user !in members {
        AppendKeepsDistinct(members, user);
        members := members + [user];
      }
    }
  }

  function Joined(members: seq<UserId>, user: UserId): seq<UserId> {
    if user in members then members else members + [user]
  }

  /**
   * Joining lists the user, keeps every earlier member in place, never
   * lists anyone twice, and joining again changes nothing.
   */
  lemma JoinedIsAddToSet(members: seq<UserId>, user: UserId)
    ensures user in Joined(members, user)
    ensures Joined(members, user)[..|members|] == members
    ensures |Joined(members, user)| <= |members| + 1
    ensures forall x :: x in Joined(members, user) <==> x in members || x == user
    ensures Distinct(members) ==> Distinct(Joined(members, user))
    ensures Joined(Joined(members, user), user) == Joined(members, user)
  {
    if user !in members {
      AppendKeepsDistinct(members, user);
    }
  }

  lemma AppendKeepsDistinct(s: seq<UserId>, x: UserId)
    requires x !in s
    ensures Distinct(s) ==> Distinct(s + [x])
  {
  }

  /** The reply of the add-member handler, checks in source order. */
  function AddMemberStatus(owner: UserId, members: seq<UserId>, caller: UserId, email: Value, users: map<string, UserId>): (status: int)
    ensures status in {200, 400, 403, 404, 500}
  {
    match RequiredText(email)
    case Blank => 400
    case Crash => 500
    case Present(text) =>
      if caller != owner then 403
      else if Lower(text) !in users then 404
      else if users[Lower(text)] in members then 400
      else 200
  }

  /** Adding succeeds exactly for the owner adding an existing user who is not yet a member. */
  lemma AddMemberSucceeds(owner: UserId, members: seq<UserId>, caller: UserId, email: Value, users: map<string, UserId>)
    ensures AddMemberStatus(owner, members, caller, email, users) == 200 <==>
      && email.Str? && Trim(email.s) != []
      && caller == owner
      && Lower(Trim(email.s)) in users
      && users[Lower(Trim(email.s))] !in members
  {
  }

  /** Once added, the same user cannot be added again: the rule rejects duplicates. */
  lemma AddMemberNotTwice(owner: UserId, members: seq<UserId>, email: Value, users: map<string, UserId>)
    requires AddMemberStatus(owner, members, owner, email, users) == 200
    ensures AddMemberStatus(owner, members + [users[Lower(RequiredText(email).text)]], owner, email, users) == 400
  {
  }

  /** The reply of the remove-member handler, checks in source order. */
  function RemoveMemberStatus(owner: UserId, caller: UserId, memberId: string): (status: int)
    ensures status in {200, 400, 403}
  {
    if !ValidObjectIdString(memberId) then 400
    else if caller != owner then 403
    else if memberId == owner then 400
    else 200
  }

  /** A successful removal leaves the owner in place and the target out of the list. */
  lemma RemoveMemberKeepsOwner(owner: UserId, members: seq<UserId>, caller: UserId, memberId: string)
    requires RemoveMemberStatus(owner, caller, memberId) == 200
    requires owner in members
    ensures owner in RemoveAll(members, memberId) && memberId !in RemoveAll(members, memberId)
    ensures caller == owner && memberId != owner
  {
    RemoveAllSpec(members, memberId);
  }

  // ---------------------------------------------------------------------
  // Creating a flat
  // ---------------------------------------------------------------------

  /** What `POST /flats` makes of the body. */
  datatype FlatDraft = Draft(name: string, description: string) | NameRequired | CreateCrashed

  /** `(description || "").trim()`; None when `description` is a truthy non-string. */
  function OptionalText(v: Value): Option<string> {
    if Falsy(v) then Some("") else if v.Str? then Some(Trim(v.s)) else None
  }

  function NewFlat(name: Value, description: Value): FlatDraft {
    match RequiredText(name)
    case Blank => NameRequired
    case Crash => CreateCrashed
    case Present(text) =>
      match OptionalText(description)
      case Some(d) => Draft(text, d)
      case None => CreateCrashed
  }

  /** A draft name is the trimmed name, non-blank; a blank or missing name is refused. */
  lemma NewFlatName(name: Value, description: Value)
    ensures NewFlat(name, description) == NameRequired <==> Falsy(name) || (name.Str? && Trim(name.s) == [])
    ensures NewFlat(name, description).Draft? ==>
      && name.Str? && NewFlat(name, description).name == Trim(name.s) != []
      && Trim(NewFlat(name, description).name) == NewFlat(name, description).name
  {
    if RequiredText(name).Present? {
      PresentIsTrimmed(name);
    }
  }

  /** `POST /flats`: the creator becomes the owner and the only member. */
  method CreateFlat(name: Value, description: Value, creator: UserId) returns (status: int, flat: Flat?)
    ensures status == 201 <==> NewFlat(name, description).Draft?
    ensures status == 400 <==> NewFlat(name, description) == NameRequired
    ensures status == 500 <==> NewFlat(name, description) == CreateCrashed
    ensures status == 201 ==>
      && flat != null && fresh(flat) && flat.Valid()
      && flat.name == NewFlat(name, description).name
      && flat.description == NewFlat(name, description).description
      && flat.owner == creator && flat.members == [creator]
    ensures status != 201 ==> flat == null
  {
    var draft := NewFlat(name, description);
    match draft
    case Draft(n, d) =>
      flat := new Flat(n, d, creator);
      status := 201;
    case NameRequired =>
      flat := null;
      status := 400;
    case CreateCrashed =>
      flat := null;
      status := 500;
  }

  // ---------------------------------------------------------------------
  // Creating an expense and a task
  // ---------------------------------------------------------------------

  datatype ExpenseRejection =
    | TitleRequired
    | AmountNotPositive
    | PaidByRequired
    | PaidByNotMember
    | SplitNotMembers

  /** What `POST /flats/:flatId/expenses` makes of the body, for a member caller. */
  datatype ExpenseDraft =
    | NewExpense(title: string, amount: real, paidBy: UserId, split: seq<UserId>, category: Value, notes: string)
    | Refused(reason: ExpenseRejection)
    | ExpenseCrashed

  /** The split ids that pass `isValidObjectId`, as strings. */
  function ValidIds(items: seq<Value>): (r: seq<UserId>)
    ensures |r| <= |items|
  {
    if items == [] then []
    else (if ValidObjectId(items[0]) then [IdText(items[0])] else []) + ValidIds(items[1..])
  }

  /** The split: the valid ids given, or every member when none remain. */
  function Split(members: seq<UserId>, splitBetween: Value): seq<UserId> {
    var given := if splitBetween.Arr? then ValidIds(splitBetween.items) else [];
    if given == [] then members else given
  }

  function NewFlatExpense(members: seq<UserId>, title: Value, amount: Value, paidBy: Value,
                          splitBetween: Value, category: Value, notes: Value): ExpenseDraft
  {
    match RequiredText(title)
    case Blank => Refused(TitleRequired)
    case Crash => ExpenseCrashed
    case Present(t) =>
      var n := ToNumber(amount);
      if n.None? || n.value <= 0.0 then Refused(AmountNotPositive)
      else if Falsy(paidBy) || !ValidObjectId(paidBy) then Refused(PaidByRequired)
      else
        var split := Split(members, splitBetween);
        if IdText(paidBy) !in members then Refused(PaidByNotMember)
        else if !AllMembers(split, members) then Refused(SplitNotMembers)
        else if notes.Undefined? then NewExpense(t, n.value, IdText(paidBy), split, DefaultCategory(category), "")
        else if notes.Str? then NewExpense(t, n.value, IdText(paidBy), split, DefaultCategory(category), Trim(notes.s))
        else ExpenseCrashed
  }

  predicate AllMembers(ids: seq<UserId>, members: seq<UserId>) {
    forall k :: 0 <= k < |ids| ==> ids[k] in members
  }

  /** The destructuring default: a missing category is "general"; `null` is kept. */
  function DefaultCategory(category: Value): Value {
    if category.Undefined? then Str("general") else category
  }

  /**
   * An accepted expense has a non-blank trimmed title, a positive amount, a
   * member payer and a split of members only, which is every member when the
   * body gave no valid id.
   */
  lemma AcceptedExpense(members: seq<UserId>, title: Value, amount: Value, paidBy: Value,
                        splitBetween: Value, category: Value, notes: Value)
    requires NewFlatExpense(members, title, amount, paidBy, splitBetween, category, notes).NewExpense?
    ensures var e := NewFlatExpense(members, title, amount, paidBy, splitBetween, category, notes);
      && e.title != [] && Trim(e.title) == e.title
      && e.amount > 0.0 && ToNumber(amount) == Some(e.amount)
      && e.paidBy in members
      && AllMembers(e.split, members)
      && e.split == Split(members, splitBetween)
  {
    PresentIsTrimmed(title);
  }

  /** The refusals come in source order: a bad title hides a bad amount, and so on down. */
  lemma RefusalOrder(members: seq<UserId>, title: Value, amount: Value, paidBy: Value,
                     splitBetween: Value, category: Value, notes: Value)
    ensures var r := NewFlatExpense(members, title, amount, paidBy, splitBetween, category, notes);
      && (r == Refused(TitleRequired) <==> RequiredText(title) == Blank)
      && (r == Refused(AmountNotPositive) <==>
            RequiredText(title).Present? && (ToNumber(amount).None? || ToNumber(amount).value <= 0.0))
      && (r == Refused(PaidByRequired) ==>
            RequiredText(title).Present? && ToNumber(amount).Some? && ToNumber(amount).value > 0.0)
  {
    var r := NewFlatExpense(members, title, amount, paidBy, splitBetween, category, notes);
    match RequiredText(title)
    case Blank =>
    case Crash =>
    case Present(t) =>
      var n := ToNumber(amount);
      assert r == Refused(AmountNotPositive) <==> n.None? || n.value <= 0.0;
  }

  /** The split is the valid ids given when there are any, else every member. */
  lemma SplitDefault(members: seq<UserId>, splitBetween: Value)
    ensures !splitBetween.Arr? ==> Split(members, splitBetween) == members
    ensures splitBetween.Arr? && (forall k :: 0 <= k < |splitBetween.items| ==> !ValidObjectId(splitBetween.items[k]))
      ==> Split(members, splitBetween) == members
    ensures splitBetween.Arr? && ValidIds(splitBetween.items) != [] ==> Split(members, splitBetween) == ValidIds(splitBetween.items)
  {
    if splitBetween.Arr? {
      NoValidIds(splitBetween.items);
    }
  }

  /**
   * The filter keeps exactly the text of the valid items, and leaves nothing
   * exactly when no item is valid.
   */
  lemma {:induction false} ValidIdsCorrect(items: seq<Value>)
    ensures forall x :: x in ValidIds(items) <==>
      exists k :: 0 <= k < |items| && ValidObjectId(items[k]) && IdText(items[k]) == x
    ensures ValidIds(items) == [] <==> forall k :: 0 <= k < |items| ==> !ValidObjectId(items[k])
  {
    if items != [] {
      var rest := items[1..];
      ValidIdsCorrect(rest);
      assert forall k :: 0 <= k < |rest| ==> rest[k] == items[k + 1];
      forall x | x in ValidIds(items)
        ensures exists k :: 0 <= k < |items| && ValidObjectId(items[k]) && IdText(items[k]) == x
      {
        if x !in ValidIds(rest) {
          assert ValidObjectId(items[0]) && IdText(items[0]) == x;
        } else {
          var k :| 0 <= k < |rest| && ValidObjectId(rest[k]) && IdText(rest[k]) == x;
          assert items[k + 1] == rest[k];
        }
      }
      forall x | exists k :: 0 <= k < |items| && ValidObjectId(items[k]) && IdText(items[k]) == x
        ensures x in ValidIds(items)
      {
        var k :| 0 <= k < |items| && ValidObjectId(items[k]) && IdText(items[k]) == x;
        if k > 0 {
          assert rest[k - 1] == items[k];
        }
      }
    }
  }

  /** The filter keeps the items' order: filtering a concatenation concatenates the filtered parts. */
  lemma {:induction false} ValidIdsAppend(a: seq<Value>, b: seq<Value>)
    ensures ValidIds(a + b) == ValidIds(a) + ValidIds(b)
  {
    if a == [] {
      assert a + b == b;
    } else {
      var h := if ValidObjectId(a[0]) then [IdText(a[0])] else [];
      assert (a + b)[0] == a[0];
      assert (a + b)[1..] == a[1..] + b;
      calc {
        ValidIds(a + b);
        h + ValidIds(a[1..] + b);
        { ValidIdsAppend(a[1..], b); }
        h + (ValidIds(a[1..]) + ValidIds(b));
        (h + ValidIds(a[1..])) + ValidIds(b);
      }
    }
  }

  lemma {:induction false} NoValidIds(items: seq<Value>)
    ensures (forall k :: 0 <= k < |items| ==> !ValidObjectId(items[k])) ==> ValidIds(items) == []
  {
    if items != [] {
      NoValidIds(items[1..]);
      assert forall k :: 0 <= k < |items[1..]| ==> items[1..][k] == items[k + 1];
    }
  }

  datatype TaskRejection = TaskTitleRequired | AssigneeInvalid | AssigneeNotMember | TaskCrashed

  /** The checks of `POST /flats/:flatId/tasks` on the title and `assignedTo`. */
  function TaskCheck(members: seq<UserId>, title: Value, assignedTo: Value): Option<TaskRejection> {
    match RequiredText(title)
    case Blank => Some(TaskTitleRequired)
    case Crash => Some(TaskCrashed)
    case Present(_) =>
      if Falsy(assignedTo) then None
      else if !ValidObjectId(assignedTo) then Some(AssigneeInvalid)
      else if IdText(assignedTo) !in members then Some(AssigneeNotMember)
      else None
  }

  /** With a good title, a task is accepted exactly when it is unassigned or assigned to a member. */
  lemma TaskAssignee(members: seq<UserId>, title: Value, assignedTo: Value)
    requires RequiredText(title).Present?
    ensures TaskCheck(members, title, assignedTo).None? <==>
      Falsy(assignedTo) || (ValidObjectId(assignedTo) && IdText(assignedTo) in members)
  {
  }

  // ---------------------------------------------------------------------
  // Accepted expenses and the balance
  // ---------------------------------------------------------------------

  /** The stored document for an accepted draft; a category that is not a string is stored as missing. */
  function Stored(d: ExpenseDraft, date: Moment, createdBy: UserId): Expense
    requires d.NewExpense?
  {
    Expense(d.title, d.amount, d.paidBy, d.split, date, if d.category.Str? then d.category.s else "", d.notes, createdBy)
  }

  /** What the checks guarantee of every expense this route stores. */
  predicate Admitted(members: seq<UserId>, e: Expense) {
    && e.amount > 0.0
    && e.paidBy in members
    && |e.splitBetween| > 0
    && AllMembers(e.splitBetween, members)
  }

  /** Every expense the route accepts for a flat with members is admitted. */
  lemma AcceptedIsAdmitted(members: seq<UserId>, title: Value, amount: Value, paidBy: Value,
                           splitBetween: Value, category: Value, notes: Value, date: Moment, createdBy: UserId)
    requires members != []
    requires NewFlatExpense(members, title, amount, paidBy, splitBetween, category, notes).NewExpense?
    ensures Admitted(members, Stored(NewFlatExpense(members, title, amount, paidBy, splitBetween, category, notes), date, createdBy))
  {
    AcceptedExpense(members, title, amount, paidBy, splitBetween, category, notes);
  }

  /**
   * Admitted expenses are booked by every copy of the fold and move money
   * only between members, so the members' nets add up to zero.
   */
  lemma AdmittedExpensesBalance(f: Ledger.Fold, members: seq<UserId>, expenses: seq<Expense>)
    requires Distinct(members)
    requires forall n :: 0 <= n < |expenses| ==> Admitted(members, expenses[n])
    ensures forall n :: 0 <= n < |expenses| ==> Ledger.Counted(f, expenses[n])
    ensures Ledger.SumOver(members, Ledger.Balances(f, members, expenses)) == 0.0
  {
    assert Ledger.Covered(f, members, expenses, members);
    Ledger.Conservation(f, members, expenses, members);
  }
}
