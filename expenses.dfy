/**
 * The expense router: its payload validator, the normalisation of a new
 * expense, the whitelist and checks of an update, and the creator-only rule
 * for editing and deleting.
 */
module Expenses {
  import opened Wrappers
  import opened Text
  import opened Js
  import opened Domain

  datatype PayloadError =
    | TitleRequired
    | AmountRequired
    | AmountNegative
    | PaidByRequired
    | SplitRequired

  /** `validateExpensePayload(body)`: the first check that fails, or None. */
  function ValidatePayload(title: Value, amount: Value, paidBy: Value, splitBetween: Value): Option<PayloadError> {
    if Falsy(title) || !title.Str? then Some(TitleRequired)
    else if amount.Undefined? || amount.Null? || ToNumber(amount).None? then Some(AmountRequired)
    else if ToNumber(amount).value < 0.0 then Some(AmountNegative)
    else if Falsy(paidBy) then Some(PaidByRequired)
    else if !splitBetween.Arr? || splitBetween.items == [] then Some(SplitRequired)
    else None
  }

  /**
   * The validator accepts exactly a non-empty string title, a defined
   * amount that is a number at least 0, a truthy payer and a non-empty
   * array split.
   */
  lemma PayloadAccepted(title: Value, amount: Value, paidBy: Value, splitBetween: Value)
    ensures ValidatePayload(title, amount, paidBy, splitBetween).None? <==>
      && title.Str? && title.s != []
      && !amount.Undefined? && !amount.Null? && ToNumber(amount).Some? && ToNumber(amount).value >= 0.0
      && !Falsy(paidBy)
      && splitBetween.Arr? && |splitBetween.items| > 0
  {
  }

  /** An amount of 0 passes; the validator does not require a positive amount. */
  lemma ZeroAmountAccepted(title: string, paidBy: UserId, split: seq<Value>)
    requires title != [] && paidBy != [] && split != []
    ensures ValidatePayload(Str(title), Num(0.0), Str(paidBy), Arr(split)).None?
  {
  }

  /** The same holds for the text "0", as a form would send it. */
  lemma ZeroTextAccepted(title: string, paidBy: UserId, split: seq<Value>)
    requires title != [] && paidBy != [] && split != []
    ensures ValidatePayload(Str(title), Str(Decimal(0)), Str(paidBy), Arr(split)).None?
  {
    var amount := Str(Decimal(0));
    NumberOfDecimal(0);
    assert ToNumber(amount) == Some(0.0);
    PayloadAccepted(Str(title), amount, Str(paidBy), Arr(split));
  }

  /** The checks run in a fixed order: each error is reported only when every earlier check passed. */
  lemma PayloadErrorOrder(title: Value, amount: Value, paidBy: Value, splitBetween: Value)
    ensures var r := ValidatePayload(title, amount, paidBy, splitBetween);
      && (r == Some(TitleRequired) <==> Falsy(title) || !title.Str?)
      && (r == Some(AmountRequired) ==> !Falsy(title) && title.Str?)
      && (r == Some(AmountNegative) ==> ToNumber(amount).Some? && ToNumber(amount).value < 0.0)
      && (r == Some(PaidByRequired) ==> ToNumber(amount).Some? && ToNumber(amount).value >= 0.0 && title.Str?)
      && (r == Some(SplitRequired) ==> !Falsy(paidBy) && ToNumber(amount).Some? && ToNumber(amount).value >= 0.0)
  {
  }

  /** `Array.isArray(splitBetween) ? splitBetween : []` in the create handler. */
  function CreateSplit(splitBetween: Value): (r: seq<Value>)
    ensures !splitBetween.Arr? ==> r == []
    ensures splitBetween.Arr? ==> r == splitBetween.items
  {
    if splitBetween.Arr? then splitBetween.items else []
  }

  /**
   * The stored split is non-empty exactly when the body gave a non-empty
   * array, and for a payload the validator accepts it is that array,
   * unchanged.
   */
  lemma StoredSplit(title: Value, amount: Value, paidBy: Value, splitBetween: Value)
    ensures CreateSplit(splitBetween) != [] <==> splitBetween.Arr? && splitBetween.items != []
    ensures ValidatePayload(title, amount, paidBy, splitBetween).None? ==>
      splitBetween.Arr? && CreateSplit(splitBetween) == splitBetween.items && CreateSplit(splitBetween) != []
  {
    PayloadAccepted(title, amount, paidBy, splitBetween);
  }

  // ---------------------------------------------------------------------
  // Updating
  // ---------------------------------------------------------------------

  /** The body keys an update may copy. */
  const ALLOWED: seq<string> := ["title", "amount", "category", "paidBy", "splitBetween", "notes", "date"]

  /** The allowed keys the body defines, with the body's values. */
  function Whitelisted(body: map<string, Value>): map<string, Value> {
    map k | k in ALLOWED && k in body && !body[k].Undefined? :: body[k]
  }

  /** `for (const key of allowed) if (req.body[key] !== undefined) update[key] = req.body[key]`. */
  method Whitelist(body: map<string, Value>) returns (update: map<string, Value>)
    ensures forall k :: k in update <==> k in ALLOWED && k in body && !body[k].Undefined?
    ensures forall k :: k in update ==> update[k] == body[k]
    ensures update == Whitelisted(body)
  {
    update := map[];
    for n := 0 to |ALLOWED|
      invariant forall k :: k in update <==> k in ALLOWED[..n] && k in body && !body[k].Undefined?
      invariant forall k :: k in update ==> update[k] == body[k]
    {
      var key := ALLOWED[n];
      assert forall k :: k in ALLOWED[..n + 1] <==> k in ALLOWED[..n] || k == key;
      if key in body && !body[key].Undefined? {
        update := update[key := body[key]];
      }
    }
    assert ALLOWED[..|ALLOWED|] == ALLOWED;
  }

  /** Two bodies that agree on the allowed keys give the same update: every other key is ignored. */
  lemma WhitelistIgnoresOtherKeys(body: map<string, Value>, other: map<string, Value>,
                                  u: map<string, Value>, v: map<string, Value>)
    requires forall k :: k in ALLOWED ==> (k in body <==> k in other) && (k in body ==> body[k] == other[k])
    requires forall k :: k in u <==> k in ALLOWED && k in body && !body[k].Undefined?
    requires forall k :: k in u ==> u[k] == body[k]
    requires forall k :: k in v <==> k in ALLOWED && k in other && !other[k].Undefined?
    requires forall k :: k in v ==> v[k] == other[k]
    ensures u == v
  {
  }

  datatype UpdateError = AmountInvalid | SplitInvalid

  /** The checks after the whitelist: the amount, then the split; the amount is stored as a number. */
  function CheckUpdate(update: map<string, Value>): (r: Result)
  {
    if "amount" in update && (ToNumber(update["amount"]).None? || ToNumber(update["amount"]).value < 0.0)
    then Rejected(AmountInvalid)
    else
      var converted := if "amount" in update then update["amount" := Num(ToNumber(update["amount"]).value)] else update;
      if "splitBetween" in update && (!update["splitBetween"].Arr? || update["splitBetween"].items == [])
      then Rejected(SplitInvalid)
      else Applied(converted)
  }

  datatype Result = Applied(update: map<string, Value>) | Rejected(error: UpdateError)

  /**
   * An update that passes has a number at least 0 as its amount (when it
   * has one) and a non-empty array as its split (when it has one), and
   * changes no key but the ones the body gave.
   */
  lemma CheckedUpdate(update: map<string, Value>)
    ensures CheckUpdate(update).Applied? ==>
      var u := CheckUpdate(update).update;
      && u.Keys == update.Keys
      && ("amount" in u ==> u["amount"].Num? && u["amount"].x >= 0.0 && ToNumber(update["amount"]) == Some(u["amount"].x))
      && ("splitBetween" in u ==> u["splitBetween"].Arr? && u["splitBetween"].items != [])
      && (forall k :: k in u && k != "amount" ==> u[k] == update[k])
    ensures CheckUpdate(update).Applied? <==>
      && ("amount" in update ==> ToNumber(update["amount"]).Some? && ToNumber(update["amount"]).value >= 0.0)
      && ("splitBetween" in update ==> update["splitBetween"].Arr? && update["splitBetween"].items != [])
    ensures CheckUpdate(update) == Rejected(AmountInvalid) <==>
      "amount" in update && (ToNumber(update["amount"]).None? || ToNumber(update["amount"]).value < 0.0)
    ensures CheckUpdate(update) == Rejected(SplitInvalid) <==>
      && ("amount" in update ==> ToNumber(update["amount"]).Some? && ToNumber(update["amount"]).value >= 0.0)
      && "splitBetween" in update && (!update["splitBetween"].Arr? || update["splitBetween"].items == [])
  {
  }

  /** `findByIdAndUpdate(id, update)`: the given keys are overwritten, all others kept. */
  function ApplyUpdate(doc: map<string, Value>, update: map<string, Value>): (r: map<string, Value>)
    ensures forall k :: k in update ==> k in r && r[k] == update[k]
    ensures forall k :: k !in update && k in doc ==> k in r && r[k] == doc[k]
    ensures r.Keys == doc.Keys + update.Keys
  {
    doc + update
  }

  /**
   * The update handler after the access checks: it succeeds exactly when the
   * whitelisted body passes the checks, and then stores the checked update
   * over the document; keys outside the whitelist never change, and nothing
   * does when the checks fail.
   */
  method UpdateExpense(doc: map<string, Value>, body: map<string, Value>) returns (status: int, result: map<string, Value>)
    ensures status == 200 || status == 400
    ensures status == 200 <==> CheckUpdate(Whitelisted(body)).Applied?
    ensures status == 200 ==> result == ApplyUpdate(doc, CheckUpdate(Whitelisted(body)).update)
    ensures status == 400 ==> result == doc
    ensures forall k :: k !in ALLOWED && k in doc ==> k in result && result[k] == doc[k]
    ensures forall k :: k in result && k !in doc ==> k in ALLOWED && k in body
  {
    var update := Whitelist(body);
    match CheckUpdate(update)
    case Rejected(_) =>
      status, result := 400, doc;
    case Applied(u) =>
      CheckedUpdate(update);
      status, result := 200, ApplyUpdate(doc, u);
  }

  // ---------------------------------------------------------------------
  // Who may edit or delete
  // ---------------------------------------------------------------------

  datatype EditDecision = EditAllowed | ExpenseNotFound | Denied(access: Access) | NotCreator

  /**
   * The shared prelude of `PUT` and `DELETE /expenses/:expenseId`: the
   * expense must exist (given as its creator and its flat's member list),
   * the caller must be a member of its flat, and only then is the creator
   * compared.
   */
  function EditAccess(expense: Option<(UserId, Option<seq<UserId>>)>, caller: UserId): EditDecision {
    match expense
    case None => ExpenseNotFound
    case Some((createdBy, flat)) =>
      var access := EnsureMember(flat, caller);
      if !access.Allowed? then Denied(access)
      else if createdBy != caller then NotCreator
      else EditAllowed
  }

  function EditStatus(d: EditDecision): int {
    match d
    case EditAllowed => 200
    case ExpenseNotFound => 404
    case Denied(access) => if access.Allowed? then 200 else access.Status()
    case NotCreator => 403
  }

  /**
   * Only the creator, being a member, may edit or delete; a creator who has
   * left the flat is refused by the membership check, before the creator
   * check.
   */
  lemma OnlyCreatorEdits(expense: Option<(UserId, Option<seq<UserId>>)>, caller: UserId)
    ensures EditAccess(expense, caller) == EditAllowed <==>
      expense.Some? && expense.value.0 == caller && expense.value.1.Some? && caller in expense.value.1.value
    ensures expense.Some? && expense.value.1.None? ==> EditStatus(EditAccess(expense, caller)) == 404
    ensures expense.Some? && expense.value.1.Some? && caller !in expense.value.1.value ==>
      EditAccess(expense, caller) == Denied(NotAllowed) && EditStatus(EditAccess(expense, caller)) == 403
  {
  }
}
