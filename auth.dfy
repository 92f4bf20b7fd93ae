/**
 * `POST /auth/signup`: the empty-field, email and password checks, and the
 * hook that accepts every live invitation sent to the new user's email.
 */
module Auth {
  import opened Wrappers
  import opened Text
  import opened Js
  import opened Domain
  import opened Flats
  import opened Invitations

  // ---------------------------------------------------------------------
  // The email pattern /^[^\s@]+@[^\s@]+\.[^\s@]{2,}$/
  // ---------------------------------------------------------------------

  /** `[^\s@]`. */
  predicate Plain(c: char) {
    !IsSpace(c) && c != '@'
  }

  predicate AllPlain(s: string) {
    forall k :: 0 <= k < |s| ==> Plain(s[k])
  }

  /**
   * What the pattern matches: a non-empty local part, `@`, a non-empty
   * domain part, a dot and at least two more characters, none of the three
   * parts holding white space or `@`.
   */
  predicate EmailPattern(s: string) {
    exists i, j :: 1 <= i && i + 2 <= j && j + 3 <= |s| && s[i] == '@' && s[j] == '.'
      && AllPlain(s[..i]) && AllPlain(s[i + 1..j]) && AllPlain(s[j + 1..])
  }

  /** The check by scanning: the first `@`, every other character plain, and a dot late enough after it. */
  function EmailCheck(s: string): bool {
    var at := IndexOf(s, '@');
    if at < 1 || at + 2 > |s| then false
    else
      var dot := IndexOf(s[at + 2..], '.');
      && (forall k :: 0 <= k < |s| && k != at ==> Plain(s[k]))
      && at + 2 + dot + 3 <= |s|
  }

  lemma EmailCheckSound(s: string)
    requires EmailCheck(s)
    ensures EmailPattern(s)
  {
    var at := IndexOf(s, '@');
    var dot := IndexOf(s[at + 2..], '.');
    var j := at + 2 + dot;
    assert s[j] == s[at + 2..][dot];
    PlainSlice(s, 0, at);
    PlainSlice(s, at + 1, j);
    PlainSlice(s, j + 1, |s|);
  }

  lemma PlainSlice(s: string, lo: int, hi: int)
    requires 0 <= lo <= hi <= |s|
    requires forall k :: lo <= k < hi ==> Plain(s[k])
    ensures AllPlain(s[lo..hi])
  {
    assert forall k :: 0 <= k < hi - lo ==> s[lo..hi][k] == s[lo + k];
  }

  lemma EmailCheckComplete(s: string)
    requires EmailPattern(s)
    ensures EmailCheck(s)
  {
    var i, j :| 1 <= i && i + 2 <= j && j + 3 <= |s| && s[i] == '@' && s[j] == '.'
      && AllPlain(s[..i]) && AllPlain(s[i + 1..j]) && AllPlain(s[j + 1..]);
    PlainOutsideAt(s, i, j);
    FirstAt(s, i);
    DotWithin(s[i + 2..], j - i - 2);
    assert s[i + 2..][j - i - 2] == s[j];
  }

  /** The only `@` is the first one. */
  lemma FirstAt(s: string, i: nat)
    requires i < |s| && s[i] == '@'
    requires forall k :: 0 <= k < |s| && k != i ==> Plain(s[k])
    ensures IndexOf(s, '@') == i
  {
    var at := IndexOf(s, '@');
    assert at <= i;
    assert s[at] == '@' && !Plain(s[at]);
  }

  lemma DotWithin(t: string, d: nat)
    requires d < |t| && t[d] == '.'
    ensures IndexOf(t, '.') <= d
  {
  }

  lemma PlainOutsideAt(s: string, i: int, j: int)
    requires 1 <= i && i + 2 <= j && j + 3 <= |s| && s[j] == '.'
    requires AllPlain(s[..i]) && AllPlain(s[i + 1..j]) && AllPlain(s[j + 1..])
    ensures forall k :: 0 <= k < |s| && k != i ==> Plain(s[k])
  {
    forall k | 0 <= k < |s| && k != i ensures Plain(s[k]) {
      if k < i {
        PlainAt(s, 0, i, k);
      } else if k < j {
        PlainAt(s, i + 1, j, k);
      } else if k > j {
        PlainAt(s, j + 1, |s|, k);
      }
    }
  }

  lemma PlainAt(s: string, lo: int, hi: int, k: int)
    requires 0 <= lo <= k < hi <= |s| && AllPlain(s[lo..hi])
    ensures Plain(s[k])
  {
    assert s[lo..hi][k - lo] == s[k];
  }

  /**
   * The scan and the pattern agree; a matching address has a single `@` and
   * no white space anywhere, so trimming it changes nothing.
   */
  lemma EmailCheckIsThePattern(s: string)
    ensures EmailCheck(s) <==> EmailPattern(s)
    ensures EmailCheck(s) ==> forall k :: 0 <= k < |s| ==> !IsSpace(s[k]) && (s[k] == '@' <==> k == IndexOf(s, '@'))
  {
    if EmailCheck(s) {
      EmailCheckSound(s);
    }
    if EmailPattern(s) {
      EmailCheckComplete(s);
    }
  }

  // ---------------------------------------------------------------------
  // The password pattern /(?=.*\d)(?=.*[a-z])(?=.*[A-Z]).{6,}/
  // ---------------------------------------------------------------------

  datatype CharClass = Digit | LowerLetter | UpperLetter

  predicate InClass(c: char, k: CharClass) {
    match k
    case Digit => '0' <= c <= '9'
    case LowerLetter => 'a' <= c <= 'z'
    case UpperLetter => 'A' <= c <= 'Z'
  }

  /** `.` matches every character from `p` up to `q`. */
  predicate NoBreak(s: string, p: int, q: int)
    requires 0 <= p <= q <= |s|
  {
    forall k :: p <= k < q ==> !IsLineTerminator(s[k])
  }

  /** The lookahead `(?=.*X)` at position `p`. */
  predicate Ahead(s: string, p: int, k: CharClass)
    requires 0 <= p <= |s|
  {
    exists q :: p <= q < |s| && InClass(s[q], k) && NoBreak(s, p, q)
  }

  /**
   * The unanchored pattern matches when at some position all three
   * lookaheads succeed and six characters other than line terminators follow.
   */
  predicate PasswordPattern(s: string) {
    exists p :: 0 <= p && p + 6 <= |s| && NoBreak(s, p, p + 6)
      && Ahead(s, p, Digit) && Ahead(s, p, LowerLetter) && Ahead(s, p, UpperLetter)
  }

  predicate Has(s: string, k: CharClass) {
    exists q :: 0 <= q < |s| && InClass(s[q], k)
  }

  /** The rule the error message states. */
  predicate PasswordRule(s: string) {
    |s| >= 6 && Has(s, Digit) && Has(s, LowerLetter) && Has(s, UpperLetter)
  }

  /** The pattern never accepts a password that breaks the stated rule. */
  lemma PatternMeansRule(s: string)
    requires PasswordPattern(s)
    ensures PasswordRule(s)
  {
    var p :| 0 <= p && p + 6 <= |s| && NoBreak(s, p, p + 6)
      && Ahead(s, p, Digit) && Ahead(s, p, LowerLetter) && Ahead(s, p, UpperLetter);
    var d :| p <= d < |s| && InClass(s[d], Digit) && NoBreak(s, p, d);
    var l :| p <= l < |s| && InClass(s[l], LowerLetter) && NoBreak(s, p, l);
    var u :| p <= u < |s| && InClass(s[u], UpperLetter) && NoBreak(s, p, u);
  }

  /** Without line terminators the pattern is exactly the stated rule. */
  lemma PatternIsRuleOnOneLine(s: string)
    requires forall k :: 0 <= k < |s| ==> !IsLineTerminator(s[k])
    ensures PasswordPattern(s) <==> PasswordRule(s)
  {
    if PasswordPattern(s) {
      PatternMeansRule(s);
    }
    if PasswordRule(s) {
      var d :| 0 <= d < |s| && InClass(s[d], Digit);
      var l :| 0 <= l < |s| && InClass(s[l], LowerLetter);
      var u :| 0 <= u < |s| && InClass(s[u], UpperLetter);
      assert NoBreak(s, 0, d) && NoBreak(s, 0, l) && NoBreak(s, 0, u) && NoBreak(s, 0, 6);
      assert Ahead(s, 0, Digit) && Ahead(s, 0, LowerLetter) && Ahead(s, 0, UpperLetter);
    }
  }

  /**
   * Because `.` stops at a line break, a password that meets the stated rule
   * can still be refused: in "abcdef\nA1" no position reaches the digit and
   * the capital through six break-free characters.
   */
  lemma LineBreakRefused()
    ensures PasswordRule("abcdef\nA1") && !PasswordPattern("abcdef\nA1")
  {
    var s := "abcdef\nA1";
    assert InClass(s[8], Digit) && InClass(s[0], LowerLetter) && InClass(s[7], UpperLetter);
    assert IsLineTerminator(s[6]);
    forall p | 0 <= p && p + 6 <= |s| && NoBreak(s, p, p + 6) ensures !Ahead(s, p, Digit) {
      assert p == 0;
      forall q | p <= q < |s| && InClass(s[q], Digit) ensures !NoBreak(s, p, q) {
        assert q == 8;
      }
    }
  }

  // ---------------------------------------------------------------------
  // Signing up
  // ---------------------------------------------------------------------

  datatype SignupOutcome =
    | FieldMissing
    | InvalidEmail
    | WeakPassword
    | UserExists
    | SignupCrashed
    | Created(email: string, name: string)

  /**
   * The signup checks in source order; `registered` holds the emails of the
   * existing users. Only a field that is exactly "" counts as missing, so a
   * request without a name reaches `name.trim()` and fails there.
   */
  function Signup(email: Value, password: Value, name: Value, registered: set<string>): SignupOutcome {
    if email == Str("") || password == Str("") || name == Str("") then FieldMissing
    else if !email.Str? || !EmailCheck(email.s) then InvalidEmail
    else if !password.Str? || !PasswordPattern(password.s) then WeakPassword
    else if Lower(Trim(email.s)) in registered then UserExists
    else if !name.Str? then SignupCrashed
    else Created(Lower(Trim(email.s)), Trim(name.s))
  }

  /**
   * A user is created exactly for a matching email that is not yet
   * registered, a password matching the pattern and a string name; the
   * stored email is the lower-cased address and the name is trimmed.
   */
  lemma SignupCreates(email: Value, password: Value, name: Value, registered: set<string>)
    ensures Signup(email, password, name, registered).Created? <==>
      && email.Str? && EmailPattern(email.s)
      && password.Str? && PasswordPattern(password.s)
      && Lower(email.s) !in registered
      && name.Str? && name.s != []
    ensures Signup(email, password, name, registered).Created? ==>
      Signup(email, password, name, registered) == Created(Lower(email.s), Trim(name.s))
  {
    SignupAccepts(email, password, name, registered);
    if email.Str? {
      EmailCheckIsThePattern(email.s);
      if EmailCheck(email.s) {
        NoSpaceTrim(email.s);
      }
    }
  }

  lemma SignupAccepts(email: Value, password: Value, name: Value, registered: set<string>)
    ensures Signup(email, password, name, registered).Created? <==>
      && email.Str? && EmailCheck(email.s)
      && password.Str? && PasswordPattern(password.s)
      && Lower(Trim(email.s)) !in registered
      && name.Str? && name.s != []
    ensures Signup(email, password, name, registered).Created? ==>
      Signup(email, password, name, registered) == Created(Lower(Trim(email.s)), Trim(name.s))
  {
    var r := Signup(email, password, name, registered);
    var emailOk := email.Str? && EmailCheck(email.s);
    var passwordOk := password.Str? && PasswordPattern(password.s);
    if emailOk {
      assert |email.s| > 0;
    }
    if passwordOk {
      PatternLength(password.s);
    }
    if !emailOk || !passwordOk {
      assert !r.Created?;
    }
  }

  lemma PatternLength(s: string)
    requires PasswordPattern(s)
    ensures |s| >= 6
  {
  }

  /** A string without white space is its own trim. */
  lemma NoSpaceTrim(s: string)
    requires forall k :: 0 <= k < |s| ==> !IsSpace(s[k])
    ensures Trim(s) == s
  {
    if s != [] {
      assert !IsSpace(s[0]) && !IsSpace(s[|s| - 1]);
    }
    TrimKeepsTrimmed(s);
  }

  /** A field sent as "" is refused before anything else is looked at. */
  lemma EmptyFieldFirst(email: Value, password: Value, name: Value, registered: set<string>)
    requires email == Str("") || password == Str("") || name == Str("")
    ensures Signup(email, password, name, registered) == FieldMissing
  {
  }

  /** A valid request without a name is not refused by the empty-field check: it crashes at `name.trim()`. */
  lemma MissingNameCrashes(email: string, password: string, registered: set<string>)
    requires EmailCheck(email) && PasswordPattern(password) && Lower(Trim(email)) !in registered
    ensures Signup(Str(email), Str(password), Undefined, registered) == SignupCrashed
  {
    EmailCheckNonEmpty(email);
    PatternLength(password);
    assert Str(email) != Str("") && Str(password) != Str("");
  }

  lemma EmailCheckNonEmpty(s: string)
    requires EmailCheck(s)
    ensures s != ""
  {
    assert IndexOf(s, '@') >= 1;
  }

  // ---------------------------------------------------------------------
  // Accepting the pending invitations of a new user
  // ---------------------------------------------------------------------

  /** No string twice, first occurrences kept in order: `[...new Set(ids)]`. */
  function Dedup(s: seq<string>): seq<string>
    decreases |s|
  {
    if s == [] then []
    else
      var d := Dedup(s[..|s| - 1]);
      if s[|s| - 1] in d then d else d + [s[|s| - 1]]
  }

  lemma {:induction false} DedupCorrect(s: seq<string>)
    ensures Distinct(Dedup(s))
    ensures forall x :: x in Dedup(s) <==> x in s
    decreases |s|
  {
    if s != [] {
      var init, last := s[..|s| - 1], s[|s| - 1];
      DedupCorrect(init);
      if last !in Dedup(init) {
        AppendKeepsDistinct(Dedup(init), last);
      }
      assert s == init + [last];
    }
  }

  /** `.filter(id => mongoose.Types.ObjectId.isValid(id))`. */
  function ValidOnly(s: seq<string>): (r: seq<string>)
    ensures forall x :: x in r <==> x in s && ValidObjectIdString(x)
  {
    if s == [] then []
    else (if ValidObjectIdString(s[0]) then [s[0]] else []) + ValidOnly(s[1..])
  }

  lemma {:induction false} ValidOnlyDistinct(s: seq<string>)
    requires Distinct(s)
    ensures Distinct(ValidOnly(s))
  {
    if s != [] {
      DistinctTail(s);
      ValidOnlyDistinct(s[1..]);
      DistinctCons(if ValidObjectIdString(s[0]) then [s[0]] else [], ValidOnly(s[1..]));
    }
  }

  function FlatsOf(pending: seq<Invitation>): (r: seq<string>)
    ensures forall x :: x in r <==> exists i :: i in pending && i.flat == x
  {
    if pending == [] then []
    else
      var r := [pending[0].flat] + FlatsOf(pending[1..]);
      assert forall i :: i in pending[1..] ==> i in pending;
      assert forall i :: i in pending && i != pending[0] ==> i in pending[1..];
      r
  }

  /** `Invitation.find({ email, status: "pending", expiresAt: { $gt: now } })`. */
  function Selected(store: seq<Invitation>, cleanEmail: string, now: int): (r: seq<Invitation>)
    reads set i | i in store
    ensures forall i :: i in r ==> i in store && i.status == Pending && i.email == cleanEmail && i.expiresAt > now
    ensures forall i :: i in store && i.status == Pending && i.email == cleanEmail && i.expiresAt > now ==> i in r
  {
    if store == [] then []
    else
      var i := store[0];
      assert forall j :: j in store[1..] ==> j in store;
      assert forall j :: j in store && j != i ==> j in store[1..];
      (if i.status == Pending && i.email == cleanEmail && i.expiresAt > now then [i] else []) + Selected(store[1..], cleanEmail, now)
  }

  /** The flat ids of the selected invitations, without repeats, kept when well formed. */
  function InvitedFlats(pending: seq<Invitation>): (r: seq<string>)
    ensures Distinct(r)
    ensures forall x :: x in r <==> ValidObjectIdString(x) && exists i :: i in pending && i.flat == x
  {
    DedupCorrect(FlatsOf(pending));
    ValidOnlyDistinct(Dedup(FlatsOf(pending)));
    ValidOnly(Dedup(FlatsOf(pending)))
  }

  /**
   * `acceptPendingInvitesForEmail({ userId, email })`. The address is
   * lower-cased and trimmed; a blank one changes nothing. Each invitation
   * to it that is pending and expires after `now` is marked accepted, and
   * the user joins each well-formed flat id they name, at most once.
   * `directory` maps flat ids to the flats, one flat per id.
   */
  method AcceptPendingInvites(userId: UserId, email: string, store: seq<Invitation>, directory: map<string, Flat>, now: int)
    requires forall a, b :: a in directory && b in directory && a != b ==> directory[a] != directory[b]
    modifies set i | i in store, set id | id in directory :: directory[id]
    ensures forall i :: i in store ==>
      if Claimable(old(i.status), i.email, i.expiresAt, Trim(Lower(email)), now)
      then i.status == Accepted && i.acceptedBy == Some(userId) && i.acceptedAt == Some(now)
      else i.status == old(i.status) && i.acceptedBy == old(i.acceptedBy) && i.acceptedAt == old(i.acceptedAt)
    ensures forall id :: id in directory ==>
      directory[id].members ==
        if ValidObjectIdString(id)
           && exists i :: i in store && Claimable(old(i.status), i.email, i.expiresAt, Trim(Lower(email)), now) && i.flat == id
        then Joined(old(directory[id].members), userId)
        else old(directory[id].members)
    ensures forall id :: id in directory ==>
      directory[id].owner == old(directory[id].owner)
        && directory[id].name == old(directory[id].name) && directory[id].description == old(directory[id].description)
        && (old(directory[id].Valid()) ==> directory[id].Valid())
  {
    AcceptFor(userId, Trim(Lower(email)), store, directory, now);
  }

  /** An invitation the hook picks up for the cleaned address `clean`; a blank address picks up none. */
  predicate Claimable(status: Status, inviteEmail: string, expiresAt: int, clean: string, now: int) {
    clean != [] && status == Pending && inviteEmail == clean && expiresAt > now
  }

  /** The hook for the cleaned address: select, join the flats, mark accepted. */
  method AcceptFor(userId: UserId, clean: string, store: seq<Invitation>, directory: map<string, Flat>, now: int)
    requires forall a, b :: a in directory && b in directory && a != b ==> directory[a] != directory[b]
    modifies set i | i in store, set id | id in directory :: directory[id]
    ensures forall i :: i in store ==>
      if Claimable(old(i.status), i.email, i.expiresAt, clean, now)
      then i.status == Accepted && i.acceptedBy == Some(userId) && i.acceptedAt == Some(now)
      else i.status == old(i.status) && i.acceptedBy == old(i.acceptedBy) && i.acceptedAt == old(i.acceptedAt)
    ensures forall id :: id in directory ==>
      directory[id].members ==
        if ValidObjectIdString(id)
           && exists i :: i in store && Claimable(old(i.status), i.email, i.expiresAt, clean, now) && i.flat == id
        then Joined(old(directory[id].members), userId)
        else old(directory[id].members)
    ensures forall id :: id in directory ==>
      directory[id].owner == old(directory[id].owner)
        && directory[id].name == old(directory[id].name) && directory[id].description == old(directory[id].description)
        && (old(directory[id].Valid()) ==> directory[id].Valid())
  {
    if clean != [] {
      var pending := Selected(store, clean, now);
      var flatIds := InvitedFlats(pending);
      assert forall i :: i in store ==> (i in pending <==> Claimable(old(i.status), i.email, i.expiresAt, clean, now));
      assert forall id :: id in flatIds <==> ValidObjectIdString(id) && exists i :: i in pending && i.flat == id;
      JoinAll(userId, flatIds, directory);
      MarkAccepted(userId, pending, store, now);
    }
  }

  /** `Flat.updateMany({ _id: { $in: flatIds } }, { $addToSet: { members: userId } })`. */
  method JoinAll(userId: UserId, flatIds: seq<string>, directory: map<string, Flat>)
    requires Distinct(flatIds)
    requires forall a, b :: a in directory && b in directory && a != b ==> directory[a] != directory[b]
    modifies set id | id in directory :: directory[id]
    ensures forall id :: id in directory ==>
      directory[id].members == if id in flatIds then Joined(old(directory[id].members), userId) else old(directory[id].members)
    ensures forall id :: id in directory ==>
      directory[id].owner == old(directory[id].owner)
        && directory[id].name == old(directory[id].name) && directory[id].description == old(directory[id].description)
        && (old(directory[id].Valid()) ==> directory[id].Valid())
  {
    for n := 0 to |flatIds|
      invariant forall id :: id in directory ==>
        directory[id].members == if id in flatIds[..n] then Joined(old(directory[id].members), userId) else old(directory[id].members)
      invariant forall id :: id in directory ==>
        directory[id].owner == old(directory[id].owner)
        && directory[id].name == old(directory[id].name) && directory[id].description == old(directory[id].description)
        && (old(directory[id].Valid()) ==> directory[id].Valid())
    {
      var id := flatIds[n];
      assert forall x :: x in flatIds[..n + 1] <==> x in flatIds[..n] || x == id;
      assert id !in flatIds[..n];
      if id in directory {
        directory[id].Join(userId);
      }
    }
    assert flatIds[..|flatIds|] == flatIds;
  }

  /** `Invitation.updateMany({ _id: { $in: pending } }, { status: "accepted", acceptedBy, acceptedAt })`. */
  method MarkAccepted(userId: UserId, pending: seq<Invitation>, store: seq<Invitation>, now: int)
    requires forall i :: i in pending ==> i in store
    modifies set i | i in store
    ensures forall i :: i in store ==>
      if i in pending
      then i.status == Accepted && i.acceptedBy == Some(userId) && i.acceptedAt == Some(now)
      else i.status == old(i.status) && i.acceptedBy == old(i.acceptedBy) && i.acceptedAt == old(i.acceptedAt)
  {
    for n := 0 to |pending|
      invariant forall i :: i in store ==>
        if i in pending[..n]
        then i.status == Accepted && i.acceptedBy == Some(userId) && i.acceptedAt == Some(now)
        else i.status == old(i.status) && i.acceptedBy == old(i.acceptedBy) && i.acceptedAt == old(i.acceptedAt)
    {
      var inv := pending[n];
      assert forall x :: x in pending[..n + 1] <==> x in pending[..n] || x == inv;
      inv.status := Accepted;
      inv.acceptedBy := Some(userId);
      inv.acceptedAt := Some(now);
    }
    assert pending[..|pending|] == pending;
  }
}
