/**
 * Entities shared by the route handlers: user ids, calendar instants, the
 * stored expense record and the membership check every handler starts with.
 */
module Domain {
  import opened Wrappers

  /** A user id (the string form of a database ObjectId). */
  type UserId = string

  /** No user id occurs twice. */
  predicate Distinct(us: seq<UserId>) {
    forall a, b :: 0 <= a < b < |us| ==> us[a] != us[b]
  }

  /** The tail of a list without duplicates has none, and lacks the head. */
  lemma {:induction false} DistinctTail(s: seq<UserId>)
    requires Distinct(s) && s != []
    ensures Distinct(s[1..]) && s[0] !in s[1..]
  {
    forall a, b | 0 <= a < b < |s[1..]| ensures s[1..][a] != s[1..][b] {
      assert s[1..][a] == s[a + 1] && s[1..][b] == s[b + 1];
    }
    forall k | 0 <= k < |s[1..]| ensures s[1..][k] != s[0] {
      assert s[1..][k] == s[k + 1];
    }
  }

  /** Putting an absent id (or nothing) in front keeps a list free of duplicates. */
  lemma DistinctCons(h: seq<UserId>, s: seq<UserId>)
    requires |h| <= 1 && Distinct(s)
    requires forall x :: x in h ==> x !in s
    ensures Distinct(h + s)
  {
    if |h| == 1 {
      forall a, b | 0 <= a < b < |h + s| ensures (h + s)[a] != (h + s)[b] {
        if a == 0 {
          assert (h + s)[a] == h[0] && (h + s)[b] == s[b - 1];
          assert s[b - 1] in s;
        } else {
          assert (h + s)[a] == s[a - 1] && (h + s)[b] == s[b - 1];
        }
      }
    } else {
      assert h + s == s;
    }
  }


  /**
   * A local calendar instant: month is 0-based as in JavaScript's Date, day
   * is 1-based and `millis` counts milliseconds since local midnight.
   */
  datatype Moment = Moment(year: int, month: int, day: int, millis: int)

  predicate WellFormed(t: Moment) {
    0 <= t.month < 12 && 1 <= t.day <= 31 && 0 <= t.millis < 86_400_000
  }

  /** Chronological order of well-formed instants. */
  predicate Before(a: Moment, b: Moment) {
    || a.year < b.year
    || (a.year == b.year && a.month < b.month)
    || (a.year == b.year && a.month == b.month && a.day < b.day)
    || (a.year == b.year && a.month == b.month && a.day == b.day && a.millis < b.millis)
  }

  /** A stored expense document, with the fields the handlers read. */
  datatype Expense = Expense(
    title: string,
    amount: real,
    paidBy: UserId,
    splitBetween: seq<UserId>,
    date: Moment,
    category: string,
    notes: string,
    createdBy: UserId)

  /** What `ensureMember` answers. */
  datatype Access = Allowed | FlatNotFound | NotAllowed {
    /** The HTTP status a rejecting handler replies with. */
    function Status(): int
      requires !Allowed?
    {
      if FlatNotFound? then 404 else 403
    }
  }

  /**
   * `ensureMember(flatId, userId)`: the flat (here its member list, None when
   * the lookup finds nothing) must exist and list the user.
   */
  function EnsureMember(flat: Option<seq<UserId>>, user: UserId): (r: Access)
    ensures r == FlatNotFound <==> flat.None?
    ensures r == NotAllowed <==> flat.Some? && user !in flat.value
    ensures r == Allowed <==> flat.Some? && user in flat.value
  {
    match flat
    case None => FlatNotFound
    case Some(members) => if user in members then Allowed else NotAllowed
  }
}
