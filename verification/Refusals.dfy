/** Which error every refused command answers with, and the status the user then sees. */
module Refusals {
  import opened Tables
  import opened Transactions
  import opened Invariant
  import opened SeatCounts
  import opened Allocation
  import Errors

  /** The entries before `k` can all be served. */
  ghost predicate ServedBefore(db: Db, c: Command, k: nat)
    requires c.Create? && k <= |c.entries|
  {
    forall m | 0 <= m < k :: 0 <= c.entries[m].quantity <= Offer(db, c.game, c.entries[m].grade, c.now)
  }

  /** Entry `k` is the first that cannot be served. */
  ghost predicate FirstUnserved(db: Db, c: Command, k: nat)
    requires c.Create? && k < |c.entries|
  {
    && ServedBefore(db, c, k)
    && !(0 <= c.entries[k].quantity <= Offer(db, c.game, c.entries[k].grade, c.now))
  }

  lemma {:induction false} SelectErrorAt(entries: seq<Entry>, picks: seq<seq<TicketId>>, k: nat)
    requires |picks| == |entries| && k < |entries|
    requires forall m | 0 <= m < k :: 0 <= entries[m].quantity <= |picks[m]|
    requires !(0 <= entries[k].quantity <= |picks[k]|)
    ensures SelectError(entries, picks) == Some(if entries[k].quantity < 0 then NegativeLimit else InsufficientTickets)
  {
    if k > 0 {
      SelectErrorAt(entries[1..], picks[1..], k - 1);
    }
  }

  lemma PickSeesTheOffer(db: Db, c: Command, k: nat)
    requires Consistent(db) && c.Create? && Legal(db, c) && k < |c.entries|
    ensures 0 <= c.entries[k].quantity <= |c.picks[k]|
            <==> 0 <= c.entries[k].quantity <= Offer(db, c.game, c.entries[k].grade, c.now)
  {
    SelectionSeesTheOffer(db, c.game, c.entries[k].grade, c.now);
    assert ValidPick(Eligible(db, c.game, c.entries[k].grade, c.now), c.entries[k].quantity, c.picks[k]);
  }

  /** A create is refused for the first entry that cannot be served: a negative quantity is an error of the
      database, and a quantity beyond the offer is too few tickets. */
  lemma RefusedForAnEntry(db: Db, c: Command, k: nat)
    requires Consistent(db) && c.Create? && Legal(db, c) && k < |c.entries| && FirstUnserved(db, c, k)
    ensures Exec(db, c) == Step(db, Failed(if c.entries[k].quantity < 0 then NegativeLimit else InsufficientTickets))
  {
    forall m | 0 <= m <= k
      ensures 0 <= c.entries[m].quantity <= |c.picks[m]|
              <==> 0 <= c.entries[m].quantity <= Offer(db, c.game, c.entries[m].grade, c.now)
    {
      PickSeesTheOffer(db, c, m);
    }
    SelectErrorAt(c.entries, c.picks, k);
  }

  /** When every entry can be served, a create is refused only for an unknown user or game, or else for asking
      for nothing at all. */
  lemma RefusedAsAWhole(db: Db, c: Command)
    requires Consistent(db) && c.Create? && Legal(db, c) && ServedBefore(db, c, |c.entries|)
    ensures c.user !in db.users || c.game !in db.games ==> Exec(db, c) == Step(db, Failed(ForeignKey))
    ensures c.user in db.users && c.game in db.games ==>
              if exists k | 0 <= k < |c.entries| :: c.entries[k].quantity != 0 then Exec(db, c).outcome.Created?
              else Exec(db, c) == Step(db, Failed(EmptyInList))
  {
    forall k | 0 <= k < |c.entries| ensures 0 <= c.entries[k].quantity <= |c.picks[k]| {
      PickSeesTheOffer(db, c, k);
    }
    NoErrorIff(c.entries, c.picks);
    CreateSucceedsIff(db, c);
  }

  /** A refused purchase or cancel is always "not found", and a sweep is never refused. */
  lemma RefusedRows(db: Db, c: Command)
    requires !c.Create?
    ensures Exec(db, c).outcome.Failed? ==> !c.Sweep? && Exec(db, c) == Step(db, Failed(NotFound))
  {
  }

  /* ----- The status of a refusal ----- */

  /** The error tree that the repository returns: its own sentinels, or the driver's error behind its wrapper.
      The codes are PostgreSQL's invalid_row_count_in_limit_clause, foreign_key_violation and syntax_error. */
  function ErrorTree(e: Error): Errors.Err {
    match e
    case NotFound => Errors.Leaf(Errors.NotFound)
    case InsufficientTickets => Errors.Wrap("not enough available tickets", [Errors.Leaf(Errors.InsufficientTickets)])
    case NegativeLimit => Errors.WrapDBError("selecting tickets", Errors.Pq("2201W"))
    case ForeignKey => Errors.WrapDBError("inserting reservation", Errors.Pq("23503"))
    case EmptyInList => Errors.WrapDBError("updating tickets", Errors.Pq("42601"))
  }

  /** The status of every refusal, through any wrapping on the way to the handler. */
  lemma RefusalStatus(requestDone: bool, messages: seq<string>, e: Error)
    ensures Errors.ToStatus(requestDone, Errors.WrapAll(messages, ErrorTree(e)))
         == match e
            case NotFound => 404
            case InsufficientTickets => 409
            case ForeignKey => 400
            case NegativeLimit => 500
            case EmptyInList => 500
  {
    match e
    case NotFound => Errors.SentinelStatus(requestDone, messages, Errors.NotFound);
    case InsufficientTickets =>
      Errors.SentinelStatus(requestDone, [], Errors.InsufficientTickets);
      Errors.WrappingKeepsStatus(requestDone, ["not enough available tickets"],
                                 Errors.Leaf(Errors.InsufficientTickets));
      Errors.WrappingKeepsStatus(requestDone, messages, ErrorTree(e));
    case NegativeLimit =>
      Errors.CodeClassStatus(requestDone, "selecting tickets", messages, Errors.Pq("2201W"), "2201W");
    case ForeignKey =>
      Errors.CodeClassStatus(requestDone, "inserting reservation", messages, Errors.Pq("23503"), "23503");
    case EmptyInList =>
      Errors.CodeClassStatus(requestDone, "updating tickets", messages, Errors.Pq("42601"), "42601");
  }
}
