/** The service in front of the repository: quantity checks and the seat limit, in 64-bit arithmetic. */
module Service {
  import opened Tables
  import opened Transactions
  import opened Invariant
  import opened Histories
  import opened Allocation
  import Store

  const TWO_TO_THE_63: int := 0x8000_0000_0000_0000
  const TWO_TO_THE_64: int := 0x1_0000_0000_0000_0000

  predicate Fits64(x: int) {
    -TWO_TO_THE_63 <= x < TWO_TO_THE_63
  }

  /** Two's complement wrap-around of Go's `int` on a 64-bit platform. */
  function Wrap64(x: int): (w: int)
    ensures Fits64(w)
    ensures Fits64(x) ==> w == x
  {
    (x + TWO_TO_THE_63) % TWO_TO_THE_64 - TWO_TO_THE_63
  }

  function TotalSeats(entries: seq<Entry>): int {
    if entries == [] then 0 else TotalSeats(entries[..|entries| - 1]) + entries[|entries| - 1].quantity
  }

  lemma WrapAddWraps(a: int, b: int)
    ensures Wrap64(Wrap64(a) + b) == Wrap64(a + b)
  {
    var q := (a + TWO_TO_THE_63) / TWO_TO_THE_64;
    assert Wrap64(a) == a - q * TWO_TO_THE_64;
    ModShift(a + b + TWO_TO_THE_63, -q);
  }

  lemma ModShift(x: int, k: int)
    ensures (x + k * TWO_TO_THE_64) % TWO_TO_THE_64 == x % TWO_TO_THE_64
  {
    var q := x / TWO_TO_THE_64;
    assert x + k * TWO_TO_THE_64 == (q + k) * TWO_TO_THE_64 + x % TWO_TO_THE_64;
    QuotientUnique(x + k * TWO_TO_THE_64, q + k, x % TWO_TO_THE_64);
  }

  lemma QuotientUnique(x: int, q: int, r: int)
    requires x == q * TWO_TO_THE_64 + r && 0 <= r < TWO_TO_THE_64
    ensures x % TWO_TO_THE_64 == r
  {
  }

  datatype Answer = InvalidQuantity | LimitExceeded | FromRepository(outcome: Outcome)

  /** What the checks before the repository call decide. */
  ghost predicate Accepted(entries: seq<Entry>, maxSeats: int) {
    && (forall k | 0 <= k < |entries| :: entries[k].quantity > 0)
    && Wrap64(TotalSeats(entries)) <= maxSeats
  }

  class ReservationService {
    const repo: Store.ReservationRepository
    const holdTime: int
    var maxSeats: int

    constructor (repo: Store.ReservationRepository, holdTime: int)
      ensures this.repo == repo && this.holdTime == holdTime && maxSeats == 10
    {
      this.repo, this.holdTime, this.maxSeats := repo, holdTime, 10;
    }

    method WithMaxSeats(maxSeats: int)
      modifies this
      ensures this.maxSeats == if maxSeats > 0 then maxSeats else old(this.maxSeats)
    {
      if maxSeats > 0 {
        this.maxSeats := maxSeats;
      }
    }

    /** `clock` is the application clock, `now` the transaction's start time in the database. */
    method CreateReservation(id: ReservationId, user: UserId, game: GameId, entries: seq<Entry>, clock: int, now: int)
      returns (answer: Answer, ghost picks: seq<seq<TicketId>>)
      requires id !in repo.reservations
      requires forall k | 0 <= k < |entries| :: Fits64(entries[k].quantity)
      modifies repo
      ensures (exists k | 0 <= k < |entries| :: entries[k].quantity <= 0) ==>
                answer == InvalidQuantity && repo.Db() == old(repo.Db())
      ensures (forall k | 0 <= k < |entries| :: entries[k].quantity > 0) && !Accepted(entries, maxSeats) ==>
                answer == LimitExceeded && repo.Db() == old(repo.Db())
      ensures Accepted(entries, maxSeats) ==>
                var c := Create(id, user, game, entries, picks, now, clock + holdTime);
                answer.FromRepository? && Legal(old(repo.Db()), c)
                && Step(repo.Db(), answer.outcome) == Exec(old(repo.Db()), c)
    {
      picks := [];
      var totalSeats := 0;
      for i := 0 to |entries|
        invariant unchanged(repo)
        invariant forall k | 0 <= k < i :: entries[k].quantity > 0
        invariant totalSeats == Wrap64(TotalSeats(entries[..i]))
      {
        if entries[i].quantity <= 0 {
          return InvalidQuantity, picks;
        }
        WrapAddWraps(TotalSeats(entries[..i]), entries[i].quantity);
        assert entries[..i + 1][..i] == entries[..i];
        totalSeats := Wrap64(totalSeats + entries[i].quantity);
      }
      assert entries[..|entries|] == entries;
      if totalSeats > maxSeats {
        return LimitExceeded, picks;
      }
      var outcome;
      outcome, picks := repo.CreateReservation(id, user, game, entries, now, clock + holdTime);
      answer := FromRepository(outcome);
    }
  }

  /* ----- The seat limit in spite of wrap-around ----- */

  /** The check by itself does not bound the true total: four entries of 2^62 seats pass any limit. */
  lemma WrappedTotalPasses(maxSeats: int) returns (entries: seq<Entry>)
    requires Fits64(maxSeats) && maxSeats > 0
    ensures forall k | 0 <= k < |entries| :: Fits64(entries[k].quantity)
    ensures Accepted(entries, maxSeats) && TotalSeats(entries) > maxSeats
  {
    var e := Entry("A", 0x4000_0000_0000_0000);
    entries := [e, e, e, e];
    assert entries[..3] == [e, e, e] && [e, e, e][..2] == [e, e] && [e, e][..1] == [e] && [e][..0] == [];
    assert TotalSeats([e]) == e.quantity;
    assert TotalSeats([e, e]) == 2 * e.quantity;
    assert TotalSeats([e, e, e]) == 3 * e.quantity;
    assert TotalSeats(entries) == TWO_TO_THE_64;
  }

  lemma {:induction false} TotalBounded(entries: seq<Entry>, bound: nat)
    requires forall k | 0 <= k < |entries| :: 0 <= entries[k].quantity <= bound
    ensures 0 <= TotalSeats(entries) <= |entries| * bound
  {
    if entries != [] {
      TotalBounded(entries[..|entries| - 1], bound);
    }
  }

  /** The whole path bounds it: a selection that succeeds cannot have asked for more than the table holds. */
  lemma SeatLimitHolds(db: Db, c: Command, maxSeats: int)
    requires c.Create? && Legal(db, c) && Accepted(c.entries, maxSeats) && Exec(db, c).outcome.Created?
    requires |c.entries| * |db.tickets| < TWO_TO_THE_63
    ensures TotalSeats(c.entries) <= maxSeats
    ensures |Exec(db, c).outcome.tickets| <= TotalSeats(c.entries)
  {
    forall k | 0 <= k < |c.entries| ensures c.entries[k].quantity <= |db.tickets| {
      EntryPicked(db, c, k);
      DistinctSize(c.picks[k]);
      SubsetSize(Elements(c.picks[k]), db.tickets.Keys);
    }
    TotalBounded(c.entries, |db.tickets|);
    PickedUpTo(db, c, |c.entries|);
    assert c.entries[..|c.entries|] == c.entries && c.picks[..|c.entries|] == c.picks;
  }

  lemma {:induction false} PickedUpTo(db: Db, c: Command, n: nat)
    requires c.Create? && Legal(db, c) && Exec(db, c).outcome.Created? && n <= |c.entries|
    ensures |Picked(c.picks[..n])| <= TotalSeats(c.entries[..n])
  {
    if n > 0 {
      var p := n - 1;
      PickedUpTo(db, c, p);
      EntryPicked(db, c, p);
      assert c.entries[..n][..p] == c.entries[..p] && c.picks[..n] == c.picks[..p] + [c.picks[p]];
      Store.PickedSnoc(c.picks[..p], c.picks[p]);
      DistinctSize(c.picks[p]);
    }
  }

  lemma {:induction false} TotalOfParts(a: seq<Entry>, b: seq<Entry>)
    ensures TotalSeats(a + b) == TotalSeats(a) + TotalSeats(b)
  {
    if b == [] {
      assert a + b == a;
    } else {
      TotalOfParts(a, b[..|b| - 1]);
      assert (a + b)[..|a + b| - 1] == a + b[..|b| - 1];
    }
  }

  /** With distinct grades the total is the number of tickets that the reservation gets. */
  lemma TotalIsTheNumberOfTickets(db: Db, c: Command)
    requires c.Create? && Legal(db, c) && Exec(db, c).outcome.Created? && DistinctGrades(c.entries)
    ensures |Exec(db, c).outcome.tickets| == TotalSeats(c.entries)
  {
    PickedExactly(db, c, |c.entries|);
    assert c.entries[..|c.entries|] == c.entries && c.picks[..|c.entries|] == c.picks;
  }

  lemma PicksOfTwoGrades(db: Db, c: Command, p: nat, t: TicketId)
    requires c.Create? && Legal(db, c) && Exec(db, c).outcome.Created? && DistinctGrades(c.entries)
    requires p < |c.entries| && t in Picked(c.picks[..p])
    ensures t !in c.picks[p]
  {
    var k :| 0 <= k < p && t in c.picks[..p][k];
    EntryPicked(db, c, k);
    EntryPicked(db, c, p);
  }

  lemma {:induction false} PickedExactly(db: Db, c: Command, n: nat)
    requires c.Create? && Legal(db, c) && Exec(db, c).outcome.Created? && DistinctGrades(c.entries)
    requires n <= |c.entries|
    ensures |Picked(c.picks[..n])| == TotalSeats(c.entries[..n])
  {
    if n > 0 {
      var p := n - 1;
      PickedExactly(db, c, p);
      assert c.entries[..n][..p] == c.entries[..p];
      PickedOneMore(db, c, p);
    }
  }

  lemma PickedOneMore(db: Db, c: Command, p: nat)
    requires c.Create? && Legal(db, c) && Exec(db, c).outcome.Created? && DistinctGrades(c.entries)
    requires p < |c.entries|
    ensures |Picked(c.picks[..p + 1])| == |Picked(c.picks[..p])| + c.entries[p].quantity
  {
    var before, pick := Picked(c.picks[..p]), c.picks[p];
    EntryPicked(db, c, p);
    assert c.picks[..p + 1] == c.picks[..p] + [pick];
    Store.PickedSnoc(c.picks[..p], pick);
    DistinctSize(pick);
    forall t | t in before ensures t !in Elements(pick) {
      PicksOfTwoGrades(db, c, p, t);
    }
    UnionSize(before, Elements(pick), Picked(c.picks[..p + 1]));
  }

  /** Through the service, a create succeeds exactly when the request is not empty, its quantities are positive,
      their true sum is within the limit, the user exists, and each entry fits. */
  lemma ServiceCreateSucceedsIff(db: Db, c: Command, maxSeats: int)
    requires c.Create? && Consistent(db) && Legal(db, c) && Fits64(maxSeats)
    requires |c.entries| * |db.tickets| < TWO_TO_THE_63
    ensures Accepted(c.entries, maxSeats) && Exec(db, c).outcome.Created? <==>
              && c.entries != []
              && (forall k | 0 <= k < |c.entries| :: c.entries[k].quantity > 0)
              && TotalSeats(c.entries) <= maxSeats
              && c.user in db.users
              && EachEntryFits(db, c)
  {
    CreateSucceedsIff(db, c);
    if Accepted(c.entries, maxSeats) && Exec(db, c).outcome.Created? {
      SeatLimitHolds(db, c, maxSeats);
    }
    if c.entries != [] && (forall k | 0 <= k < |c.entries| :: c.entries[k].quantity > 0) && EachEntryFits(db, c) {
      assert c.entries[0].quantity > 0;
      forall k | 0 <= k < |c.entries| ensures c.entries[k].quantity <= |db.tickets| {
        SelectionSeesTheOffer(db, c.game, c.entries[k].grade, c.now);
        SubsetSize(Eligible(db, c.game, c.entries[k].grade, c.now), db.tickets.Keys);
      }
      TotalBounded(c.entries, |db.tickets|);
    }
  }

  /** Every create of the run went through the service, with a request that the table size keeps in range. */
  ghost predicate ThroughService(dbs: seq<Db>, cs: seq<Command>, maxSeats: int)
    requires Trace(dbs, cs)
  {
    forall c <- cs :: c.Create? ==> Accepted(c.entries, maxSeats) && |c.entries| * |dbs[0].tickets| < TWO_TO_THE_63
  }

  /** No reservation ever holds more tickets than the limit. */
  lemma {:induction false} SeatLimitOverRuns(dbs: seq<Db>, cs: seq<Command>, maxSeats: int, n: nat, r: ReservationId)
    requires Trace(dbs, cs) && Consistent(dbs[0]) && ThroughService(dbs, cs, maxSeats) && n <= |cs|
    requires dbs[0].reservations == map[] && r in dbs[n].reservations
    ensures |OwnedBy(dbs[n].tickets, {r})| <= maxSeats
  {
    if n > 0 {
      var p := n - 1;
      if r in dbs[p].reservations {
        SeatLimitOverRuns(dbs, cs, maxSeats, p, r);
        OldReservationShrinks(dbs, cs, p, r);
      } else {
        NewReservationWithinLimit(dbs, cs, maxSeats, p, r);
      }
    }
  }

  lemma OldReservationShrinks(dbs: seq<Db>, cs: seq<Command>, p: nat, r: ReservationId)
    requires Trace(dbs, cs) && Consistent(dbs[0]) && p < |cs| && r in dbs[p].reservations
    ensures |OwnedBy(dbs[p + 1].tickets, {r})| <= |OwnedBy(dbs[p].tickets, {r})|
  {
    TraceEvolves(dbs, cs, p, p + 1);
    assert forall t <- dbs[p].tickets :: NoGain(dbs[p], t, dbs[p + 1].tickets[t]);
    SubsetSize(OwnedBy(dbs[p + 1].tickets, {r}), OwnedBy(dbs[p].tickets, {r}));
  }

  lemma NewReservationWithinLimit(dbs: seq<Db>, cs: seq<Command>, maxSeats: int, p: nat, r: ReservationId)
    requires Trace(dbs, cs) && Consistent(dbs[0]) && ThroughService(dbs, cs, maxSeats) && p < |cs|
    requires r !in dbs[p].reservations && r in dbs[p + 1].reservations
    ensures |OwnedBy(dbs[p + 1].tickets, {r})| <= maxSeats
  {
    assert StepAt(dbs, cs, p) && cs[p] in cs;
    TraceEvolves(dbs, cs, 0, p);
    CreatedOwnsItsTickets(dbs, cs, p);
    assert |dbs[p].tickets| == |dbs[p].tickets.Keys| == |dbs[0].tickets.Keys|;
    SeatLimitHolds(dbs[p], cs[p], maxSeats);
  }
}
