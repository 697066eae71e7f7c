/** When a create succeeds, and how many tickets of each grade it then holds. */
module Allocation {
  import opened Tables
  import opened Transactions
  import opened Invariant
  import opened SeatCounts
  import Store

  /** Whatever is asked for, the database has a legal answer. */
  lemma LegalCreateExists(db: Db, id: ReservationId, user: UserId, game: GameId, entries: seq<Entry>,
                          now: int, expiresAt: int)
    returns (picks: seq<seq<TicketId>>)
    requires id !in db.reservations
    ensures Legal(db, Create(id, user, game, entries, picks, now, expiresAt))
  {
    picks := Store.CompletePicks(db, game, entries, now, []);
  }

  function OfGrade(db: Db, ts: set<TicketId>, grade: string): set<TicketId> {
    set t | t in ts && t in db.tickets && db.tickets[t].seat.grade == grade
  }

  /** How many tickets of a game and grade a create may take now: those the seat counts show as available, and
      those a sweep now would free. */
  function Offer(db: Db, game: GameId, grade: string, now: int): nat {
    var g := OfGrade(db, OfGame(db, game), grade);
    Count(db, g, Available) + |Reclaimable(db, g, now)|
  }

  lemma EligibleOrReclaimable(db: Db, t: TicketId, game: GameId, grade: string, now: int)
    requires Consistent(db) && t in db.tickets
    ensures var g := OfGrade(db, OfGame(db, game), grade);
            && (t in Eligible(db, game, grade, now) <==> t in With(db, g, Available) || t in Reclaimable(db, g, now))
            && !(t in With(db, g, Available) && t in Reclaimable(db, g, now))
  {
    assert TicketConsistent(db, db.tickets[t]);
  }

  lemma UnionSize(a: set<TicketId>, b: set<TicketId>, all: set<TicketId>)
    requires a !! b && all == a + b
    ensures |all| == |a| + |b|
  {
  }

  /** The selection sees exactly the offer. */
  lemma SelectionSeesTheOffer(db: Db, game: GameId, grade: string, now: int)
    requires Consistent(db)
    ensures |Eligible(db, game, grade, now)| == Offer(db, game, grade, now)
  {
    var g := OfGrade(db, OfGame(db, game), grade);
    var eligible, free, lapsed := Eligible(db, game, grade, now), With(db, g, Available), Reclaimable(db, g, now);
    forall t | t in db.tickets
      ensures (t in eligible <==> t in free || t in lapsed) && !(t in free && t in lapsed)
    {
      EligibleOrReclaimable(db, t, game, grade, now);
    }
    UnionSize(free, lapsed, eligible);
  }

  /** Every grade has enough tickets for each single entry that asks for it. */
  ghost predicate EachEntryFits(db: Db, c: Command)
    requires c.Create?
  {
    forall k | 0 <= k < |c.entries| :: c.entries[k].quantity <= Offer(db, c.game, c.entries[k].grade, c.now)
  }

  /** A create succeeds exactly when something is asked for, the user exists, no quantity is negative and not
      all are zero, and each entry by itself fits what is available or reclaimable. */
  lemma CreateSucceedsIff(db: Db, c: Command)
    requires c.Create? && Consistent(db) && Legal(db, c)
    ensures Exec(db, c).outcome.Created? <==>
              && c.user in db.users
              && (forall k | 0 <= k < |c.entries| :: c.entries[k].quantity >= 0)
              && (exists k | 0 <= k < |c.entries| :: c.entries[k].quantity > 0)
              && EachEntryFits(db, c)
  {
    NoErrorIff(c.entries, c.picks);
    forall k | 0 <= k < |c.entries| && c.entries[k].quantity >= 0
      ensures c.entries[k].quantity <= |c.picks[k]|
              <==> c.entries[k].quantity <= Offer(db, c.game, c.entries[k].grade, c.now)
    {
      SelectionSeesTheOffer(db, c.game, c.entries[k].grade, c.now);
      assert ValidPick(Eligible(db, c.game, c.entries[k].grade, c.now), c.entries[k].quantity, c.picks[k]);
    }
    if SelectError(c.entries, c.picks).None? {
      CreatePicksEligible(db, c);
      forall k | 0 <= k < |c.entries| ensures |c.picks[k]| == c.entries[k].quantity {
        assert ValidPick(Eligible(db, c.game, c.entries[k].grade, c.now), c.entries[k].quantity, c.picks[k]);
      }
      if k :| 0 <= k < |c.entries| && c.entries[k].quantity > 0 {
        var t := c.picks[k][0];
        assert t in c.picks[k] && t in Picked(c.picks);
        assert TicketConsistent(db, db.tickets[t]);
      }
    }
  }

  /* ----- How many tickets of each grade ----- */

  function TotalFor(entries: seq<Entry>, grade: string): int {
    if entries == [] then 0
    else TotalFor(entries[..|entries| - 1], grade)
         + (if entries[|entries| - 1].grade == grade then entries[|entries| - 1].quantity else 0)
  }

  ghost predicate DistinctGrades(entries: seq<Entry>) {
    forall i, j | 0 <= i < j < |entries| :: entries[i].grade != entries[j].grade
  }

  /** What the new reservation holds of each grade: every entry's choice is part of it, and together they are
      no more than what was asked for. */
  lemma AllocationBounds(db: Db, c: Command, grade: string)
    requires c.Create? && Legal(db, c) && Exec(db, c).outcome.Created?
    ensures var held := OfGrade(db, Exec(db, c).outcome.tickets, grade);
            && (forall t <- held :: db.tickets[t].game == c.game)
            && (forall k | 0 <= k < |c.entries| && c.entries[k].grade == grade :: c.entries[k].quantity <= |held|)
            && |held| <= TotalFor(c.entries, grade)
  {
    var held := OfGrade(db, Picked(c.picks), grade);
    CreatePicksEligible(db, c);
    NoErrorIff(c.entries, c.picks);
    forall k | 0 <= k < |c.entries| && c.entries[k].grade == grade ensures c.entries[k].quantity <= |held| {
      EntryPicked(db, c, k);
      assert Elements(c.picks[k]) <= held;
      DistinctSize(c.picks[k]);
      SubsetSize(Elements(c.picks[k]), held);
    }
    HeldUpTo(db, c, grade, |c.entries|);
    assert c.entries[..|c.entries|] == c.entries && c.picks[..|c.entries|] == c.picks;
  }

  lemma EntryPicked(db: Db, c: Command, k: nat)
    requires c.Create? && Legal(db, c) && k < |c.entries| && Exec(db, c).outcome.Created?
    ensures Distinct(c.picks[k]) && |c.picks[k]| == c.entries[k].quantity
    ensures forall t <- c.picks[k] ::
              t in Picked(c.picks) && t in db.tickets && Wanted(db.tickets[t], c.game, c.entries[k].grade)
  {
    NoErrorIff(c.entries, c.picks);
    var e := Eligible(db, c.game, c.entries[k].grade, c.now);
    assert ValidPick(e, c.entries[k].quantity, c.picks[k]);
    forall t | t in c.picks[k] ensures t in e {
      assert t in Elements(c.picks[k]);
    }
  }

  lemma HeldWithOneMore(db: Db, e: Entry, ts: set<TicketId>, pick: seq<TicketId>, grade: string)
    requires Distinct(pick) && |pick| == e.quantity
    requires forall t <- pick :: t in db.tickets && db.tickets[t].seat.grade == e.grade
    ensures |OfGrade(db, ts + Elements(pick), grade)|
         <= |OfGrade(db, ts, grade)| + (if e.grade == grade then e.quantity else 0)
  {
    var before, now := OfGrade(db, ts, grade), OfGrade(db, ts + Elements(pick), grade);
    DistinctSize(pick);
    if e.grade == grade {
      SubsetSize(now, before + Elements(pick));
    } else {
      assert now == before;
    }
  }

  lemma {:induction false} HeldUpTo(db: Db, c: Command, grade: string, n: nat)
    requires c.Create? && Legal(db, c) && Exec(db, c).outcome.Created? && n <= |c.entries|
    ensures |OfGrade(db, Picked(c.picks[..n]), grade)| <= TotalFor(c.entries[..n], grade)
  {
    if n > 0 {
      var p := n - 1;
      HeldUpTo(db, c, grade, p);
      EntryPicked(db, c, p);
      assert c.entries[..n][..p] == c.entries[..p] && c.picks[..n] == c.picks[..p] + [c.picks[p]];
      Store.PickedSnoc(c.picks[..p], c.picks[p]);
      HeldWithOneMore(db, c.entries[p], Picked(c.picks[..p]), c.picks[p], grade);
    }
  }

  lemma {:induction false} TotalWithout(entries: seq<Entry>, grade: string)
    requires forall i | 0 <= i < |entries| :: entries[i].grade != grade
    ensures TotalFor(entries, grade) == 0
  {
    if entries != [] {
      TotalWithout(entries[..|entries| - 1], grade);
    }
  }

  lemma {:induction false} TotalOfOne(entries: seq<Entry>, k: nat)
    requires DistinctGrades(entries) && k < |entries|
    ensures TotalFor(entries, entries[k].grade) == entries[k].quantity
  {
    var n := |entries| - 1;
    if k == n {
      TotalWithout(entries[..n], entries[k].grade);
    } else {
      TotalOfOne(entries[..n], k);
    }
  }

  /** With distinct grades every grade gets exactly what was asked for it. */
  lemma AllocationExact(db: Db, c: Command, k: nat)
    requires c.Create? && Legal(db, c) && Exec(db, c).outcome.Created?
    requires DistinctGrades(c.entries) && k < |c.entries|
    ensures |OfGrade(db, Exec(db, c).outcome.tickets, c.entries[k].grade)| == c.entries[k].quantity
  {
    AllocationBounds(db, c, c.entries[k].grade);
    TotalOfOne(c.entries, k);
  }
}
