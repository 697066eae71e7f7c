/** Safety over whole serial runs.  Every lemma quantifies over all runs from a consistent table; only the
    ones that say so need the commands' clocks to be in order. */
module Histories {
  import opened Tables
  import opened Transactions
  import opened Invariant

  /* ----- One step, seen from one ticket ----- */

  /** A sold ticket leaves its reservation only through a successful cancel of that reservation. */
  lemma SoldStep(db: Db, c: Command, t: TicketId, r: ReservationId)
    requires Consistent(db) && Legal(db, c)
    requires t in db.tickets && db.tickets[t].status == Sold && db.tickets[t].reservation == Some(r)
    requires !(c.Cancel? && c.id == r && Exec(db, c).outcome.Released?)
    ensures Exec(db, c).db.tickets[t] == db.tickets[t]
  {
    TicketAndOwnerAgree(db, t, r);
    if c.Create? {
      CreatePicksEligible(db, c);
    }
  }

  /** How command `c` may take the ticket `t` from its owner `r`: by cancelling `r`, by expiring `r` when it has
      lapsed, or by putting `t` under a new reservation when `r` has lapsed. */
  predicate TakesFrom(db: Db, c: Command, outcome: Outcome, t: TicketId, r: ReservationId) {
    && t in db.tickets && db.tickets[t].reservation == Some(r)
    && (|| (c.Cancel? && c.id == r && outcome.Released?)
        || (&& r in db.reservations && Lapsed(db.reservations[r], c.now)
            && (|| (outcome.Swept? && r in outcome.reservations)
                || (outcome.Created? && t in outcome.tickets))))
  }

  /** These are all the ways in which a ticket leaves its reservation, and each of them does take it. */
  lemma OwnedStep(db: Db, c: Command, t: TicketId, r: ReservationId)
    requires Consistent(db) && Legal(db, c)
    requires t in db.tickets && db.tickets[t].reservation == Some(r)
    ensures Exec(db, c).db.tickets[t].reservation == Some(r) <==> !TakesFrom(db, c, Exec(db, c).outcome, t, r)
  {
    TicketAndOwnerAgree(db, t, r);
    if c.Create? {
      CreatePicksEligible(db, c);
    } else if c.Cancel? && c.id == r {
      assert Matched(db, c) <= {r};
      assert r in Matched(db, c) ==> t in OwnedBy(db.tickets, Matched(db, c));
    }
  }

  /* ----- No double sale ----- */

  /** Command `k` is a successful cancel of `r`. */
  ghost predicate Cancels(dbs: seq<Db>, cs: seq<Command>, r: ReservationId, k: nat)
    requires Trace(dbs, cs) && k < |cs|
  {
    cs[k].Cancel? && cs[k].id == r && OutcomeAt(dbs, cs, k).Released?
  }

  /** Command `k` is a successful purchase of `r`. */
  ghost predicate Purchases(dbs: seq<Db>, cs: seq<Command>, r: ReservationId, k: nat)
    requires Trace(dbs, cs) && k < |cs|
  {
    cs[k].Purchase? && cs[k].id == r && OutcomeAt(dbs, cs, k).Purchased?
  }

  ghost predicate CancelledBetween(dbs: seq<Db>, cs: seq<Command>, r: ReservationId, i: nat, j: nat)
    requires Trace(dbs, cs) && j <= |cs|
  {
    exists k: nat | i <= k < j :: Cancels(dbs, cs, r, k)
  }

  lemma {:induction false} SoldUntilCancelled(dbs: seq<Db>, cs: seq<Command>, t: TicketId, r: ReservationId,
                                              i: nat, j: nat)
    requires Trace(dbs, cs) && Consistent(dbs[0]) && i <= j <= |cs|
    requires t in dbs[i].tickets && dbs[i].tickets[t].status == Sold && dbs[i].tickets[t].reservation == Some(r)
    ensures CancelledBetween(dbs, cs, r, i, j) || (t in dbs[j].tickets && dbs[j].tickets[t] == dbs[i].tickets[t])
  {
    if i < j {
      SoldUntilCancelled(dbs, cs, t, r, i, j - 1);
      assert StepAt(dbs, cs, j - 1);
      TraceKeepsConsistent(dbs, cs, j - 1);
      if CancelledBetween(dbs, cs, r, i, j - 1) {
      } else if Cancels(dbs, cs, r, j - 1) {
      } else {
        SoldStep(dbs[j - 1], cs[j - 1], t, r);
      }
    }
  }

  /** No double sale: two purchases return the same ticket only if the first reservation was cancelled between. */
  lemma NoDoubleSale(dbs: seq<Db>, cs: seq<Command>, t: TicketId, i: nat, j: nat)
    requires Trace(dbs, cs) && Consistent(dbs[0]) && i < j < |cs|
    requires OutcomeAt(dbs, cs, i).Purchased? && t in OutcomeAt(dbs, cs, i).tickets
    requires OutcomeAt(dbs, cs, j).Purchased? && t in OutcomeAt(dbs, cs, j).tickets
    ensures cs[i].Purchase? && CancelledBetween(dbs, cs, cs[i].id, i + 1, j)
  {
    assert StepAt(dbs, cs, i) && StepAt(dbs, cs, j);
    TraceKeepsConsistent(dbs, cs, j);
    SoldUntilCancelled(dbs, cs, t, cs[i].id, i + 1, j);
    if !CancelledBetween(dbs, cs, cs[i].id, i + 1, j) {
      TicketAndOwnerAgree(dbs[j], t, cs[i].id);
      assert false;
    }
  }

  /* ----- Hold safety ----- */

  /** Command `k` took the ticket `t` from the reservation `r`. */
  ghost predicate Takes(dbs: seq<Db>, cs: seq<Command>, t: TicketId, r: ReservationId, k: nat)
    requires Trace(dbs, cs) && k < |cs|
  {
    TakesFrom(dbs[k], cs[k], OutcomeAt(dbs, cs, k), t, r)
  }

  ghost predicate TakenFrom(dbs: seq<Db>, cs: seq<Command>, t: TicketId, r: ReservationId, i: nat, j: nat)
    requires Trace(dbs, cs) && j <= |cs|
  {
    exists k: nat | i <= k < j :: Takes(dbs, cs, t, r, k)
  }

  /** A ticket stays with its reservation exactly until some command takes it from there. */
  lemma {:induction false} OwnedUntilTaken(dbs: seq<Db>, cs: seq<Command>, t: TicketId, r: ReservationId,
                                           i: nat, j: nat)
    requires Trace(dbs, cs) && Consistent(dbs[0]) && i <= j <= |cs|
    requires t in dbs[i].tickets && dbs[i].tickets[t].reservation == Some(r)
    ensures t in dbs[j].tickets
    ensures dbs[j].tickets[t].reservation == Some(r) <==> !TakenFrom(dbs, cs, t, r, i, j)
  {
    if i < j {
      var p := j - 1;
      OwnedUntilTaken(dbs, cs, t, r, i, p);
      assert StepAt(dbs, cs, p);
      TraceKeepsConsistent(dbs, cs, p);
      if TakenFrom(dbs, cs, t, r, i, p) {
        TraceKeepsConsistent(dbs, cs, i);
        TicketAndOwnerAgree(dbs[i], t, r);
        TraceEvolves(dbs, cs, i, p);
        TraceEvolves(dbs, cs, p, j);
        assert NoGain(dbs[p], t, dbs[j].tickets[t]);
      } else {
        OwnedStep(dbs[p], cs[p], t, r);
        assert TakenFrom(dbs, cs, t, r, i, j) <==> Takes(dbs, cs, t, r, p);
      }
    }
  }

  /** Command `k` ended the hold of `r`: it purchased, cancelled or expired it. */
  ghost predicate EndsHold(dbs: seq<Db>, cs: seq<Command>, r: ReservationId, k: nat)
    requires Trace(dbs, cs) && k < |cs|
  {
    var outcome := OutcomeAt(dbs, cs, k);
    Purchases(dbs, cs, r, k) || Cancels(dbs, cs, r, k) || (outcome.Swept? && r in outcome.reservations)
  }

  ghost predicate HoldEnded(dbs: seq<Db>, cs: seq<Command>, r: ReservationId, i: nat, j: nat)
    requires Trace(dbs, cs) && j <= |cs|
  {
    exists k: nat | i <= k < j :: EndsHold(dbs, cs, r, k)
  }

  lemma PendingStepIff(db: Db, c: Command, r: ReservationId)
    requires Consistent(db) && Legal(db, c) && r in db.reservations && db.reservations[r].status == Pending
    ensures r in Exec(db, c).db.reservations
    ensures Exec(db, c).db.reservations[r].status == Pending
            <==> !(|| (c.Purchase? && c.id == r && Exec(db, c).outcome.Purchased?)
                   || (c.Cancel? && c.id == r && Exec(db, c).outcome.Released?)
                   || (Exec(db, c).outcome.Swept? && r in Exec(db, c).outcome.reservations))
  {
    if (c.Purchase? || c.Cancel?) && !Exec(db, c).outcome.Failed? {
      var t :| t in OwnedBy(db.tickets, Matched(db, c));
      assert Matched(db, c) == {c.id};
    }
  }

  lemma {:induction false} PendingUntilEnded(dbs: seq<Db>, cs: seq<Command>, r: ReservationId, i: nat, j: nat)
    requires Trace(dbs, cs) && Consistent(dbs[0]) && i <= j <= |cs|
    requires r in dbs[i].reservations && dbs[i].reservations[r].status == Pending
    ensures r in dbs[j].reservations
    ensures dbs[j].reservations[r].status == Pending <==> !HoldEnded(dbs, cs, r, i, j)
  {
    if i < j {
      var p := j - 1;
      PendingUntilEnded(dbs, cs, r, i, p);
      assert StepAt(dbs, cs, p);
      TraceKeepsConsistent(dbs, cs, p);
      TraceEvolves(dbs, cs, p, j);
      assert LaterReservation(dbs[p].reservations[r], dbs[j].reservations[r]);
      if dbs[p].reservations[r].status == Pending {
        PendingStepIff(dbs[p], cs[p], r);
      }
      assert HoldEnded(dbs, cs, r, i, j) <==> HoldEnded(dbs, cs, r, i, p) || EndsHold(dbs, cs, r, p);
    }
  }

  /** Hold safety, both ways.  A reservation stays pending exactly until it is purchased, cancelled or expired.
      A ticket it holds stays with it exactly until it is cancelled, or until a sweep or a create that started
      after its expiry expires it or takes that very ticket. */
  lemma HoldSafety(dbs: seq<Db>, cs: seq<Command>, t: TicketId, r: ReservationId, i: nat, j: nat)
    requires Trace(dbs, cs) && Consistent(dbs[0]) && i <= j <= |cs|
    requires r in dbs[i].reservations && dbs[i].reservations[r].status == Pending
    requires t in dbs[i].tickets && dbs[i].tickets[t].reservation == Some(r)
    ensures r in dbs[j].reservations && t in dbs[j].tickets
    ensures dbs[j].reservations[r].status == Pending <==> !HoldEnded(dbs, cs, r, i, j)
    ensures dbs[j].tickets[t].reservation == Some(r) <==> !TakenFrom(dbs, cs, t, r, i, j)
    ensures forall k: nat | i <= k < j && Takes(dbs, cs, t, r, k) ::
              Cancels(dbs, cs, r, k) || cs[k].now > dbs[i].reservations[r].expiresAt
  {
    PendingUntilEnded(dbs, cs, r, i, j);
    OwnedUntilTaken(dbs, cs, t, r, i, j);
    forall k: nat | i <= k < j && Takes(dbs, cs, t, r, k)
      ensures Cancels(dbs, cs, r, k) || cs[k].now > dbs[i].reservations[r].expiresAt
    {
      TraceEvolves(dbs, cs, i, k);
      assert LaterReservation(dbs[i].reservations[r], dbs[k].reservations[r]);
    }
  }

  lemma PurchasedWasLive(dbs: seq<Db>, cs: seq<Command>, r: ReservationId, k: nat)
    requires Trace(dbs, cs) && k < |cs| && Purchases(dbs, cs, r, k)
    ensures r in dbs[k].reservations && Live(dbs[k].reservations[r], cs[k].now)
    ensures Matched(dbs[k], cs[k]) == {r}
  {
    assert StepAt(dbs, cs, k);
    var t :| t in OwnedBy(dbs[k].tickets, Matched(dbs[k], cs[k]));
  }

  /** A held ticket that is answered to a create was taken from its reservation by then. */
  lemma TakenWhenGiven(dbs: seq<Db>, cs: seq<Command>, t: TicketId, r: ReservationId, i: nat, j: nat)
    requires Trace(dbs, cs) && Consistent(dbs[0]) && i <= j < |cs|
    requires r in dbs[i].reservations && dbs[i].reservations[r].status == Pending
    requires t in dbs[i].tickets && dbs[i].tickets[t].reservation == Some(r)
    requires OutcomeAt(dbs, cs, j).Created? && t in OutcomeAt(dbs, cs, j).tickets
    ensures exists k: nat | i <= k <= j ::
              && Takes(dbs, cs, t, r, k)
              && (Cancels(dbs, cs, r, k) || cs[k].now > dbs[i].reservations[r].expiresAt)
  {
    HoldSafety(dbs, cs, t, r, i, j + 1);
    assert StepAt(dbs, cs, j);
    TraceEvolves(dbs, cs, i, j);
    assert dbs[j + 1].tickets[t].reservation == Some(cs[j].id);
    var k: nat :| i <= k < j + 1 && Takes(dbs, cs, t, r, k);
  }

  /** No double booking: when a ticket that a create answered with is answered to another create, some command
      in between, or the second create itself, took it from the first reservation: a cancel of that very
      reservation, or a sweep or a create that found it pending after its expiry.  A ticket that the first
      reservation has bought is given to another one only after a cancel. */
  lemma NoDoubleBooking(dbs: seq<Db>, cs: seq<Command>, t: TicketId, i: nat, j: nat)
    requires Trace(dbs, cs) && Consistent(dbs[0]) && i < j < |cs|
    requires cs[i].Create? && OutcomeAt(dbs, cs, i).Created? && t in OutcomeAt(dbs, cs, i).tickets
    requires OutcomeAt(dbs, cs, j).Created? && t in OutcomeAt(dbs, cs, j).tickets
    ensures exists k: nat | i < k <= j ::
              && Takes(dbs, cs, t, cs[i].id, k)
              && (Cancels(dbs, cs, cs[i].id, k) || cs[k].now > cs[i].expiresAt)
    ensures forall p: nat | i < p < j && Purchases(dbs, cs, cs[i].id, p) && t in OutcomeAt(dbs, cs, p).tickets ::
              CancelledBetween(dbs, cs, cs[i].id, p + 1, j)
  {
    var r := cs[i].id;
    CreatedOwnsItsTickets(dbs, cs, i);
    assert t in OwnedBy(dbs[i + 1].tickets, {r});
    TakenWhenGiven(dbs, cs, t, r, i + 1, j);
    var k: nat :| i + 1 <= k <= j && Takes(dbs, cs, t, r, k)
                  && (Cancels(dbs, cs, r, k) || cs[k].now > cs[i].expiresAt);
    forall p: nat | i < p < j && Purchases(dbs, cs, r, p) && t in OutcomeAt(dbs, cs, p).tickets
      ensures CancelledBetween(dbs, cs, r, p + 1, j)
    {
      BoughtIsNotGiven(dbs, cs, t, r, p, j);
    }
  }

  /** A create takes a ticket that was bought only after a cancel of the reservation that bought it. */
  lemma BoughtIsNotGiven(dbs: seq<Db>, cs: seq<Command>, t: TicketId, r: ReservationId, p: nat, j: nat)
    requires Trace(dbs, cs) && Consistent(dbs[0]) && p < j < |cs|
    requires Purchases(dbs, cs, r, p) && t in OutcomeAt(dbs, cs, p).tickets
    requires OutcomeAt(dbs, cs, j).Created? && t in OutcomeAt(dbs, cs, j).tickets
    ensures CancelledBetween(dbs, cs, r, p + 1, j)
  {
    PurchasedWasLive(dbs, cs, r, p);
    assert StepAt(dbs, cs, p) && StepAt(dbs, cs, j);
    SoldUntilCancelled(dbs, cs, t, r, p + 1, j);
    CreatePicksEligible(dbs[j], cs[j]);
  }

  /** Once a reservation has lost a ticket it never owns it again, so its own purchase or cancel cannot
      touch the ticket, and a sweep touches it only on account of its current owner. */
  lemma LostTicketStaysLost(dbs: seq<Db>, cs: seq<Command>, t: TicketId, r: ReservationId, i: nat, j: nat)
    requires Trace(dbs, cs) && Consistent(dbs[0]) && i <= j < |cs|
    requires r in dbs[i].reservations && t in dbs[i].tickets && dbs[i].tickets[t].reservation != Some(r)
    ensures t in dbs[j].tickets && dbs[j].tickets[t].reservation != Some(r)
    ensures t in dbs[j + 1].tickets
    ensures (cs[j].Purchase? || cs[j].Cancel?) && cs[j].id == r ==> dbs[j + 1].tickets[t] == dbs[j].tickets[t]
    ensures cs[j].Sweep? && dbs[j + 1].tickets[t] != dbs[j].tickets[t] ==>
              exists owner <- dbs[j].reservations ::
                && owner != r && dbs[j].tickets[t].reservation == Some(owner)
                && Lapsed(dbs[j].reservations[owner], cs[j].now)
  {
    TraceEvolves(dbs, cs, i, j);
    assert NoGain(dbs[i], t, dbs[j].tickets[t]);
    assert StepAt(dbs, cs, j);
    if cs[j].Sweep? && dbs[j + 1].tickets[t] != dbs[j].tickets[t] {
      var owner := dbs[j].tickets[t].reservation.value;
      assert owner in Matched(dbs[j], cs[j]);
    }
  }

  /* ----- Purchase is all or nothing ----- */

  /** The tickets that successful creates among the commands `i..j` took. */
  ghost function TakenBetween(dbs: seq<Db>, cs: seq<Command>, i: nat, j: nat): set<TicketId>
    requires Trace(dbs, cs) && j <= |cs|
  {
    set k: nat, t | i <= k < j && OutcomeAt(dbs, cs, k).Created? && t in OutcomeAt(dbs, cs, k).tickets :: t
  }

  /** While a reservation stays pending it owns exactly what it held before, less what creates have taken. */
  lemma {:induction false} PendingOwnsTheRest(dbs: seq<Db>, cs: seq<Command>, r: ReservationId, i: nat, j: nat)
    requires Trace(dbs, cs) && Consistent(dbs[0]) && i <= j <= |cs|
    requires r in dbs[i].reservations
    requires r in dbs[j].reservations && dbs[j].reservations[r].status == Pending
    ensures OwnedBy(dbs[j].tickets, {r}) == OwnedBy(dbs[i].tickets, {r}) - TakenBetween(dbs, cs, i, j)
  {
    if i < j {
      var p := j - 1;
      assert StepAt(dbs, cs, p);
      TraceKeepsConsistent(dbs, cs, p);
      TraceEvolves(dbs, cs, i, p);
      ExecEvolves(dbs[p], cs[p]);
      PendingOwnsTheRest(dbs, cs, r, i, p);
      var taken := if OutcomeAt(dbs, cs, p).Created? then OutcomeAt(dbs, cs, p).tickets else {};
      assert TakenBetween(dbs, cs, i, j) == TakenBetween(dbs, cs, i, p) + taken;
      PendingStep(dbs[p], cs[p], r);
    }
  }

  /** One step of a reservation that is still pending afterwards. */
  lemma PendingStep(db: Db, c: Command, r: ReservationId)
    requires Consistent(db) && Legal(db, c) && r in db.reservations
    requires Exec(db, c).db.reservations[r].status == Pending
    ensures OwnedBy(Exec(db, c).db.tickets, {r})
         == OwnedBy(db.tickets, {r}) - (if Exec(db, c).outcome.Created? then Exec(db, c).outcome.tickets else {})
  {
  }

  /** What a purchase returns, in every run whatever the clocks: exactly the tickets its create returned,
      less those that other creates took in between.  So it returns all of them if and only if no create
      between the two took one. */
  lemma PurchaseReturnsWhatIsLeft(dbs: seq<Db>, cs: seq<Command>, i: nat, j: nat)
    requires Trace(dbs, cs) && Consistent(dbs[0]) && i < j < |cs|
    requires cs[i].Create? && OutcomeAt(dbs, cs, i).Created?
    requires cs[j].Purchase? && cs[j].id == cs[i].id && OutcomeAt(dbs, cs, j).Purchased?
    ensures OutcomeAt(dbs, cs, j).tickets == OutcomeAt(dbs, cs, i).tickets - TakenBetween(dbs, cs, i + 1, j)
    ensures OutcomeAt(dbs, cs, j).tickets == OutcomeAt(dbs, cs, i).tickets
            <==> OutcomeAt(dbs, cs, i).tickets !! TakenBetween(dbs, cs, i + 1, j)
  {
    CreatedOwnsItsTickets(dbs, cs, i);
    PurchasedWasLive(dbs, cs, cs[i].id, j);
    PendingOwnsTheRest(dbs, cs, cs[i].id, i + 1, j);
  }

  lemma CreatedOwnsItsTickets(dbs: seq<Db>, cs: seq<Command>, i: nat)
    requires Trace(dbs, cs) && Consistent(dbs[0]) && i < |cs|
    requires cs[i].Create? && OutcomeAt(dbs, cs, i).Created?
    ensures OwnedBy(dbs[i + 1].tickets, {cs[i].id}) == OutcomeAt(dbs, cs, i).tickets
    ensures cs[i].id in dbs[i + 1].reservations
    ensures dbs[i + 1].reservations[cs[i].id] == Reservation(cs[i].user, cs[i].game, Pending, cs[i].expiresAt)
  {
    assert StepAt(dbs, cs, i);
    TraceKeepsConsistent(dbs, cs, i);
    CreatePicksEligible(dbs[i], cs[i]);
    forall t | t in dbs[i].tickets ensures dbs[i].tickets[t].reservation != Some(cs[i].id) {
      assert TicketConsistent(dbs[i], dbs[i].tickets[t]);
    }
  }

  /** The clocks of `cs` never go back. */
  ghost predicate InOrder(cs: seq<Command>) {
    forall i, j | 0 <= i <= j < |cs| :: cs[i].now <= cs[j].now
  }

  /** No create among the commands `i..j` started after `expiresAt`. */
  ghost predicate NoLateCreate(cs: seq<Command>, expiresAt: int, i: nat, j: nat)
    requires j <= |cs|
  {
    forall k: nat | i <= k < j && cs[k].Create? :: cs[k].now <= expiresAt
  }

  /** A reservation that is still pending has kept its tickets, if no create started after its expiry. */
  lemma KeptWithoutLateCreate(dbs: seq<Db>, cs: seq<Command>, t: TicketId, r: ReservationId, i: nat, j: nat)
    requires Trace(dbs, cs) && Consistent(dbs[0]) && i <= j <= |cs|
    requires r in dbs[i].reservations && dbs[i].reservations[r].status == Pending
    requires r in dbs[j].reservations && dbs[j].reservations[r].status == Pending
    requires t in dbs[i].tickets && dbs[i].tickets[t].reservation == Some(r)
    requires NoLateCreate(cs, dbs[i].reservations[r].expiresAt, i, j)
    ensures t in dbs[j].tickets && dbs[j].tickets[t].reservation == Some(r)
  {
    HoldSafety(dbs, cs, t, r, i, j);
    forall k: nat | i <= k < j ensures !Takes(dbs, cs, t, r, k) {
      assert !EndsHold(dbs, cs, r, k);
      assert OutcomeAt(dbs, cs, k).Created? ==> cs[k].Create?;
    }
  }

  /** A successful purchase returns exactly what its create returned, if no create that committed between the
      two had started after the hold ran out.  The clocks of all other commands are free. */
  lemma PurchaseIsWholeWithoutLateCreate(dbs: seq<Db>, cs: seq<Command>, i: nat, j: nat)
    requires Trace(dbs, cs) && Consistent(dbs[0]) && i < j < |cs|
    requires cs[i].Create? && OutcomeAt(dbs, cs, i).Created?
    requires cs[j].Purchase? && cs[j].id == cs[i].id && OutcomeAt(dbs, cs, j).Purchased?
    requires NoLateCreate(cs, cs[i].expiresAt, i + 1, j)
    ensures OutcomeAt(dbs, cs, j).tickets == OutcomeAt(dbs, cs, i).tickets
  {
    var r := cs[i].id;
    assert StepAt(dbs, cs, i);
    CreatedOwnsItsTickets(dbs, cs, i);
    PurchasedWasLive(dbs, cs, r, j);
    PurchaseReturnsWhatIsLeft(dbs, cs, i, j);
    forall t | t in OutcomeAt(dbs, cs, i).tickets ensures t in OutcomeAt(dbs, cs, j).tickets {
      assert t in OwnedBy(dbs[i + 1].tickets, {r});
      KeptWithoutLateCreate(dbs, cs, t, r, i + 1, j);
    }
  }

  /** When the clocks agree with the commit order, a successful purchase returns exactly what its create
      returned: a create that committed before the purchase cannot have started after the hold ran out. */
  lemma PurchaseIsAllOrNothing(dbs: seq<Db>, cs: seq<Command>, i: nat, j: nat)
    requires Trace(dbs, cs) && Consistent(dbs[0]) && i < j < |cs| && InOrder(cs)
    requires cs[i].Create? && OutcomeAt(dbs, cs, i).Created?
    requires cs[j].Purchase? && cs[j].id == cs[i].id && OutcomeAt(dbs, cs, j).Purchased?
    ensures OutcomeAt(dbs, cs, j).tickets == OutcomeAt(dbs, cs, i).tickets
  {
    CreatedOwnsItsTickets(dbs, cs, i);
    TraceEvolves(dbs, cs, i + 1, j);
    PurchasedWasLive(dbs, cs, cs[i].id, j);
    PurchaseIsWholeWithoutLateCreate(dbs, cs, i, j);
  }

  /** After a purchase the reservation owns exactly the purchased tickets, all sold, until it is cancelled. */
  lemma {:induction false} PurchasedStaysSold(dbs: seq<Db>, cs: seq<Command>, i: nat, j: nat)
    requires Trace(dbs, cs) && Consistent(dbs[0]) && i < j <= |cs|
    requires cs[i].Purchase? && OutcomeAt(dbs, cs, i).Purchased?
    requires !CancelledBetween(dbs, cs, cs[i].id, i + 1, j)
    ensures OwnedBy(dbs[j].tickets, {cs[i].id}) == OutcomeAt(dbs, cs, i).tickets
    ensures forall t <- OutcomeAt(dbs, cs, i).tickets :: t in dbs[j].tickets && dbs[j].tickets[t].status == Sold
  {
    var r, ts := cs[i].id, OutcomeAt(dbs, cs, i).tickets;
    assert StepAt(dbs, cs, i);
    assert Matched(dbs[i], cs[i]) == {r} by {
      var t :| t in ts;
    }
    assert OwnedBy(dbs[i + 1].tickets, {r}) == ts;
    forall t | t in ts ensures t in dbs[j].tickets && dbs[j].tickets[t] == dbs[i + 1].tickets[t] {
      SoldUntilCancelled(dbs, cs, t, r, i + 1, j);
    }
    TraceEvolves(dbs, cs, i + 1, j);
    forall t | t in OwnedBy(dbs[j].tickets, {r}) ensures t in ts {
      assert NoGain(dbs[i + 1], t, dbs[j].tickets[t]);
    }
  }

  /* ----- Without clock order ----- */

  /** Two free tickets of one game and grade. */
  function TwoTickets(): Db {
    var free := Ticket(Seat(0, "A", 5000), 0, 5000, Available, None);
    Db({0}, {0}, map[1 := free, 2 := free], map[])
  }

  lemma FirstHold() returns (d1: Db)
    ensures var c := Create(10, 0, 0, [Entry("A", 2)], [[1, 2]], 0, 5);
            Legal(TwoTickets(), c) && Exec(TwoTickets(), c) == Step(d1, Created({1, 2}))
    ensures d1 == TwoTickets().(tickets := SetTickets(TwoTickets().tickets, {1, 2}, Reserved, Some(10)),
                                reservations := map[10 := Reservation(0, 0, Pending, 5)])
  {
    var c := Create(10, 0, 0, [Entry("A", 2)], [[1, 2]], 0, 5);
    assert Eligible(TwoTickets(), 0, "A", 0) == {1, 2} && Elements([1, 2]) == {1, 2};
    assert Picked(c.picks) == {1, 2} by { assert 1 in c.picks[0] && 2 in c.picks[0]; }
    assert SelectError(c.entries[1..], c.picks[1..]) == None;
    d1 := Exec(TwoTickets(), c).db;
  }

  lemma SecondHoldReclaims(d1: Db) returns (d2: Db)
    requires d1 == TwoTickets().(tickets := SetTickets(TwoTickets().tickets, {1, 2}, Reserved, Some(10)),
                                 reservations := map[10 := Reservation(0, 0, Pending, 5)])
    ensures var c := Create(11, 0, 0, [Entry("A", 1)], [[1]], 6, 11);
            Legal(d1, c) && Exec(d1, c) == Step(d2, Created({1}))
    ensures 10 in d2.reservations && d2.reservations[10] == Reservation(0, 0, Pending, 5)
    ensures OwnedBy(d2.tickets, {10}) == {2}
  {
    var c := Create(11, 0, 0, [Entry("A", 1)], [[1]], 6, 11);
    assert Eligible(d1, 0, "A", 6) == {1, 2} && Elements([1]) == {1};
    assert Picked(c.picks) == {1} by { assert 1 in c.picks[0]; }
    assert SelectError(c.entries[1..], c.picks[1..]) == None;
    d2 := Exec(d1, c).db;
  }

  /** Two tickets, a hold of both until 5, a create at 6 that reclaims one of them, and a purchase whose
      transaction had started at 4: the purchase succeeds with only the other ticket. */
  lemma PartialPurchaseHappens() returns (dbs: seq<Db>, cs: seq<Command>)
    ensures Trace(dbs, cs) && Consistent(dbs[0]) && |cs| == 3
    ensures cs[0].Create? && OutcomeAt(dbs, cs, 0) == Created({1, 2})
    ensures cs[1].Create? && OutcomeAt(dbs, cs, 1) == Created({1})
    ensures cs[2].Purchase? && cs[2].id == cs[0].id && OutcomeAt(dbs, cs, 2) == Purchased({2})
    ensures cs[2].now < cs[1].now
  {
    var c0, c1 := Create(10, 0, 0, [Entry("A", 2)], [[1, 2]], 0, 5), Create(11, 0, 0, [Entry("A", 1)], [[1]], 6, 11);
    var c2 := Purchase(10, 0, 4);
    var d1 := FirstHold();
    var d2 := SecondHoldReclaims(d1);
    assert Matched(d2, c2) == {10};
    assert 2 in OwnedBy(d2.tickets, {10});
    dbs, cs := [TwoTickets(), d1, d2, Exec(d2, c2).db], [c0, c1, c2];
    assert StepAt(dbs, cs, 0) && StepAt(dbs, cs, 1) && StepAt(dbs, cs, 2);
  }

  /* ----- When purchase and cancel succeed ----- */

  /** Every hold that has not run out at `now` still owns a ticket. */
  ghost predicate HoldsBacked(db: Db, now: int) {
    forall r <- db.reservations ::
      db.reservations[r].status == Pending && db.reservations[r].expiresAt >= now ==> OwnedBy(db.tickets, {r}) != {}
  }

  lemma ExecKeepsHoldsBacked(db: Db, c: Command, before: int)
    requires Consistent(db) && Legal(db, c) && HoldsBacked(db, before) && before <= c.now
    ensures HoldsBacked(Exec(db, c).db, c.now)
  {
    var db' := Exec(db, c).db;
    if c.Create? {
      CreatePicksEligible(db, c);
    }
    forall r | r in db'.reservations && db'.reservations[r].status == Pending && db'.reservations[r].expiresAt >= c.now
      ensures OwnedBy(db'.tickets, {r}) != {}
    {
      if r in db.reservations {
        var t :| t in OwnedBy(db.tickets, {r});
        assert t in OwnedBy(db'.tickets, {r});
      } else {
        var t :| t in Picked(c.picks);
        assert t in OwnedBy(db'.tickets, {r});
      }
    }
  }

  lemma {:induction false} TraceKeepsHoldsBacked(dbs: seq<Db>, cs: seq<Command>, j: nat)
    requires Trace(dbs, cs) && Consistent(dbs[0]) && InOrder(cs) && j < |cs| && HoldsBacked(dbs[0], cs[0].now)
    ensures HoldsBacked(dbs[j], cs[j].now)
  {
    if j > 0 {
      TraceKeepsHoldsBacked(dbs, cs, j - 1);
      assert StepAt(dbs, cs, j - 1);
      TraceKeepsConsistent(dbs, cs, j - 1);
      ExecKeepsHoldsBacked(dbs[j - 1], cs[j - 1], cs[j - 1].now);
    }
  }

  /** With clocks in commit order, purchase and cancel fail only for a reservation that is missing, is someone
      else's, or is no longer open: they never fail for want of tickets. */
  lemma PurchaseAndCancelSucceedIff(dbs: seq<Db>, cs: seq<Command>, j: nat)
    requires Trace(dbs, cs) && Consistent(dbs[0]) && InOrder(cs) && j < |cs| && HoldsBacked(dbs[0], cs[0].now)
    requires cs[j].Purchase? || cs[j].Cancel?
    ensures !OutcomeAt(dbs, cs, j).Failed? <==>
              && cs[j].id in dbs[j].reservations
              && var row := dbs[j].reservations[cs[j].id];
                 && row.user == cs[j].user
                 && (|| (row.status == Pending && cs[j].now < row.expiresAt)
                     || (cs[j].Cancel? && row.status == Confirmed))
  {
    assert StepAt(dbs, cs, j);
    TraceKeepsConsistent(dbs, cs, j);
    TraceKeepsHoldsBacked(dbs, cs, j);
    var rs := Matched(dbs[j], cs[j]);
    if cs[j].id in dbs[j].reservations && Matches(cs[j], cs[j].id, dbs[j].reservations[cs[j].id]) {
      assert rs == {cs[j].id};
      if dbs[j].reservations[cs[j].id].status == Confirmed {
        var t :| t in dbs[j].tickets && dbs[j].tickets[t].reservation == Some(cs[j].id);
        assert t in OwnedBy(dbs[j].tickets, rs);
      }
    } else {
      assert rs == {};
    }
  }
}
