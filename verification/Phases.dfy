/** The life of one reservation, told by the commands of a run and the bare clock comparisons: what its status
    says about the past, and what may happen to it before, at and after its expiry. */
module Phases {
  import opened Tables
  import opened Transactions
  import opened Invariant
  import opened Histories

  /** Command `k` is a sweep that expired `r`. */
  ghost predicate Expires(dbs: seq<Db>, cs: seq<Command>, r: ReservationId, k: nat)
    requires Trace(dbs, cs) && k < |cs|
  {
    OutcomeAt(dbs, cs, k).Swept? && r in OutcomeAt(dbs, cs, k).reservations
  }

  ghost predicate PurchasedBetween(dbs: seq<Db>, cs: seq<Command>, r: ReservationId, i: nat, j: nat)
    requires Trace(dbs, cs) && j <= |cs|
  {
    exists k: nat | i <= k < j :: Purchases(dbs, cs, r, k)
  }

  ghost predicate ExpiredBetween(dbs: seq<Db>, cs: seq<Command>, r: ReservationId, i: nat, j: nat)
    requires Trace(dbs, cs) && j <= |cs|
  {
    exists k: nat | i <= k < j :: Expires(dbs, cs, r, k)
  }

  /* ----- The status tells the history ----- */

  lemma StatusStep(dbs: seq<Db>, cs: seq<Command>, r: ReservationId, k: nat)
    requires Trace(dbs, cs) && k < |cs| && r in dbs[k].reservations
    ensures r in dbs[k + 1].reservations
    ensures dbs[k + 1].reservations[r].status
         == if Purchases(dbs, cs, r, k) then Confirmed
            else if Cancels(dbs, cs, r, k) then Cancelled
            else if Expires(dbs, cs, r, k) then Expired
            else dbs[k].reservations[r].status
    ensures Purchases(dbs, cs, r, k) || Expires(dbs, cs, r, k) ==> dbs[k].reservations[r].status == Pending
    ensures Cancels(dbs, cs, r, k) ==> dbs[k].reservations[r].status in {Pending, Confirmed}
  {
    var db, c := dbs[k], cs[k];
    assert StepAt(dbs, cs, k);
    if (c.Purchase? || c.Cancel?) && !Exec(db, c).outcome.Failed? {
      var t :| t in OwnedBy(db.tickets, Matched(db, c));
      assert Matched(db, c) == {c.id};
    }
  }

  /** What the status of a reservation says about a stretch of the run at whose start it was pending. */
  ghost predicate TellsHistory(dbs: seq<Db>, cs: seq<Command>, r: ReservationId, status: ReservationStatus,
                               i: nat, j: nat)
    requires Trace(dbs, cs) && j <= |cs|
  {
    && (status == Pending <==>
          && !PurchasedBetween(dbs, cs, r, i, j)
          && !CancelledBetween(dbs, cs, r, i, j)
          && !ExpiredBetween(dbs, cs, r, i, j))
    && (status == Confirmed <==> PurchasedBetween(dbs, cs, r, i, j) && !CancelledBetween(dbs, cs, r, i, j))
    && (status == Cancelled <==> CancelledBetween(dbs, cs, r, i, j))
    && (status == Expired <==> ExpiredBetween(dbs, cs, r, i, j))
  }

  lemma BetweenSnoc(dbs: seq<Db>, cs: seq<Command>, r: ReservationId, i: nat, p: nat)
    requires Trace(dbs, cs) && i <= p < |cs|
    ensures PurchasedBetween(dbs, cs, r, i, p + 1) <==> PurchasedBetween(dbs, cs, r, i, p) || Purchases(dbs, cs, r, p)
    ensures CancelledBetween(dbs, cs, r, i, p + 1) <==> CancelledBetween(dbs, cs, r, i, p) || Cancels(dbs, cs, r, p)
    ensures ExpiredBetween(dbs, cs, r, i, p + 1) <==> ExpiredBetween(dbs, cs, r, i, p) || Expires(dbs, cs, r, p)
  {
  }

  /** In every run, whatever the clocks: a reservation that was pending is confirmed exactly when it has been
      purchased and not cancelled, cancelled exactly when a cancel of it succeeded, expired exactly when a sweep
      expired it, and pending exactly when nothing of the kind happened. */
  lemma {:induction false} StatusTellsHistory(dbs: seq<Db>, cs: seq<Command>, r: ReservationId, i: nat, j: nat)
    requires Trace(dbs, cs) && i <= j <= |cs|
    requires r in dbs[i].reservations && dbs[i].reservations[r].status == Pending
    ensures r in dbs[j].reservations
    ensures TellsHistory(dbs, cs, r, dbs[j].reservations[r].status, i, j)
  {
    if i < j {
      StatusTellsHistory(dbs, cs, r, i, j - 1);
      StatusStep(dbs, cs, r, j - 1);
      BetweenSnoc(dbs, cs, r, i, j - 1);
    }
  }

  /* ----- Before, at and after the expiry ----- */

  /** A purchase or cancel of an open hold, in every run whatever the clocks: it succeeds exactly for the user
      who created it, in a transaction that started before the expiry, as long as other creates have left it a
      ticket. */
  lemma OpenHoldSucceedsIff(dbs: seq<Db>, cs: seq<Command>, i: nat, j: nat)
    requires Trace(dbs, cs) && Consistent(dbs[0]) && i < j < |cs|
    requires cs[i].Create? && OutcomeAt(dbs, cs, i).Created? && !HoldEnded(dbs, cs, cs[i].id, i + 1, j)
    requires (cs[j].Purchase? || cs[j].Cancel?) && cs[j].id == cs[i].id
    ensures !OutcomeAt(dbs, cs, j).Failed? <==>
              && cs[j].user == cs[i].user
              && cs[j].now < cs[i].expiresAt
              && !(OutcomeAt(dbs, cs, i).tickets <= TakenBetween(dbs, cs, i + 1, j))
  {
    var r := cs[i].id;
    CreatedOwnsItsTickets(dbs, cs, i);
    PendingUntilEnded(dbs, cs, r, i + 1, j);
    PendingOwnsTheRest(dbs, cs, r, i + 1, j);
    TraceEvolves(dbs, cs, i + 1, j);
    assert LaterReservation(dbs[i + 1].reservations[r], dbs[j].reservations[r]);
    assert StepAt(dbs, cs, j);
    OwnRowSucceedsIff(dbs[j], cs[j]);
    var ts, taken := OutcomeAt(dbs, cs, i).tickets, TakenBetween(dbs, cs, i + 1, j);
    assert ts - taken == {} <==> ts <= taken by {
      if t :| t in ts && t !in taken {
        assert t in ts - taken;
      }
    }
  }

  /** A purchase or cancel of a pending reservation, on one table. */
  lemma OwnRowSucceedsIff(db: Db, c: Command)
    requires (c.Purchase? || c.Cancel?) && c.id in db.reservations && db.reservations[c.id].status == Pending
    ensures !Exec(db, c).outcome.Failed? <==>
              && c.user == db.reservations[c.id].user
              && c.now < db.reservations[c.id].expiresAt
              && OwnedBy(db.tickets, {c.id}) != {}
  {
    if c.user == db.reservations[c.id].user && c.now < db.reservations[c.id].expiresAt {
      assert Matched(db, c) == {c.id};
    } else {
      assert Matched(db, c) == {};
      assert OwnedBy(db.tickets, {}) == {};
    }
  }

  /** With clocks in commit order no create can have taken the tickets: the user and the clock alone decide. */
  lemma OpenHoldSucceedsInOrderIff(dbs: seq<Db>, cs: seq<Command>, i: nat, j: nat)
    requires Trace(dbs, cs) && Consistent(dbs[0]) && InOrder(cs) && i < j < |cs|
    requires cs[i].Create? && OutcomeAt(dbs, cs, i).Created? && !HoldEnded(dbs, cs, cs[i].id, i + 1, j)
    requires (cs[j].Purchase? || cs[j].Cancel?) && cs[j].id == cs[i].id
    ensures !OutcomeAt(dbs, cs, j).Failed? <==> cs[j].user == cs[i].user && cs[j].now < cs[i].expiresAt
  {
    OpenHoldSucceedsIff(dbs, cs, i, j);
    if cs[j].now < cs[i].expiresAt {
      var r := cs[i].id;
      CreatedOwnsItsTickets(dbs, cs, i);
      PendingUntilEnded(dbs, cs, r, i + 1, j);
      PendingOwnsTheRest(dbs, cs, r, i + 1, j);
      assert StepAt(dbs, cs, i);
      var t :| t in OutcomeAt(dbs, cs, i).tickets;
      assert t in OwnedBy(dbs[i + 1].tickets, {r});
      KeptWithoutLateCreate(dbs, cs, t, r, i + 1, j);
      assert t in OwnedBy(dbs[j].tickets, {r});
    }
  }

  /** A complete sweep expires an open hold exactly when it started after the expiry; the tickets that the hold
      still has are offered to a create of their game and grade under the same condition.  At the expiry itself
      the hold can neither be used nor be taken. */
  lemma OpenHoldLapsesIff(dbs: seq<Db>, cs: seq<Command>, i: nat, j: nat)
    requires Trace(dbs, cs) && Consistent(dbs[0]) && i < j <= |cs|
    requires cs[i].Create? && OutcomeAt(dbs, cs, i).Created? && !HoldEnded(dbs, cs, cs[i].id, i + 1, j)
    ensures j < |cs| && cs[j].Sweep? && cs[i].id !in cs[j].missed ==>
              (Expires(dbs, cs, cs[i].id, j) <==> cs[j].now > cs[i].expiresAt)
    ensures forall t, game, grade, now: int | t in OwnedBy(dbs[j].tickets, {cs[i].id}) ::
              t in Eligible(dbs[j], game, grade, now)
              <==> game == cs[i].game && grade == dbs[j].tickets[t].seat.grade && now > cs[i].expiresAt
  {
    var r := cs[i].id;
    CreatedOwnsItsTickets(dbs, cs, i);
    PendingUntilEnded(dbs, cs, r, i + 1, j);
    TraceEvolves(dbs, cs, i + 1, j);
    TraceKeepsConsistent(dbs, cs, j);
    assert LaterReservation(dbs[i + 1].reservations[r], dbs[j].reservations[r]);
    forall t | t in OwnedBy(dbs[j].tickets, {r})
      ensures dbs[j].tickets[t].status == Reserved && dbs[j].tickets[t].game == cs[i].game
    {
      TicketAndOwnerAgree(dbs[j], t, r);
    }
  }

  /** A purchased reservation can be cancelled at any time, by its user and by nobody else, until it is. */
  lemma SoldIsCancellableIff(dbs: seq<Db>, cs: seq<Command>, i: nat, j: nat)
    requires Trace(dbs, cs) && Consistent(dbs[0]) && i < j < |cs|
    requires cs[i].Purchase? && OutcomeAt(dbs, cs, i).Purchased?
    requires cs[j].Cancel? && cs[j].id == cs[i].id
    ensures !OutcomeAt(dbs, cs, j).Failed? <==>
              cs[j].user == cs[i].user && !CancelledBetween(dbs, cs, cs[i].id, i + 1, j)
  {
    var r := cs[i].id;
    PurchasedWasLive(dbs, cs, r, i);
    StatusTellsHistory(dbs, cs, r, i, j);
    TraceEvolves(dbs, cs, i, j);
    assert LaterReservation(dbs[i].reservations[r], dbs[j].reservations[r]);
    assert StepAt(dbs, cs, i) && StepAt(dbs, cs, j);
    assert r in Matched(dbs[i], cs[i]);
    assert Purchases(dbs, cs, r, i);
    if CancelledBetween(dbs, cs, r, i + 1, j) {
      var k: nat :| i + 1 <= k < j && Cancels(dbs, cs, r, k);
      assert Matched(dbs[j], cs[j]) == {};
    } else {
      assert !CancelledBetween(dbs, cs, r, i, j);
      assert dbs[j].reservations[r].status == Confirmed;
      TraceKeepsConsistent(dbs, cs, j);
      ConfirmedCancelIff(dbs[j], cs[j]);
    }
  }

  lemma ConfirmedCancelIff(db: Db, c: Command)
    requires Consistent(db) && c.Cancel? && c.id in db.reservations && db.reservations[c.id].status == Confirmed
    ensures !Exec(db, c).outcome.Failed? <==> c.user == db.reservations[c.id].user
  {
    if c.user == db.reservations[c.id].user {
      assert Matched(db, c) == {c.id};
      var t :| t in db.tickets && db.tickets[t].reservation == Some(c.id);
      assert t in OwnedBy(db.tickets, Matched(db, c));
    } else {
      assert Matched(db, c) == {};
      assert OwnedBy(db.tickets, {}) == {};
    }
  }
}
