/** What every transaction keeps: the two tables agree (`Consistent`), and rows only move forward
    (`Evolves`).  Neither needs the commands' clocks to be in order. */
module Invariant {
  import opened Tables
  import opened Transactions

  lemma CreatePicksEligible(db: Db, c: Command)
    requires c.Create? && Legal(db, c)
    ensures Picked(c.picks) <= db.tickets.Keys
    ensures forall t <- Picked(c.picks) ::
              db.tickets[t].game == c.game && EligibleRow(db.tickets[t], db.reservations, c.now)
  {
    forall t | t in Picked(c.picks)
      ensures t in db.tickets && db.tickets[t].game == c.game && EligibleRow(db.tickets[t], db.reservations, c.now)
    {
      var i :| 0 <= i < |c.picks| && t in c.picks[i];
      assert t in Elements(c.picks[i]);
      assert ValidPick(Eligible(db, c.game, c.entries[i].grade, c.now), c.entries[i].quantity, c.picks[i]);
    }
  }

  lemma ExecKeepsConsistent(db: Db, c: Command)
    requires Consistent(db) && Legal(db, c)
    ensures Consistent(Exec(db, c).db)
  {
    if c.Create? {
      CreateKeepsConsistent(db, c);
    } else {
      RowsKeepConsistent(db, c);
    }
  }

  lemma CreateKeepsConsistent(db: Db, c: Command)
    requires Consistent(db) && Legal(db, c) && c.Create?
    ensures Consistent(Exec(db, c).db)
  {
    CreatePicksEligible(db, c);
    var db' := Exec(db, c).db;
    forall r | r in db'.reservations && db'.reservations[r].status == Confirmed
      ensures exists t <- db'.tickets :: db'.tickets[t].reservation == Some(r)
    {
      var t :| t in db.tickets && db.tickets[t].reservation == Some(r);
      assert TicketConsistent(db, db.tickets[t]);
      assert db'.tickets[t].reservation == Some(r);
    }
    forall t | t in db'.tickets
      ensures TicketConsistent(db', db'.tickets[t])
    {
      assert TicketConsistent(db, db.tickets[t]);
    }
  }

  lemma RowsKeepConsistent(db: Db, c: Command)
    requires Consistent(db) && !c.Create?
    ensures Consistent(Exec(db, c).db)
  {
    var db' := Exec(db, c).db;
    forall t | t in db'.tickets
      ensures TicketConsistent(db', db'.tickets[t])
    {
      assert TicketConsistent(db, db.tickets[t]);
    }
    forall r | r in db'.reservations && db'.reservations[r].status == Confirmed
      ensures exists t <- db'.tickets :: db'.tickets[t].reservation == Some(r)
    {
      if db.reservations[r].status == Confirmed {
        var t :| t in db.tickets && db.tickets[t].reservation == Some(r);
        assert TicketConsistent(db, db.tickets[t]);
        assert db'.tickets[t].reservation == Some(r);
      } else {
        var t :| t in OwnedBy(db.tickets, Matched(db, c));
        assert db'.tickets[t].reservation == Some(r);
      }
    }
  }

  /* ----- The answer names exactly what changed ----- */

  function ChangedTickets(a: Db, b: Db): set<TicketId> {
    set t | t in a.tickets && (t !in b.tickets || a.tickets[t] != b.tickets[t])
  }

  function ChangedReservations(a: Db, b: Db): set<ReservationId> {
    set r | r in b.reservations && (r !in a.reservations || a.reservations[r] != b.reservations[r])
  }

  /** The tickets and reservations that an answer speaks of are exactly those whose rows the command changed, so
      the answer tells whether anything changed at all: nothing did exactly when the command failed or was a
      sweep that expired nothing. */
  lemma AnswerNamesTheChanges(db: Db, c: Command)
    requires Consistent(db) && Legal(db, c)
    ensures var s := Exec(db, c);
            match s.outcome
            case Created(ts) => ChangedTickets(db, s.db) == ts && ChangedReservations(db, s.db) == {c.id}
            case Purchased(ts) => ChangedTickets(db, s.db) == ts && ChangedReservations(db, s.db) == {c.id}
            case Released(ts) => ChangedTickets(db, s.db) == ts && ChangedReservations(db, s.db) == {c.id}
            case Swept(rs) => ChangedTickets(db, s.db) == OwnedBy(db.tickets, rs) && ChangedReservations(db, s.db) == rs
            case Failed(_) => ChangedTickets(db, s.db) == {} && ChangedReservations(db, s.db) == {}
    ensures Exec(db, c).db == db <==> Exec(db, c).outcome.Failed? || Exec(db, c).outcome == Swept({})
  {
    if Exec(db, c).outcome.Failed? {
    } else if c.Create? {
      CreateNamesTheChanges(db, c);
    } else {
      RowsNameTheChanges(db, c);
      if c.Sweep? {
        if Matched(db, c) == {} {
          SweptNothing(db, c);
        }
      } else {
        var t :| t in OwnedBy(db.tickets, Matched(db, c));
        assert Matched(db, c) == {c.id};
      }
    }
  }

  lemma CreateNamesTheChanges(db: Db, c: Command)
    requires Consistent(db) && Legal(db, c) && c.Create? && Exec(db, c).outcome.Created?
    ensures ChangedTickets(db, Exec(db, c).db) == Exec(db, c).outcome.tickets
    ensures ChangedReservations(db, Exec(db, c).db) == {c.id}
  {
    CreatePicksEligible(db, c);
    forall t | t in db.tickets ensures db.tickets[t].reservation != Some(c.id) {
      assert TicketConsistent(db, db.tickets[t]);
    }
  }

  lemma SweptNothing(db: Db, c: Command)
    requires c.Sweep? && Matched(db, c) == {}
    ensures Exec(db, c).db == db
  {
    assert OwnedBy(db.tickets, {}) == {};
    assert Exec(db, c).db.tickets == db.tickets && Exec(db, c).db.reservations == db.reservations;
  }

  lemma RowsNameTheChanges(db: Db, c: Command)
    requires Consistent(db) && !c.Create? && !Exec(db, c).outcome.Failed?
    ensures ChangedTickets(db, Exec(db, c).db) == OwnedBy(db.tickets, Matched(db, c))
    ensures ChangedReservations(db, Exec(db, c).db) == Matched(db, c)
  {
    forall t | t in db.tickets
      ensures t in OwnedBy(db.tickets, Matched(db, c)) <==> Exec(db, c).db.tickets[t] != db.tickets[t]
    {
      assert TicketConsistent(db, db.tickets[t]);
    }
  }

  /* ----- Rows only move forward ----- */

  /** Pending may become anything, confirmed may only be cancelled, and ended reservations stay as they are. */
  predicate Reaches(a: ReservationStatus, b: ReservationStatus) {
    a == b || a == Pending || (a == Confirmed && b == Cancelled)
  }

  /** `b` is a later state of `a`: no row disappears, the descriptive columns stay, statuses move forward,
      and a reservation known in `a` never gains a ticket. */
  ghost predicate Evolves(a: Db, b: Db) {
    && b.users == a.users && b.games == a.games
    && b.tickets.Keys == a.tickets.Keys
    && (forall t <- a.tickets :: SameTicket(a.tickets[t], b.tickets[t]))
    && (forall r <- a.reservations :: r in b.reservations && LaterReservation(a.reservations[r], b.reservations[r]))
    && (forall t <- a.tickets :: NoGain(a, t, b.tickets[t]))
  }

  predicate SameTicket(a: Ticket, b: Ticket) {
    a.seat == b.seat && a.game == b.game && a.price == b.price
  }

  predicate LaterReservation(a: Reservation, b: Reservation) {
    a.user == b.user && a.game == b.game && a.expiresAt == b.expiresAt && Reaches(a.status, b.status)
  }

  predicate NoGain(a: Db, t: TicketId, later: Ticket)
    requires t in a.tickets
  {
    later.reservation.Some? && later.reservation.value in a.reservations ==>
      a.tickets[t].reservation == later.reservation
  }

  lemma EvolvesTransitive(a: Db, b: Db, c: Db)
    requires Evolves(a, b) && Evolves(b, c)
    ensures Evolves(a, c)
  {
    forall t | t in a.tickets
      ensures SameTicket(a.tickets[t], c.tickets[t]) && NoGain(a, t, c.tickets[t])
    {
      assert SameTicket(b.tickets[t], c.tickets[t]) && NoGain(b, t, c.tickets[t]) && NoGain(a, t, b.tickets[t]);
    }
    forall r | r in a.reservations
      ensures r in c.reservations && LaterReservation(a.reservations[r], c.reservations[r])
    {
      assert LaterReservation(a.reservations[r], b.reservations[r]);
      assert LaterReservation(b.reservations[r], c.reservations[r]);
    }
  }

  lemma ExecEvolves(db: Db, c: Command)
    requires Consistent(db) && Legal(db, c)
    ensures Evolves(db, Exec(db, c).db)
  {
    if c.Create? {
      CreatePicksEligible(db, c);
    } else {
      RowsEvolve(db, c);
    }
  }

  lemma RowsEvolve(db: Db, c: Command)
    requires !c.Create?
    ensures Evolves(db, Exec(db, c).db)
  {
  }

  /* ----- Over whole runs ----- */

  lemma {:induction false} TraceKeepsConsistent(dbs: seq<Db>, cs: seq<Command>, i: nat)
    requires Trace(dbs, cs) && Consistent(dbs[0]) && i <= |cs|
    ensures Consistent(dbs[i])
  {
    if i > 0 {
      TraceKeepsConsistent(dbs, cs, i - 1);
      assert StepAt(dbs, cs, i - 1);
      ExecKeepsConsistent(dbs[i - 1], cs[i - 1]);
    }
  }

  lemma {:induction false} TraceEvolves(dbs: seq<Db>, cs: seq<Command>, i: nat, j: nat)
    requires Trace(dbs, cs) && Consistent(dbs[0]) && i <= j <= |cs|
    ensures Evolves(dbs[i], dbs[j])
  {
    if i < j {
      TraceEvolves(dbs, cs, i, j - 1);
      assert StepAt(dbs, cs, j - 1);
      TraceKeepsConsistent(dbs, cs, j - 1);
      ExecEvolves(dbs[j - 1], cs[j - 1]);
      EvolvesTransitive(dbs[i], dbs[j - 1], dbs[j]);
    }
  }

  /** A ticket and its owner always agree in these four ways, spelled out for one ticket of any later state. */
  lemma TicketAndOwnerAgree(db: Db, t: TicketId, r: ReservationId)
    requires Consistent(db) && t in db.tickets && db.tickets[t].reservation == Some(r)
    ensures r in db.reservations && db.reservations[r].game == db.tickets[t].game
    ensures db.tickets[t].status == Reserved <==> db.reservations[r].status == Pending
    ensures db.tickets[t].status == Sold <==> db.reservations[r].status == Confirmed
    ensures db.reservations[r].status in {Pending, Confirmed}
  {
    assert TicketConsistent(db, db.tickets[t]);
  }
}
