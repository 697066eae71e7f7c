/** How often reservations can change status.  A pending reservation has two changes left, a confirmed one
    has one, an ended one has none; every successful status change spends at least one. */
module Lifetimes {
  import opened Tables
  import opened Transactions
  import opened Invariant

  function WithStatus(db: Db, status: ReservationStatus): set<ReservationId> {
    set r | r in db.reservations && db.reservations[r].status == status
  }

  function ChangesLeft(db: Db): nat {
    2 * |WithStatus(db, Pending)| + |WithStatus(db, Confirmed)|
  }

  /** How many reservations an outcome moved to another status. */
  function StatusChanges(o: Outcome): nat {
    match o
    case Purchased(_) => 1
    case Released(_) => 1
    case Swept(rs) => |rs|
    case Created(_) => 0
    case Failed(_) => 0
  }

  /** The reservations that exist before and after with different statuses. */
  function StatusChanged(a: Db, b: Db): set<ReservationId> {
    set r | r in a.reservations && r in b.reservations && a.reservations[r].status != b.reservations[r].status
  }

  lemma CountsStatusChanges(db: Db, c: Command)
    requires Consistent(db) && Legal(db, c)
    ensures StatusChanges(Exec(db, c).outcome) == |StatusChanged(db, Exec(db, c).db)|
  {
    var db' := Exec(db, c).db;
    match Exec(db, c).outcome
    case Failed(_) => assert StatusChanged(db, db') == {};
    case Created(_) => assert StatusChanged(db, db') == {};
    case Swept(rs) => assert StatusChanged(db, db') == rs;
    case _ =>
      SucceededOnItsRow(db, c);
      assert c.id in Matched(db, c);
      assert StatusChanged(db, db') == {c.id};
  }

  lemma StepSpendsChanges(db: Db, c: Command)
    requires Consistent(db) && Legal(db, c)
    ensures var s := Exec(db, c);
            && ChangesLeft(s.db) + StatusChanges(s.outcome) <= ChangesLeft(db) + (if s.outcome.Created? then 2 else 0)
            && StatusChanges(s.outcome) == |StatusChanged(db, s.db)|
  {
    CountsStatusChanges(db, c);
    match Exec(db, c).outcome
    case Failed(_) =>
    case Created(_) => CreateSpends(db, c);
    case Swept(rs) => SweepSpends(db, c);
    case Purchased(_) => SucceededOnItsRow(db, c); PurchaseSpends(db, c);
    case Released(_) => SucceededOnItsRow(db, c); CancelSpends(db, c);
  }

  lemma CreateSpends(db: Db, c: Command)
    requires Legal(db, c) && c.Create? && Exec(db, c).outcome.Created?
    ensures ChangesLeft(Exec(db, c).db) == ChangesLeft(db) + 2
  {
    var row := Reservation(c.user, c.game, Pending, c.expiresAt);
    var d := Exec(db, c).db;
    assert d.reservations == db.reservations[c.id := row];
    InsertedPending(db, d, c.id, row);
  }

  lemma InsertedPending(db: Db, d: Db, id: ReservationId, row: Reservation)
    requires id !in db.reservations && row.status == Pending && d.reservations == db.reservations[id := row]
    ensures ChangesLeft(d) == ChangesLeft(db) + 2
  {
    assert WithStatus(d, Pending) == WithStatus(db, Pending) + {id};
    assert WithStatus(d, Confirmed) == WithStatus(db, Confirmed);
  }

  lemma SweepSpends(db: Db, c: Command)
    requires c.Sweep?
    ensures ChangesLeft(Exec(db, c).db) == ChangesLeft(db) - 2 * |Matched(db, c)|
  {
    assert Matched(db, c) <= WithStatus(db, Pending);
    assert WithStatus(Exec(db, c).db, Pending) == WithStatus(db, Pending) - Matched(db, c);
    assert WithStatus(Exec(db, c).db, Confirmed) == WithStatus(db, Confirmed);
  }

  lemma PurchaseSpends(db: Db, c: Command)
    requires c.Purchase? && Matched(db, c) == {c.id} && Exec(db, c).outcome.Purchased?
    ensures ChangesLeft(Exec(db, c).db) == ChangesLeft(db) - 1
  {
    assert c.id in Matched(db, c);
    assert WithStatus(Exec(db, c).db, Pending) == WithStatus(db, Pending) - {c.id};
    assert WithStatus(Exec(db, c).db, Confirmed) == WithStatus(db, Confirmed) + {c.id};
  }

  lemma CancelSpends(db: Db, c: Command)
    requires c.Cancel? && Matched(db, c) == {c.id} && Exec(db, c).outcome.Released?
    ensures ChangesLeft(Exec(db, c).db) < ChangesLeft(db)
  {
    assert c.id in Matched(db, c);
    assert WithStatus(Exec(db, c).db, Pending) == WithStatus(db, Pending) - {c.id};
    assert WithStatus(Exec(db, c).db, Confirmed) == WithStatus(db, Confirmed) - {c.id};
  }

  lemma SucceededOnItsRow(db: Db, c: Command)
    requires (c.Purchase? || c.Cancel?) && !Exec(db, c).outcome.Failed?
    ensures Matched(db, c) == {c.id}
  {
    var t :| t in OwnedBy(db.tickets, Matched(db, c));
  }

  ghost function CountChanges(dbs: seq<Db>, cs: seq<Command>, n: nat): nat
    requires Trace(dbs, cs) && n <= |cs|
  {
    if n == 0 then 0 else CountChanges(dbs, cs, n - 1) + StatusChanges(OutcomeAt(dbs, cs, n - 1))
  }

  ghost function CountCreated(dbs: seq<Db>, cs: seq<Command>, n: nat): nat
    requires Trace(dbs, cs) && n <= |cs|
  {
    if n == 0 then 0 else CountCreated(dbs, cs, n - 1) + (if OutcomeAt(dbs, cs, n - 1).Created? then 1 else 0)
  }

  lemma {:induction false} ChangesLeftOverRuns(dbs: seq<Db>, cs: seq<Command>, n: nat)
    requires Trace(dbs, cs) && Consistent(dbs[0]) && n <= |cs|
    ensures CountChanges(dbs, cs, n) + ChangesLeft(dbs[n]) <= ChangesLeft(dbs[0]) + 2 * CountCreated(dbs, cs, n)
  {
    if n > 0 {
      ChangesLeftOverRuns(dbs, cs, n - 1);
      assert StepAt(dbs, cs, n - 1);
      TraceKeepsConsistent(dbs, cs, n - 1);
      StepSpendsChanges(dbs[n - 1], cs[n - 1]);
    }
  }

  /** From tables without reservations: purchases, cancels and expiries together are at most twice the creates. */
  lemma ChangesBoundedByCreates(dbs: seq<Db>, cs: seq<Command>)
    requires Trace(dbs, cs) && Consistent(dbs[0]) && dbs[0].reservations == map[]
    ensures CountChanges(dbs, cs, |cs|) <= 2 * CountCreated(dbs, cs, |cs|)
  {
    ChangesLeftOverRuns(dbs, cs, |cs|);
    assert WithStatus(dbs[0], Pending) == {} && WithStatus(dbs[0], Confirmed) == {};
  }

  /** An ended reservation keeps its row for ever and never owns a ticket again. */
  lemma EndedNeverComesBack(dbs: seq<Db>, cs: seq<Command>, r: ReservationId, i: nat, j: nat)
    requires Trace(dbs, cs) && Consistent(dbs[0]) && i <= j <= |cs|
    requires r in dbs[i].reservations && dbs[i].reservations[r].status in {Cancelled, Expired}
    ensures r in dbs[j].reservations && dbs[j].reservations[r] == dbs[i].reservations[r]
    ensures OwnedBy(dbs[j].tickets, {r}) == {}
  {
    TraceEvolves(dbs, cs, i, j);
    TraceKeepsConsistent(dbs, cs, j);
    assert LaterReservation(dbs[i].reservations[r], dbs[j].reservations[r]);
    forall t | t in dbs[j].tickets ensures dbs[j].tickets[t].reservation != Some(r) {
      assert TicketConsistent(dbs[j], dbs[j].tickets[t]);
    }
  }
}
