/** Lazy reclaim refines eager expiry.

    The engine lets lapsed reservations lie until a sweep finds them, and lets `Create` take their tickets
    meanwhile.  An eager system would sweep before every command and hand out only available tickets.  The two
    agree on every outcome, so when or whether sweeps happen changes nothing that a user can see. */
module LazyExpiry {
  import opened Tables
  import opened Transactions
  import opened Invariant
  import opened Histories

  predicate OwnerLapsed(ticket: Ticket, reservations: map<ReservationId, Reservation>, now: int) {
    && ticket.reservation.Some? && ticket.reservation.value in reservations
    && Lapsed(reservations[ticket.reservation.value], now)
  }

  function SweptTicket(ticket: Ticket, reservations: map<ReservationId, Reservation>, now: int): Ticket {
    if OwnerLapsed(ticket, reservations, now) then ticket.(status := Available, reservation := None) else ticket
  }

  function SweptReservation(r: Reservation, now: int): Reservation {
    if Lapsed(r, now) then r.(status := Expired) else r
  }

  /** The tables after a complete sweep at `now`, row by row. */
  function Swept(db: Db, now: int): Db {
    db.(tickets := map t | t in db.tickets :: SweptTicket(db.tickets[t], db.reservations, now),
        reservations := map r | r in db.reservations :: SweptReservation(db.reservations[r], now))
  }

  lemma SweptIsCompleteSweep(db: Db, now: int)
    ensures Swept(db, now) == Exec(db, FullSweep(now)).db
  {
    assert Swept(db, now).tickets == Exec(db, FullSweep(now)).db.tickets;
    assert Swept(db, now).reservations == Exec(db, FullSweep(now)).db.reservations;
  }

  /** What an allocator without reclaim may hand out. */
  function AvailableOnly(db: Db, game: GameId, grade: string): set<TicketId> {
    set t | t in db.tickets && Wanted(db.tickets[t], game, grade) && db.tickets[t].status == Available
  }

  ghost predicate EagerLegal(db: Db, c: Command) {
    c.Create? ==>
      && c.id !in db.reservations
      && |c.picks| == |c.entries|
      && forall i | 0 <= i < |c.entries| ::
           ValidPick(AvailableOnly(db, c.game, c.entries[i].grade), c.entries[i].quantity, c.picks[i])
  }

  /** The eager system: sweep at the command's own time, then run it. */
  function EagerExec(db: Db, c: Command): Step
    requires c.Create? ==> |c.picks| == |c.entries|
  {
    Exec(Swept(db, c.now), c)
  }

  /** What may be reclaimed now is what a sweep now would free. */
  lemma EligibleIsAvailableAfterSweep(db: Db, game: GameId, grade: string, now: int)
    requires Consistent(db)
    ensures Eligible(db, game, grade, now) == AvailableOnly(Swept(db, now), game, grade)
  {
    forall t | t in db.tickets
      ensures t in Eligible(db, game, grade, now) <==> t in AvailableOnly(Swept(db, now), game, grade)
    {
      assert TicketConsistent(db, db.tickets[t]);
    }
  }

  lemma LegalIffEagerLegal(db: Db, c: Command)
    requires Consistent(db)
    ensures Legal(db, c) <==> EagerLegal(Swept(db, c.now), c)
  {
    if c.Create? {
      forall i | 0 <= i < |c.entries|
        ensures Eligible(db, c.game, c.entries[i].grade, c.now)
             == AvailableOnly(Swept(db, c.now), c.game, c.entries[i].grade)
      {
        EligibleIsAvailableAfterSweep(db, c.game, c.entries[i].grade, c.now);
      }
    }
  }

  /** A sweep at a later time absorbs an earlier one, complete or not. */
  lemma SweepAbsorbs(db: Db, c: Command, later: int)
    requires Consistent(db) && c.Sweep? && c.now <= later
    ensures Swept(Exec(db, c).db, later) == Swept(db, later)
  {
    var d := Exec(db, c).db;
    forall t | t in db.tickets
      ensures SweptTicket(d.tickets[t], d.reservations, later) == SweptTicket(db.tickets[t], db.reservations, later)
    {
      assert TicketConsistent(db, db.tickets[t]);
    }
    SameRows(Swept(d, later), Swept(db, later));
  }

  lemma SweptTwice(db: Db, now: int, later: int)
    requires Consistent(db) && now <= later
    ensures Swept(Swept(db, now), later) == Swept(db, later)
  {
    SweptIsCompleteSweep(db, now);
    SweepAbsorbs(db, FullSweep(now), later);
  }

  lemma SameRows(a: Db, b: Db)
    requires a.users == b.users && a.games == b.games
    requires a.tickets.Keys == b.tickets.Keys && forall t <- a.tickets :: a.tickets[t] == b.tickets[t]
    requires a.reservations.Keys == b.reservations.Keys
    requires forall r <- a.reservations :: a.reservations[r] == b.reservations[r]
    ensures a == b
  {
    assert a.tickets == b.tickets && a.reservations == b.reservations;
  }

  /** A create that does not commit an already lapsed hold. */
  predicate HoldNotNegative(c: Command) {
    c.Create? ==> c.expiresAt >= c.now
  }

  /** One step: same outcome, and the same tables once the engine's are swept.  For a successful create this
      needs the hold time not to be negative, and for every other command nothing at all. */
  lemma StepRefinesEager(db: Db, c: Command)
    requires Consistent(db) && Legal(db, c)
    ensures !c.Sweep? ==> Exec(db, c).outcome == EagerExec(db, c).outcome
    ensures Swept(Exec(db, c).db, c.now) == EagerExec(db, c).db
            <==> HoldNotNegative(c) || Exec(db, c).outcome.Failed?
  {
    match c
    case Create(_, _, _, _, _, _, _) => CreateRefinesEager(db, c);
    case Sweep(_, _) => SweepAbsorbs(db, c, c.now); SweepOfSwept(db, c);
    case _ => RowsRefineEager(db, c);
  }

  lemma SweepOfSwept(db: Db, c: Command)
    requires c.Sweep?
    ensures EagerExec(db, c).db == Swept(db, c.now)
  {
    var e := Swept(db, c.now);
    assert Matched(e, c) == {};
    SameRows(Exec(e, c).db, e);
  }

  lemma CreateRefinesEager(db: Db, c: Command)
    requires Consistent(db) && Legal(db, c) && c.Create?
    ensures Exec(db, c).outcome == EagerExec(db, c).outcome
    ensures Swept(Exec(db, c).db, c.now) == EagerExec(db, c).db
            <==> HoldNotNegative(c) || Exec(db, c).outcome.Failed?
  {
    if Exec(db, c).outcome.Created? {
      var row, ts := Reservation(c.user, c.game, Pending, c.expiresAt), Picked(c.picks);
      assert Exec(db, c).db == Insert(db, c.id, row, ts);
      assert EagerExec(db, c).db == Insert(Swept(db, c.now), c.id, row, ts);
      if HoldNotNegative(c) {
        InsertThenSweep(db, c.id, row, ts, c.now);
      } else {
        assert Swept(Exec(db, c).db, c.now).reservations[c.id].status == Expired;
        assert EagerExec(db, c).db.reservations[c.id].status == Pending;
      }
    }
  }

  /** Sweeping commutes with the insert of a hold that has not run out. */
  lemma InsertThenSweep(db: Db, id: ReservationId, row: Reservation, ts: set<TicketId>, now: int)
    requires Consistent(db) && id !in db.reservations && !Lapsed(row, now)
    ensures Swept(Insert(db, id, row, ts), now) == Insert(Swept(db, now), id, row, ts)
  {
    var a, b := Swept(Insert(db, id, row, ts), now), Insert(Swept(db, now), id, row, ts);
    forall t | t in db.tickets ensures a.tickets[t] == b.tickets[t] {
      assert TicketConsistent(db, db.tickets[t]);
    }
    SameRows(a, b);
  }

  lemma RowsRefineEager(db: Db, c: Command)
    requires Consistent(db) && (c.Purchase? || c.Cancel?)
    ensures Exec(db, c).outcome == EagerExec(db, c).outcome
    ensures Swept(Exec(db, c).db, c.now) == EagerExec(db, c).db
  {
    SweepLeavesCommandsRows(db, c);
    var rs := Matched(db, c);
    var ts := OwnedBy(db.tickets, rs);
    if ts != {} {
      EffectThenSweep(db, c, rs, ts);
    }
  }

  /** Sweeping commutes with a change of reservations that the sweep does not match. */
  lemma EffectThenSweep(db: Db, c: Command, rs: set<ReservationId>, ts: set<TicketId>)
    requires Consistent(db) && (c.Purchase? || c.Cancel?) && rs == Matched(db, c) && ts == OwnedBy(db.tickets, rs)
    ensures Swept(Effect(db, c, rs, ts), c.now) == Effect(Swept(db, c.now), c, rs, ts)
  {
    var a, b := Swept(Effect(db, c, rs, ts), c.now), Effect(Swept(db, c.now), c, rs, ts);
    forall r | r in db.reservations ensures a.reservations[r] == b.reservations[r] {
    }
    forall t | t in db.tickets ensures a.tickets[t] == b.tickets[t] {
      EffectThenSweepTicket(db, c, rs, ts, t);
    }
    SameRows(a, b);
  }

  lemma EffectThenSweepTicket(db: Db, c: Command, rs: set<ReservationId>, ts: set<TicketId>, t: TicketId)
    requires Consistent(db) && (c.Purchase? || c.Cancel?) && rs == Matched(db, c) && ts == OwnedBy(db.tickets, rs)
    requires t in db.tickets
    ensures Swept(Effect(db, c, rs, ts), c.now).tickets[t] == Effect(Swept(db, c.now), c, rs, ts).tickets[t]
  {
    assert TicketConsistent(db, db.tickets[t]);
  }

  /** A sweep touches neither the rows a purchase or cancel matches nor their tickets. */
  lemma SweepLeavesCommandsRows(db: Db, c: Command)
    requires Consistent(db) && (c.Purchase? || c.Cancel?)
    ensures Matched(Swept(db, c.now), c) == Matched(db, c)
    ensures OwnedBy(Swept(db, c.now).tickets, Matched(db, c)) == OwnedBy(db.tickets, Matched(db, c))
  {
    var e := Swept(db, c.now);
    forall t | t in db.tickets
      ensures t in OwnedBy(e.tickets, Matched(db, c)) <==> t in OwnedBy(db.tickets, Matched(db, c))
    {
      assert TicketConsistent(db, db.tickets[t]);
    }
  }

  /* ----- Runs ----- */

  /** The eager system run on the same commands. */
  function EagerRun(db: Db, cs: seq<Command>): Db
    requires forall c <- cs :: c.Create? ==> |c.picks| == |c.entries|
  {
    if cs == [] then db else EagerExec(EagerRun(db, cs[..|cs| - 1]), cs[|cs| - 1]).db
  }

  ghost predicate HoldsNotNegative(cs: seq<Command>) {
    forall c <- cs :: HoldNotNegative(c)
  }

  lemma TracePicksFit(dbs: seq<Db>, cs: seq<Command>)
    requires Trace(dbs, cs)
    ensures forall c <- cs :: c.Create? ==> |c.picks| == |c.entries|
  {
    forall c | c in cs && c.Create? ensures |c.picks| == |c.entries| {
      var i: nat :| i < |cs| && cs[i] == c;
      assert StepAt(dbs, cs, i);
    }
  }

  /** Sweeping the engine's tables at the last command's time gives the eager system's tables, at every point
      of every run whose clocks are in order. */
  lemma {:induction false} RunRefinesEager(dbs: seq<Db>, cs: seq<Command>, n: nat)
    requires Trace(dbs, cs) && Consistent(dbs[0]) && InOrder(cs) && HoldsNotNegative(cs) && 0 < n <= |cs|
    ensures forall c <- cs :: c.Create? ==> |c.picks| == |c.entries|
    ensures Swept(dbs[n], cs[n - 1].now) == EagerRun(dbs[0], cs[..n])
  {
    TracePicksFit(dbs, cs);
    var p := n - 1;
    var c := cs[p];
    assert StepAt(dbs, cs, p) && cs[..n][..p] == cs[..p];
    TraceKeepsConsistent(dbs, cs, p);
    StepRefinesEager(dbs[p], c);
    if p > 0 {
      RunRefinesEager(dbs, cs, p);
      SweptTwice(dbs[p], cs[p - 1].now, c.now);
    }
  }

  /** ... and every command that is not a sweep has the same outcome and the same choices in both systems. */
  lemma OutcomesAreEager(dbs: seq<Db>, cs: seq<Command>, n: nat)
    requires Trace(dbs, cs) && Consistent(dbs[0]) && InOrder(cs) && HoldsNotNegative(cs) && n < |cs| && !cs[n].Sweep?
    ensures forall c <- cs :: c.Create? ==> |c.picks| == |c.entries|
    ensures OutcomeAt(dbs, cs, n) == EagerExec(EagerRun(dbs[0], cs[..n]), cs[n]).outcome
    ensures EagerLegal(Swept(EagerRun(dbs[0], cs[..n]), cs[n].now), cs[n])
  {
    TracePicksFit(dbs, cs);
    assert StepAt(dbs, cs, n);
    TraceKeepsConsistent(dbs, cs, n);
    StepRefinesEager(dbs[n], cs[n]);
    LegalIffEagerLegal(dbs[n], cs[n]);
    if n > 0 {
      RunRefinesEager(dbs, cs, n);
      SweptTwice(dbs[n], cs[n - 1].now, cs[n].now);
    }
  }

  /* ----- Sweeps may be added or removed anywhere ----- */

  function WithoutSweeps(cs: seq<Command>): seq<Command> {
    if cs == [] then []
    else WithoutSweeps(cs[..|cs| - 1]) + (if cs[|cs| - 1].Sweep? then [] else [cs[|cs| - 1]])
  }

  /** The outcomes of the commands that are not sweeps, in order. */
  ghost function Answers(dbs: seq<Db>, cs: seq<Command>, n: nat): seq<Outcome>
    requires Trace(dbs, cs) && n <= |cs|
  {
    if n == 0 then []
    else Answers(dbs, cs, n - 1) + (if cs[n - 1].Sweep? then [] else [OutcomeAt(dbs, cs, n - 1)])
  }

  /** Two runs over the same tables and the same commands, but with sweeps placed differently, give the same
      answers, and their tables are the same after a sweep. */
  lemma {:induction false} SweepsDoNotMatter(dbs: seq<Db>, cs: seq<Command>, dbs': seq<Db>, cs': seq<Command>,
                                             n: nat, n': nat, now: int)
    requires Trace(dbs, cs) && Trace(dbs', cs') && Consistent(dbs[0]) && dbs'[0] == dbs[0]
    requires InOrder(cs) && InOrder(cs') && HoldsNotNegative(cs) && HoldsNotNegative(cs')
    requires n <= |cs| && n' <= |cs'| && WithoutSweeps(cs[..n]) == WithoutSweeps(cs'[..n'])
    requires (n > 0 ==> cs[n - 1].now <= now) && (n' > 0 ==> cs'[n' - 1].now <= now)
    ensures Answers(dbs, cs, n) == Answers(dbs', cs', n')
    ensures Swept(dbs[n], now) == Swept(dbs'[n'], now)
    decreases n + n'
  {
    if n > 0 && cs[n - 1].Sweep? {
      LastSweep(dbs, cs, n, now);
      SweepsDoNotMatter(dbs, cs, dbs', cs', n - 1, n', now);
    } else if n' > 0 && cs'[n' - 1].Sweep? {
      LastSweep(dbs', cs', n', now);
      SweepsDoNotMatter(dbs, cs, dbs', cs', n, n' - 1, now);
    } else if n > 0 && n' > 0 {
      assert cs[..n][..n - 1] == cs[..n - 1] && cs'[..n'][..n' - 1] == cs'[..n' - 1];
      SnocInjective(WithoutSweeps(cs[..n - 1]), cs[n - 1], WithoutSweeps(cs'[..n' - 1]), cs'[n' - 1]);
      SweepsDoNotMatter(dbs, cs, dbs', cs', n - 1, n' - 1, cs[n - 1].now);
      LastCommand(dbs, cs, dbs', cs', n, n', now);
    }
  }

  lemma LastCommand(dbs: seq<Db>, cs: seq<Command>, dbs': seq<Db>, cs': seq<Command>, n: nat, n': nat, now: int)
    requires Trace(dbs, cs) && Trace(dbs', cs') && Consistent(dbs[0]) && dbs'[0] == dbs[0]
    requires 0 < n <= |cs| && 0 < n' <= |cs'| && cs[n - 1] == cs'[n' - 1]
    requires !cs[n - 1].Sweep? && HoldNotNegative(cs[n - 1]) && cs[n - 1].now <= now
    requires Answers(dbs, cs, n - 1) == Answers(dbs', cs', n' - 1)
    requires Swept(dbs[n - 1], cs[n - 1].now) == Swept(dbs'[n' - 1], cs[n - 1].now)
    ensures Answers(dbs, cs, n) == Answers(dbs', cs', n')
    ensures Swept(dbs[n], now) == Swept(dbs'[n'], now)
  {
    assert StepAt(dbs, cs, n - 1) && StepAt(dbs', cs', n' - 1);
    TraceKeepsConsistent(dbs, cs, n - 1);
    TraceKeepsConsistent(dbs', cs', n' - 1);
    SameCommandSameAnswer(dbs[n - 1], dbs'[n' - 1], cs[n - 1], now);
  }

  /** A sweep at the end answers nothing and is absorbed by a later one. */
  lemma LastSweep(dbs: seq<Db>, cs: seq<Command>, n: nat, now: int)
    requires Trace(dbs, cs) && Consistent(dbs[0]) && 0 < n <= |cs| && cs[n - 1].Sweep? && cs[n - 1].now <= now
    ensures WithoutSweeps(cs[..n]) == WithoutSweeps(cs[..n - 1])
    ensures Answers(dbs, cs, n) == Answers(dbs, cs, n - 1)
    ensures Swept(dbs[n], now) == Swept(dbs[n - 1], now)
  {
    assert cs[..n][..n - 1] == cs[..n - 1];
    assert StepAt(dbs, cs, n - 1);
    TraceKeepsConsistent(dbs, cs, n - 1);
    SweepAbsorbs(dbs[n - 1], cs[n - 1], now);
  }

  lemma SnocInjective(a: seq<Command>, x: Command, b: seq<Command>, y: Command)
    requires a + [x] == b + [y]
    ensures a == b && x == y
  {
    assert a == (a + [x])[..|a|] && b == (b + [y])[..|b|];
    assert x == (a + [x])[|a|] && y == (b + [y])[|b|];
  }

  /** Tables that a sweep makes equal give the same answer to a command and stay equal after a later sweep. */
  lemma SameCommandSameAnswer(a: Db, b: Db, c: Command, later: int)
    requires Consistent(a) && Consistent(b) && Legal(a, c) && Legal(b, c) && HoldNotNegative(c) && !c.Sweep?
    requires Swept(a, c.now) == Swept(b, c.now) && c.now <= later
    ensures Exec(a, c).outcome == Exec(b, c).outcome
    ensures Swept(Exec(a, c).db, later) == Swept(Exec(b, c).db, later)
  {
    StepRefinesEager(a, c);
    StepRefinesEager(b, c);
    ExecKeepsConsistent(a, c);
    ExecKeepsConsistent(b, c);
    SweptTwice(Exec(a, c).db, c.now, later);
    SweptTwice(Exec(b, c).db, c.now, later);
  }

  /** Sweeps may be added, removed or moved: the same commands with the same ticket choices stay legal.
      (`SweepsDoNotMatter` then says that the answers are the same.) */
  lemma {:induction false} SweepsMayBePlacedAnywhere(dbs: seq<Db>, cs: seq<Command>, n: nat, cs': seq<Command>)
    returns (dbs': seq<Db>)
    requires Trace(dbs, cs) && Consistent(dbs[0]) && n <= |cs|
    requires InOrder(cs) && InOrder(cs') && HoldsNotNegative(cs) && HoldsNotNegative(cs')
    requires WithoutSweeps(cs[..n]) == WithoutSweeps(cs')
    ensures Trace(dbs', cs') && dbs'[0] == dbs[0]
    decreases n + |cs'|
  {
    if n > 0 && cs[n - 1].Sweep? {
      assert cs[..n][..n - 1] == cs[..n - 1];
      dbs' := SweepsMayBePlacedAnywhere(dbs, cs, n - 1, cs');
    } else if cs' == [] {
      dbs' := [dbs[0]];
    } else {
      var p := |cs'| - 1;
      assert HoldsNotNegative(cs'[..p]);
      if cs'[p].Sweep? {
        dbs' := SweepsMayBePlacedAnywhere(dbs, cs, n, cs'[..p]);
      } else {
        assert cs[..n][..n - 1] == cs[..n - 1];
        SnocInjective(WithoutSweeps(cs[..n - 1]), cs[n - 1], WithoutSweeps(cs'[..p]), cs'[p]);
        dbs' := SweepsMayBePlacedAnywhere(dbs, cs, n - 1, cs'[..p]);
        StaysLegal(dbs, cs, n - 1, dbs', cs', p);
      }
      dbs' := ExtendTrace(dbs', cs'[..p], cs'[p]);
      assert cs'[..p] + [cs'[p]] == cs';
    }
  }

  lemma StaysLegal(dbs: seq<Db>, cs: seq<Command>, n: nat, dbs': seq<Db>, cs': seq<Command>, n': nat)
    requires n < |cs| && n' < |cs'| && cs[n] == cs'[n']
    requires Trace(dbs, cs) && Trace(dbs', cs'[..n']) && Consistent(dbs[0]) && dbs'[0] == dbs[0]
    requires InOrder(cs) && InOrder(cs') && HoldsNotNegative(cs) && HoldsNotNegative(cs')
    requires WithoutSweeps(cs[..n]) == WithoutSweeps(cs'[..n'])
    ensures Legal(dbs'[n'], cs'[n'])
  {
    var c := cs[n];
    assert cs'[..n'][..n'] == cs'[..n'] && HoldsNotNegative(cs'[..n']);
    SweepsDoNotMatter(dbs, cs, dbs', cs'[..n'], n, n', c.now);
    assert StepAt(dbs, cs, n);
    TraceKeepsConsistent(dbs, cs, n);
    TraceKeepsConsistent(dbs', cs'[..n'], n');
    LegalIffEagerLegal(dbs[n], c);
    LegalIffEagerLegal(dbs'[n'], c);
    assert Swept(dbs[n], c.now).reservations.Keys == dbs[n].reservations.Keys;
    assert Swept(dbs'[n'], c.now).reservations.Keys == dbs'[n'].reservations.Keys;
  }

  lemma ExtendTrace(dbs: seq<Db>, cs: seq<Command>, c: Command) returns (more: seq<Db>)
    requires Trace(dbs, cs) && Legal(dbs[|cs|], c)
    ensures Trace(more, cs + [c]) && more == dbs + [Exec(dbs[|cs|], c).db]
  {
    more := dbs + [Exec(dbs[|cs|], c).db];
    forall i: nat | i < |cs + [c]| ensures StepAt(more, cs + [c], i) {
      if i < |cs| {
        assert StepAt(dbs, cs, i);
      }
    }
  }
}
