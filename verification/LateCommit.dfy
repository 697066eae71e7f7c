/** The condition of `CommitOrder` is needed.  A create that outlives its own hold lets three transactions
    commit to tables that no order of running them one at a time can produce. */
module LateCommit {
  import opened Tables
  import opened Transactions
  import opened Invariant
  import opened Interleaving
  import opened CommitOrder
  import Convergence
  import LazyExpiry

  const OLD: ReservationId := 10
  const NEW: ReservationId := 11

  /** Two tickets held by one reservation until 5. */
  function Before(): Db {
    var held := Ticket(Seat(0, "A", 5000), 0, 5000, Reserved, Some(OLD));
    Db({0}, {0}, map[1 := held, 2 := held], map[OLD := Reservation(0, 0, Pending, 5)])
  }

  function LateCreate(): Command {
    Create(NEW, 0, 0, [Entry("A", 1)], [[1]], 6, 7)
  }

  function EarlyPurchase(): Command {
    Purchase(OLD, 0, 4)
  }

  function Opened(req: Request, now: int): Tx {
    Tx(req, now, None, {}, {}, {}, {}, [], [])
  }

  function PurchaseTx(): Tx { Opened(Purchasing(OLD, 0), 4) }

  function CreateTx(): Tx { Opened(Creating(0, 0, [Entry("A", 1)], 7), 6) }

  function SweepTx(): Tx { Opened(Sweeping, 8) }

  function CreateHoldingTicket1(): Tx {
    CreateTx().(picks := [[1]], tickets := {1})
  }

  function SweepWithOldSnapshot(): Tx {
    SweepTx().(snap := Some(Before()))
  }

  /** After the create: the new reservation has ticket 1 and is already lapsed for the sweep. */
  function AfterCreate(): Db {
    Insert(Before(), NEW, Reservation(0, 0, Pending, 7), {1})
  }

  function AfterPurchase(): Db {
    Effect(AfterCreate(), EarlyPurchase(), {OLD}, {2})
  }

  /** The purchase is open since 4, the create has locked ticket 1, the sweep has taken its snapshot. */
  function AllOpen(): State {
    State(8, [Before()], [], [], map[0 := PurchaseTx(), 1 := CreateHoldingTicket1(), 2 := SweepWithOldSnapshot()])
  }

  function CreateCommitted(): State {
    State(8, [Before(), AfterCreate()], [LateCreate()], [Created({1})],
          map[0 := PurchaseTx(), 2 := SweepWithOldSnapshot()])
  }

  function PurchaseCommitted(): State {
    State(8, [Before(), AfterCreate(), AfterPurchase()],
          [LateCreate(), EarlyPurchase()], [Created({1}), Purchased({2})],
          map[2 := SweepWithOldSnapshot()])
  }

  function AllCommitted(): State {
    State(8, [Before(), AfterCreate(), AfterPurchase(), AfterPurchase()],
          [LateCreate(), EarlyPurchase(), Sweep(8, {NEW})], [Created({1}), Purchased({2}), Outcome.Swept({})], map[])
  }

  lemma Prepend(s: State, a: Action, rest: seq<Action>, s': State)
    requires s.versions != [] && Can(s, a) && Performed(Do(s, a), rest, s')
    ensures Performed(s, [a] + rest, s')
  {
    assert ([a] + rest)[1..] == rest;
  }

  lemma Then(s: State, first: seq<Action>, mid: State, rest: seq<Action>, s': State) returns (both: seq<Action>)
    requires s.versions != [] && mid.versions != [] && Performed(s, first, mid) && Performed(mid, rest, s')
    ensures both == first + rest && Performed(s, both, s')
  {
    both := first + rest;
    PerformBoth(s, first, mid, rest, s');
  }

  function PurchaseOpen(): State {
    Start(Before(), 4).(txs := map[0 := PurchaseTx()])
  }

  function Selecting(): Tx {
    CreateTx().(snap := Some(Before()))
  }

  function CreateSelecting(): State {
    PurchaseOpen().(clock := 6, txs := map[0 := PurchaseTx(), 1 := Selecting()])
  }

  function CreateSelected(): State {
    PurchaseOpen().(clock := 6, txs := map[0 := PurchaseTx(), 1 := CreateHoldingTicket1()])
  }

  lemma CreateBegins()
    ensures Performed(Start(Before(), 4),
                      [Begin(0, Purchasing(OLD, 0)), Tick(6), Begin(1, CreateTx().req), TakeSnapshot(1)],
                      CreateSelecting())
  {
    var s1 := PurchaseOpen();
    var s2 := s1.(clock := 6);
    var s3 := s2.(txs := map[0 := PurchaseTx(), 1 := CreateTx()]);
    assert Do(s3, TakeSnapshot(1)) == CreateSelecting();
    Prepend(s3, TakeSnapshot(1), [], CreateSelecting());
    Prepend(s2, Begin(1, CreateTx().req), [TakeSnapshot(1)], CreateSelecting());
    Prepend(s1, Tick(6), [Begin(1, CreateTx().req), TakeSnapshot(1)], CreateSelecting());
    Prepend(Start(Before(), 4), Begin(0, Purchasing(OLD, 0)),
            [Tick(6), Begin(1, CreateTx().req), TakeSnapshot(1)], CreateSelecting());
  }

  lemma CreateSelects()
    ensures Performed(CreateSelecting(), [TouchTicket(1, 1), FinishSelect(1)], CreateSelected())
  {
    var touched := Selecting().(tickets := {1}, current := [1]);
    var s5 := CreateSelecting().(txs := map[0 := PurchaseTx(), 1 := touched]);
    assert Touched(Selecting(), Before(), 1) == touched by {
      assert Selecting().tickets + {1} == {1} && Selecting().current + [1] == [1];
    }
    assert touched.picks + [[1]] == [[1]];
    assert Can(CreateSelecting(), TouchTicket(1, 1)) && Do(CreateSelecting(), TouchTicket(1, 1)) == s5;
    assert Can(s5, FinishSelect(1)) && Do(s5, FinishSelect(1)) == CreateSelected();
    Prepend(s5, FinishSelect(1), [], CreateSelected());
    Prepend(CreateSelecting(), TouchTicket(1, 1), [FinishSelect(1)], CreateSelected());
  }

  lemma SweepBegins()
    ensures Performed(CreateSelected(), [Tick(8), Begin(2, Sweeping), TakeSnapshot(2)], AllOpen())
  {
    var s7 := CreateSelected().(clock := 8);
    var s8 := s7.(txs := map[0 := PurchaseTx(), 1 := CreateHoldingTicket1(), 2 := SweepTx()]);
    assert Do(s7, Begin(2, Sweeping)) == s8;
    assert Do(s8, TakeSnapshot(2)) == AllOpen();
    Prepend(s8, TakeSnapshot(2), [], AllOpen());
    Prepend(s7, Begin(2, Sweeping), [TakeSnapshot(2)], AllOpen());
    Prepend(CreateSelected(), Tick(8), [Begin(2, Sweeping), TakeSnapshot(2)], AllOpen());
  }

  lemma CreateCommits()
    ensures Performed(AllOpen(), [Commit(1, NEW)], CreateCommitted())
  {
    var a := Commit(1, NEW);
    assert Picked([[1]]) == {1} by { assert 1 in [[1]][0]; }
    assert Can(AllOpen(), a);
    assert Do(AllOpen(), a) == CreateCommitted();
  }

  function PurchaseLocked(): Tx {
    PurchaseTx().(snap := Some(AfterCreate()), seenRows := {OLD}, rows := {OLD})
  }

  function PurchaseHasRow(): State {
    CreateCommitted().(txs := map[0 := PurchaseLocked(), 2 := SweepWithOldSnapshot()])
  }

  lemma PurchaseLocksRow()
    ensures Performed(CreateCommitted(), [TakeSnapshot(0), TouchRow(0, OLD)], PurchaseHasRow())
  {
    var tx := PurchaseTx().(snap := Some(AfterCreate()));
    var s1 := CreateCommitted().(txs := map[0 := tx, 2 := SweepWithOldSnapshot()]);
    assert Do(CreateCommitted(), TakeSnapshot(0)) == s1;
    assert Matched(AfterCreate(), EarlyPurchase()) == {OLD};
    assert TouchedRow(tx, AfterCreate(), OLD) == PurchaseLocked() by {
      assert tx.seenRows + {OLD} == {OLD} && tx.rows + {OLD} == {OLD};
    }
    assert Can(s1, TouchRow(0, OLD)) && Do(s1, TouchRow(0, OLD)) == PurchaseHasRow();
    Prepend(s1, TouchRow(0, OLD), [], PurchaseHasRow());
    Prepend(CreateCommitted(), TakeSnapshot(0), [TouchRow(0, OLD)], PurchaseHasRow());
  }

  lemma PurchaseCommits()
    ensures Performed(PurchaseHasRow(), [TouchTicket(0, 2), Commit(0, 0)], PurchaseCommitted())
  {
    var tx := PurchaseLocked();
    var tx' := tx.(seenTickets := {2}, tickets := {2});
    var s3 := CreateCommitted().(txs := map[0 := tx', 2 := SweepWithOldSnapshot()]);
    assert OwnedBy(AfterCreate().tickets, {OLD}) == {2} by { assert 2 in AfterCreate().tickets; }
    assert Touched(tx, AfterCreate(), 2) == tx' by {
      assert tx.seenTickets + {2} == {2} && tx.tickets + {2} == {2};
    }
    assert Can(PurchaseHasRow(), TouchTicket(0, 2)) && Do(PurchaseHasRow(), TouchTicket(0, 2)) == s3;
    PurchaseFinishes(s3);
    Prepend(PurchaseHasRow(), TouchTicket(0, 2), [Commit(0, 0)], PurchaseCommitted());
  }

  lemma PurchaseFinishes(s3: State)
    requires s3 == CreateCommitted().(txs := map[0 := PurchaseLocked().(seenTickets := {2}, tickets := {2}),
                                                 2 := SweepWithOldSnapshot()])
    ensures Performed(s3, [Commit(0, 0)], PurchaseCommitted())
  {
    PurchaseDone(s3);
    Prepend(s3, Commit(0, 0), [], PurchaseCommitted());
  }

  lemma PurchaseDone(s3: State)
    requires s3 == CreateCommitted().(txs := map[0 := PurchaseLocked().(seenTickets := {2}, tickets := {2}),
                                                 2 := SweepWithOldSnapshot()])
    ensures Can(s3, Commit(0, 0)) && Do(s3, Commit(0, 0)) == PurchaseCommitted()
  {
    assert Matched(AfterCreate(), EarlyPurchase()) == {OLD};
    assert OwnedBy(AfterCreate().tickets, {OLD}) == {2};
    assert Can(s3, Commit(0, 0));
    assert Do(s3, Commit(0, 0)).txs == PurchaseCommitted().txs;
  }

  lemma SweepCommits()
    ensures Performed(PurchaseCommitted(), [TouchRow(2, OLD), Commit(2, 0)], AllCommitted())
  {
    var s0 := PurchaseCommitted();
    var tx := SweepWithOldSnapshot().(seenRows := {OLD});
    var s1 := s0.(txs := map[2 := tx]);
    assert Matched(Before(), FullSweep(8)) == {OLD};
    assert TouchedRow(SweepWithOldSnapshot(), AfterPurchase(), OLD) == tx by {
      assert SweepWithOldSnapshot().seenRows + {OLD} == {OLD};
    }
    assert Can(s0, TouchRow(2, OLD)) && Do(s0, TouchRow(2, OLD)) == s1;
    SweepDone(s1);
    Prepend(s1, Commit(2, 0), [], AllCommitted());
    Prepend(s0, TouchRow(2, OLD), [Commit(2, 0)], AllCommitted());
  }

  /** The sweep publishes nothing. */
  lemma SweepDone(s1: State)
    requires s1 == PurchaseCommitted().(txs := map[2 := SweepWithOldSnapshot().(seenRows := {OLD})])
    ensures Can(s1, Commit(2, 0)) && Do(s1, Commit(2, 0)) == AllCommitted()
  {
    assert Matched(Before(), FullSweep(8)) == {OLD};
    assert OwnedBy(Before().tickets, {}) == {};
    NothingToSweep(AfterPurchase());
    assert AfterPurchase().reservations.Keys - Before().reservations.Keys == {NEW};
  }

  lemma NothingToSweep(db: Db)
    ensures Effect(db, FullSweep(8), {}, {}) == db
  {
    assert Effect(db, FullSweep(8), {}, {}).tickets == db.tickets;
    assert Effect(db, FullSweep(8), {}, {}).reservations == db.reservations;
  }

  lemma BeforeIsConsistent()
    ensures Consistent(Before())
  {
  }

  /** The interleaving exists. */
  lemma LateCommitHappens() returns (actions: seq<Action>)
    ensures Consistent(Before()) && Performed(Start(Before(), 4), actions, AllCommitted())
  {
    BeforeIsConsistent();
    StartIsOk(Before(), 4);
    CreateBegins();
    CreateSelects();
    SweepBegins();
    CreateCommits();
    PurchaseLocksRow();
    PurchaseCommits();
    SweepCommits();
    var s0 := Start(Before(), 4);
    actions := [Begin(0, Purchasing(OLD, 0)), Tick(6), Begin(1, CreateTx().req), TakeSnapshot(1)];
    actions := Then(s0, actions, CreateSelecting(), [TouchTicket(1, 1), FinishSelect(1)], CreateSelected());
    actions := Then(s0, actions, CreateSelected(), [Tick(8), Begin(2, Sweeping), TakeSnapshot(2)], AllOpen());
    actions := Then(s0, actions, AllOpen(), [Commit(1, NEW)], CreateCommitted());
    actions := Then(s0, actions, CreateCommitted(), [TakeSnapshot(0), TouchRow(0, OLD)], PurchaseHasRow());
    actions := Then(s0, actions, PurchaseHasRow(), [TouchTicket(0, 2), Commit(0, 0)], PurchaseCommitted());
    actions := Then(s0, actions, PurchaseCommitted(), [TouchRow(2, OLD), Commit(2, 0)], AllCommitted());
  }

  /** The new reservation has lapsed for the sweep, whose snapshot lacks it. */
  lemma SweepMisses()
    ensures !NothingMissed(AfterPurchase(), Sweep(8, {NEW}))
  {
    assert NEW in AfterPurchase().reservations && Lapsed(AfterPurchase().reservations[NEW], 8);
  }

  /** Its sweep passes over a lapsed reservation, and its tables are not those of complete sweeps in commit order:
      it meets neither side of `SerialWithCompleteSweepsIff`. */
  lemma LateCommitMisses()
    ensures !NothingMissed(AllCommitted().versions[2], AllCommitted().log[2])
    ensures !Trace(AllCommitted().versions, PlainLog(AllCommitted().log))
  {
    var actions := LateCommitHappens();
    SweepMisses();
    var s := AllCommitted();
    assert s.versions[2] == AfterPurchase() && s.log[2] == Sweep(8, {NEW});
    MissIsSeen(actions, s, 2);
  }

  lemma MissIsSeen(actions: seq<Action>, s: State, k: nat)
    requires Performed(Start(Before(), 4), actions, s) && k < |s.log| < |s.versions|
    requires !NothingMissed(s.versions[k], s.log[k])
    ensures !Trace(s.versions, PlainLog(s.log))
  {
    BeforeIsConsistent();
    SerialWithCompleteSweepsIff(Before(), 4, actions, s);
  }

  /** The three commands one after the other, in commit order. */
  function CommitOrdered(): seq<Command> {
    [LateCreate(), EarlyPurchase(), FullSweep(8)]
  }

  /** Yet the answers are those of the three commands run one after the other, and after the next sweep so are
      the tables. */
  lemma LateCommitIsRepaired() returns (dbs: seq<Db>)
    ensures Trace(dbs, CommitOrdered()) && dbs[0] == Before()
    ensures OutcomeAt(dbs, CommitOrdered(), 0) == Created({1})
    ensures OutcomeAt(dbs, CommitOrdered(), 1) == Purchased({2})
    ensures dbs[3] != AllCommitted().Db()
    ensures forall now | now >= 8 :: LazyExpiry.Swept(dbs[3], now) == LazyExpiry.Swept(AllCommitted().Db(), now)
  {
    var actions := LateCommitHappens();
    dbs := Repaired(actions, AllCommitted());
    NoSerialOrder(dbs, CommitOrdered());
  }

  lemma Repaired(actions: seq<Action>, s: State) returns (dbs: seq<Db>)
    requires Performed(Start(Before(), 4), actions, s) && s.versions != []
    requires s.log == [LateCreate(), EarlyPurchase(), Sweep(8, {NEW})]
    ensures Trace(dbs, CommitOrdered()) && dbs[0] == Before() && |s.outcomes| == 3
    ensures OutcomeAt(dbs, CommitOrdered(), 0) == s.outcomes[0]
    ensures OutcomeAt(dbs, CommitOrdered(), 1) == s.outcomes[1]
    ensures forall now | now >= 8 :: LazyExpiry.Swept(dbs[3], now) == LazyExpiry.Swept(s.Db(), now)
  {
    BeforeIsConsistent();
    InterleavingsAreSerial(Before(), 4, actions, s);
    Convergence.AnswersOfCompleteSweepsIff(Before(), 4, actions, s);
    assert PlainLog(s.log) == CommitOrdered();
    dbs :| Convergence.SameAnswers(dbs, s.versions, s.log);
    forall now | now >= 8 ensures LazyExpiry.Swept(dbs[3], now) == LazyExpiry.Swept(s.Db(), now) {
      Convergence.NextSweepRepairs(Before(), 4, actions, s, dbs, 3, now);
    }
  }

  /** No order of the three commands, run one at a time, ends in the tables that the interleaving ends in. */
  lemma NoSerialOrder(dbs: seq<Db>, cs: seq<Command>)
    requires Trace(dbs, cs) && dbs[0] == Before()
    requires multiset(cs) == multiset{LateCreate(), EarlyPurchase(), FullSweep(8)}
    ensures dbs[|cs|] != AllCommitted().Db()
  {
    Orders(cs);
    FinalStatuses();
    if cs[0] == EarlyPurchase() {
      PurchaseFirst(dbs, cs);
    } else if cs[0] == LateCreate() {
      CreateFirst(dbs, cs);
    } else {
      BeforeIsConsistent();
      SweepEnds(dbs, cs, 0, OLD);
    }
  }

  /** The interleaving ends with the old reservation confirmed and the new one pending. */
  lemma FinalStatuses()
    ensures var d := AllCommitted().Db();
            && OLD in d.reservations && d.reservations[OLD].status == Confirmed
            && NEW in d.reservations && d.reservations[NEW].status == Pending
  {
  }

  lemma PurchaseFirst(dbs: seq<Db>, cs: seq<Command>)
    requires |dbs| == 4 && dbs[0] == Before()
    requires cs == [EarlyPurchase(), LateCreate(), FullSweep(8)] || cs == [EarlyPurchase(), FullSweep(8), LateCreate()]
    ensures !Trace(dbs, cs)
  {
    if StepAt(dbs, cs, 0) && StepAt(dbs, cs, 1) {
      CreateAfterPurchaseIsIllegal(dbs[1], if cs[1] == LateCreate() then dbs[1] else dbs[2]);
      assert !(StepAt(dbs, cs, 1) && StepAt(dbs, cs, 2));
    }
  }

  lemma CreateFirst(dbs: seq<Db>, cs: seq<Command>)
    requires Trace(dbs, cs) && dbs[0] == Before()
    requires cs == [LateCreate(), EarlyPurchase(), FullSweep(8)] || cs == [LateCreate(), FullSweep(8), EarlyPurchase()]
    ensures NEW in dbs[3].reservations && dbs[3].reservations[NEW].status == Expired
  {
    BeforeIsConsistent();
    assert StepAt(dbs, cs, 0) && StepAt(dbs, cs, 1);
    AfterFirstCreate(dbs[1]);
    if cs[1] == EarlyPurchase() {
      assert dbs[2].reservations[NEW] == dbs[1].reservations[NEW];
      SweepEnds(dbs, cs, 2, NEW);
    } else {
      SweepEnds(dbs, cs, 1, NEW);
    }
  }

  lemma Orders(cs: seq<Command>)
    requires multiset(cs) == multiset{LateCreate(), EarlyPurchase(), FullSweep(8)}
    ensures var p, c, w := EarlyPurchase(), LateCreate(), FullSweep(8);
            cs in {[p, c, w], [p, w, c], [c, p, w], [c, w, p], [w, p, c], [w, c, p]}
  {
    assert |cs| == |multiset(cs)| == 3;
    assert cs == [cs[0], cs[1], cs[2]];
    var p, c, w := EarlyPurchase(), LateCreate(), FullSweep(8);
    assert p != c && c != w && p != w;
    assert multiset(cs) == multiset{cs[0], cs[1], cs[2]};
    assert cs[0] in multiset(cs) && cs[1] in multiset(cs) && cs[2] in multiset(cs);
    assert multiset(cs)[p] == 1 && multiset(cs)[c] == 1 && multiset(cs)[w] == 1;
  }

  /** The create, run first, leaves both reservations pending and lapsed for a sweep at 8. */
  lemma AfterFirstCreate(d1: Db)
    requires d1 == Exec(Before(), LateCreate()).db
    ensures OLD in d1.reservations && d1.reservations[OLD] == Reservation(0, 0, Pending, 5)
    ensures NEW in d1.reservations && d1.reservations[NEW] == Reservation(0, 0, Pending, 7)
  {
    assert Picked([[1]]) == {1} by { assert 1 in [[1]][0]; }
    assert SelectError(LateCreate().entries[1..], LateCreate().picks[1..]) == None;
  }

  /** A complete sweep at 8 ends a pending reservation that it finds lapsed, for good. */
  lemma SweepEnds(dbs: seq<Db>, cs: seq<Command>, k: nat, r: ReservationId)
    requires Trace(dbs, cs) && Consistent(dbs[0]) && k < |cs| && cs[k] == FullSweep(8)
    requires r in dbs[k].reservations && Lapsed(dbs[k].reservations[r], 8)
    ensures r in dbs[|cs|].reservations && dbs[|cs|].reservations[r].status == Expired
  {
    assert StepAt(dbs, cs, k);
    TraceEvolves(dbs, cs, k + 1, |cs|);
    assert LaterReservation(dbs[k + 1].reservations[r], dbs[|cs|].reservations[r]);
  }

  /** Run before the create, the purchase sells both tickets, and then ticket 1 may no longer be picked. */
  lemma CreateAfterPurchaseIsIllegal(d1: Db, d2: Db)
    requires d1 == Exec(Before(), EarlyPurchase()).db
    requires d2 == d1 || d2 == Exec(d1, FullSweep(8)).db
    ensures !Legal(d2, LateCreate())
  {
    var b := Before();
    assert Matched(b, EarlyPurchase()) == {OLD};
    assert 1 in OwnedBy(b.tickets, {OLD});
    assert d1.tickets[1].status == Sold && d2.tickets[1].status == Sold;
    var c := LateCreate();
    assert 1 !in Eligible(d2, c.game, c.entries[0].grade, c.now);
    assert 1 in Elements(c.picks[0]);
    assert !ValidPick(Eligible(d2, c.game, c.entries[0].grade, c.now), c.entries[0].quantity, c.picks[0]);
  }
}
