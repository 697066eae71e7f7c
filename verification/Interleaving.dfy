/** Interleaved transactions at row-lock granularity.

    The database rules assumed here are those of Read Committed in PostgreSQL 15 (sections 13.2.1 and 13.3.2):
    every statement reads a snapshot of the committed tables taken when the statement starts; an UPDATE or
    FOR UPDATE waits while another transaction holds the row, and then re-checks its condition on the row's
    newest committed version; row locks are kept until the transaction ends; a commit publishes all writes at
    once and a rollback publishes none.  `NOW()` is the time at which the transaction began.

    Since a row that is being updated is locked, its new version can be kept private until the commit, so the
    shared state is the committed tables plus, for every open transaction, its snapshot and its locks. */
module Interleaving {
  import opened Tables
  import opened Transactions
  import opened Invariant

  type TxId = nat

  datatype Request =
    | Creating(user: UserId, game: GameId, entries: seq<Entry>, expiresAt: int)
    | Purchasing(id: ReservationId, user: UserId)
    | Cancelling(id: ReservationId, user: UserId)
    | Sweeping

  /** An open transaction.  `seenRows` and `seenTickets` are the snapshot rows its statement has dealt with;
      `rows` and `tickets` are those among them that passed the re-check and are locked. */
  datatype Tx = Tx(req: Request, now: int, snap: Option<Db>,
                   seenRows: set<ReservationId>, rows: set<ReservationId>,
                   seenTickets: set<TicketId>, tickets: set<TicketId>,
                   picks: seq<seq<TicketId>>, current: seq<TicketId>)

  /** `versions` are the successive committed tables; `log` and `outcomes` what each commit did and answered. */
  datatype State = State(clock: int, versions: seq<Db>, log: seq<Command>, outcomes: seq<Outcome>, txs: map<TxId, Tx>)
  {
    function Db(): Db
      requires versions != []
    {
      versions[|versions| - 1]
    }
  }

  datatype Action =
    | Tick(to: int)
    | Begin(tx: TxId, req: Request)
    | TakeSnapshot(tx: TxId)
    | TouchRow(tx: TxId, r: ReservationId)
    | TouchTicket(tx: TxId, t: TicketId)
    | FinishSelect(tx: TxId)
    | Commit(tx: TxId, id: ReservationId)
    | Rollback(tx: TxId)

  function Start(db: Db, clock: int): State {
    State(clock, [db], [], [], map[])
  }

  /** The status-changing statement of a transaction that is not a create. */
  function Statement(tx: Tx): Command
    requires !tx.req.Creating?
    ensures !Statement(tx).Create?
  {
    match tx.req
    case Purchasing(id, user) => Purchase(id, user, tx.now)
    case Cancelling(id, user) => Cancel(id, user, tx.now)
    case Sweeping => FullSweep(tx.now)
  }

  /** The serial command that a commit stands for. */
  function CommandOf(tx: Tx, id: ReservationId, db: Db): Command
    requires !tx.req.Creating? ==> tx.snap.Some?
  {
    match tx.req
    case Creating(user, game, entries, expiresAt) => Create(id, user, game, entries, tx.picks, tx.now, expiresAt)
    case Purchasing(r, user) => Purchase(r, user, tx.now)
    case Cancelling(r, user) => Cancel(r, user, tx.now)
    case Sweeping => Sweep(tx.now, db.reservations.Keys - tx.snap.value.reservations.Keys)
  }

  ghost predicate RowFree(s: State, i: TxId, r: ReservationId) {
    forall j <- s.txs :: j != i ==> r !in s.txs[j].rows
  }

  ghost predicate TicketFree(s: State, i: TxId, t: TicketId) {
    forall j <- s.txs :: j != i ==> t !in s.txs[j].tickets
  }

  /** All snapshot rows the statement has to deal with have been dealt with. */
  ghost predicate StatementDone(tx: Tx)
    requires !tx.req.Creating? && tx.snap.Some?
  {
    && Matched(tx.snap.value, Statement(tx)) <= tx.seenRows
    && OwnedBy(tx.snap.value.tickets, tx.rows) <= tx.seenTickets
  }

  ghost predicate Can(s: State, a: Action)
    requires s.versions != []
  {
    match a
    case Tick(to) => to >= s.clock
    case Begin(i, _) => i !in s.txs
    case TakeSnapshot(i) =>
      i in s.txs && s.txs[i].snap.None?
      && (s.txs[i].req.Creating? ==> |s.txs[i].picks| < |s.txs[i].req.entries|)
    case TouchRow(i, r) =>
      i in s.txs && var tx := s.txs[i];
      && !tx.req.Creating? && tx.snap.Some?
      && r in Matched(tx.snap.value, Statement(tx)) && r !in tx.seenRows
      && r in s.Db().reservations
      && RowFree(s, i, r)
    case TouchTicket(i, t) =>
      i in s.txs && var tx := s.txs[i];
      && tx.snap.Some? && t in s.Db().tickets
      && TicketFree(s, i, t)
      && (if tx.req.Creating? then
            && |tx.picks| < |tx.req.entries|
            && t in Eligible(tx.snap.value, tx.req.game, tx.req.entries[|tx.picks|].grade, tx.now)
            && t !in tx.current && |tx.current| < tx.req.entries[|tx.picks|].quantity
          else
            t in OwnedBy(tx.snap.value.tickets, tx.rows) && t !in tx.seenTickets)
    case FinishSelect(i) =>
      i in s.txs && var tx := s.txs[i];
      && tx.req.Creating? && tx.snap.Some? && |tx.picks| < |tx.req.entries|
      && |tx.current| == tx.req.entries[|tx.picks|].quantity
    case Commit(i, id) =>
      i in s.txs && var tx := s.txs[i];
      if tx.req.Creating? then
        && |tx.picks| == |tx.req.entries| && Picked(tx.picks) != {}
        && tx.req.user in s.Db().users && tx.req.game in s.Db().games
        && id !in s.Db().reservations
      else
        tx.snap.Some? && StatementDone(tx) && (tx.req.Sweeping? || tx.tickets != {})
    case Rollback(i) => i in s.txs
  }

  /** The re-check on the newest committed row version, against the statement's own snapshot. */
  predicate Recheck(tx: Tx, db: Db, t: TicketId)
    requires tx.snap.Some? && t in db.tickets
  {
    if tx.req.Creating? then EligibleRow(db.tickets[t], tx.snap.value.reservations, tx.now)
    else t in tx.snap.value.tickets && db.tickets[t].reservation == tx.snap.value.tickets[t].reservation
  }

  function Touched(tx: Tx, db: Db, t: TicketId): Tx
    requires tx.snap.Some? && t in db.tickets
  {
    var ok := Recheck(tx, db, t);
    if tx.req.Creating? then
      if ok then tx.(tickets := tx.tickets + {t}, current := tx.current + [t]) else tx
    else
      tx.(seenTickets := tx.seenTickets + {t}, tickets := if ok then tx.tickets + {t} else tx.tickets)
  }

  function TouchedRow(tx: Tx, db: Db, r: ReservationId): Tx
    requires !tx.req.Creating? && r in db.reservations
  {
    tx.(seenRows := tx.seenRows + {r},
        rows := if Matches(Statement(tx), r, db.reservations[r]) then tx.rows + {r} else tx.rows)
  }

  /** The tables and the answer that a commit publishes. */
  function Published(tx: Tx, id: ReservationId, db: Db): Step {
    match tx.req
    case Creating(user, game, _, expiresAt) =>
      Step(Insert(db, id, Reservation(user, game, Pending, expiresAt), Picked(tx.picks)), Created(Picked(tx.picks)))
    case Purchasing(_, _) => Step(Effect(db, Statement(tx), tx.rows, tx.tickets), Purchased(tx.tickets))
    case Cancelling(_, _) => Step(Effect(db, Statement(tx), tx.rows, tx.tickets), Released(tx.tickets))
    case Sweeping => Step(Effect(db, Statement(tx), tx.rows, tx.tickets), Outcome.Swept(tx.rows))
  }

  ghost function Do(s: State, a: Action): State
    requires s.versions != [] && Can(s, a)
  {
    match a
    case Tick(to) => s.(clock := to)
    case Begin(i, req) => s.(txs := s.txs[i := Tx(req, s.clock, None, {}, {}, {}, {}, [], [])])
    case TakeSnapshot(i) => s.(txs := s.txs[i := s.txs[i].(snap := Some(s.Db()))])
    case TouchRow(i, r) => s.(txs := s.txs[i := TouchedRow(s.txs[i], s.Db(), r)])
    case TouchTicket(i, t) => s.(txs := s.txs[i := Touched(s.txs[i], s.Db(), t)])
    case FinishSelect(i) =>
      var tx := s.txs[i];
      s.(txs := s.txs[i := tx.(picks := tx.picks + [tx.current], current := [], snap := None)])
    case Commit(i, id) =>
      var p := Published(s.txs[i], id, s.Db());
      s.(versions := s.versions + [p.db], outcomes := s.outcomes + [p.outcome],
         log := s.log + [CommandOf(s.txs[i], id, s.Db())], txs := s.txs - {i})
    case Rollback(i) => s.(txs := s.txs - {i})
  }

  /** `s'` is reached from `s` by the actions in order, each possible when its turn comes. */
  ghost predicate Performed(s: State, actions: seq<Action>, s': State)
    requires s.versions != []
    decreases |actions|
  {
    if actions == [] then s' == s
    else Can(s, actions[0]) && Performed(Do(s, actions[0]), actions[1..], s')
  }

  lemma {:induction false} PerformBoth(s: State, first: seq<Action>, mid: State, rest: seq<Action>, s': State)
    requires s.versions != [] && mid.versions != [] && Performed(s, first, mid) && Performed(mid, rest, s')
    ensures Performed(s, first + rest, s')
    decreases |first|
  {
    if first == [] {
      assert first + rest == rest;
    } else {
      PerformBoth(Do(s, first[0]), first[1..], mid, rest, s');
      assert (first + rest)[1..] == first[1..] + rest;
    }
  }

  /* ----- The invariant of one open transaction ----- */

  ghost predicate PickOk(db: Db, tx: Tx, k: nat, pick: seq<TicketId>)
    requires tx.req.Creating? && k < |tx.req.entries|
  {
    && Distinct(pick)
    && forall t <- pick ::
         t in tx.tickets && t in db.tickets && Wanted(db.tickets[t], tx.req.game, tx.req.entries[k].grade)
  }

  ghost predicate CreatingOk(db: Db, tx: Tx)
    requires tx.req.Creating?
  {
    && tx.rows == {}
    && |tx.picks| <= |tx.req.entries|
    && (forall k | 0 <= k < |tx.picks| ::
          PickOk(db, tx, k, tx.picks[k]) && |tx.picks[k]| == tx.req.entries[k].quantity)
    && (tx.snap.None? ==> tx.current == [])
    && (tx.snap.Some? ==> |tx.picks| < |tx.req.entries| && PickOk(db, tx, |tx.picks|, tx.current))
    && (forall t <- tx.tickets :: t in db.tickets && EligibleRow(db.tickets[t], db.reservations, tx.now))
  }

  /** The rows of a status-changing statement: what it locked still matches, and what it passed over will
      never match again. */
  ghost predicate StatementOk(db: Db, tx: Tx)
    requires !tx.req.Creating? && tx.snap.Some?
  {
    var snap := tx.snap.value;
    && tx.rows <= tx.seenRows <= snap.reservations.Keys
    && (forall r <- tx.seenRows :: r in db.reservations)
    && (forall r <- tx.rows :: Matches(Statement(tx), r, db.reservations[r]))
    && (tx.req.Sweeping? ==> forall r <- tx.seenRows :: r in tx.rows || !Lapsed(db.reservations[r], tx.now))
    && tx.tickets <= tx.seenTickets <= OwnedBy(snap.tickets, tx.rows)
    && (forall t <- tx.seenTickets :: t in db.tickets)
    && (forall t <- tx.seenTickets :: t in tx.tickets <==> db.tickets[t].reservation == snap.tickets[t].reservation)
  }

  ghost predicate TxOk(db: Db, tx: Tx) {
    && (tx.snap.Some? ==> Evolves(tx.snap.value, db))
    && if tx.req.Creating? then CreatingOk(db, tx)
       else if tx.snap.Some? then StatementOk(db, tx)
       else tx.rows == {} && tx.seenRows == {} && tx.tickets == {} && tx.seenTickets == {}
  }

  ghost predicate LocksDisjoint(s: State) {
    forall i, j | i in s.txs && j in s.txs && i != j ::
      s.txs[i].rows !! s.txs[j].rows && s.txs[i].tickets !! s.txs[j].tickets
  }

  /** The commits so far are a serial run. */
  ghost predicate Serial(s: State) {
    && Trace(s.versions, s.log)
    && |s.outcomes| == |s.log|
    && forall i: nat | i < |s.log| :: s.outcomes[i] == OutcomeAt(s.versions, s.log, i)
  }

  ghost predicate Ok(s: State) {
    && s.versions != [] && Consistent(s.Db())
    && LocksDisjoint(s)
    && (forall i <- s.txs :: TxOk(s.Db(), s.txs[i]))
    && Serial(s)
  }

  /* ----- A commit is a serial step ----- */

  /** A statement that is done has locked exactly the tickets that its reservations own now. */
  lemma DoneLockedAllTickets(db: Db, tx: Tx)
    requires !tx.req.Creating? && tx.snap.Some? && TxOk(db, tx) && StatementDone(tx)
    ensures OwnedBy(db.tickets, tx.rows) == tx.tickets
  {
    var snap := tx.snap.value;
    forall t | t in OwnedBy(db.tickets, tx.rows) ensures t in tx.tickets {
      assert NoGain(snap, t, db.tickets[t]);
      assert t in OwnedBy(snap.tickets, tx.rows);
    }
  }

  lemma StatementCommitIsSerial(db: Db, tx: Tx, id: ReservationId)
    requires Consistent(db) && !tx.req.Creating? && tx.snap.Some? && TxOk(db, tx)
    requires StatementDone(tx) && (tx.req.Sweeping? || tx.tickets != {})
    ensures Exec(db, CommandOf(tx, id, db)) == Published(tx, id, db)
  {
    DoneLockedAllTickets(db, tx);
    var c := CommandOf(tx, id, db);
    var snap := tx.snap.value;
    assert Matched(db, c) == tx.rows by {
      if !tx.req.Sweeping? {
        var t :| t in tx.tickets;
        assert tx.rows == {tx.req.id};
      } else {
        forall r | r in Matched(db, c) ensures r in tx.rows {
          assert LaterReservation(snap.reservations[r], db.reservations[r]);
          assert r in Matched(snap, Statement(tx));
        }
      }
    }
  }

  lemma CreateCommitIsSerial(db: Db, tx: Tx, id: ReservationId)
    requires Consistent(db) && tx.req.Creating? && TxOk(db, tx)
    requires |tx.picks| == |tx.req.entries| && Picked(tx.picks) != {}
    requires tx.req.user in db.users && tx.req.game in db.games && id !in db.reservations
    ensures Legal(db, CommandOf(tx, id, db))
    ensures Exec(db, CommandOf(tx, id, db)) == Published(tx, id, db)
  {
    var c := CommandOf(tx, id, db);
    forall k | 0 <= k < |c.entries|
      ensures ValidPick(Eligible(db, c.game, c.entries[k].grade, c.now), c.entries[k].quantity, c.picks[k])
    {
      assert PickOk(db, tx, k, tx.picks[k]);
      var e := Eligible(db, c.game, c.entries[k].grade, c.now);
      assert Elements(c.picks[k]) <= e;
      DistinctSize(c.picks[k]);
      SubsetSize(Elements(c.picks[k]), e);
    }
    NoErrorIff(c.entries, c.picks);
  }

  /* ----- A commit leaves the other open transactions valid ----- */

  /** What a transaction's locks protect: the locked rows, and the reservations that own its locked tickets. */
  ghost predicate Protected(db: Db, db': Db, tx: Tx) {
    && (forall t <- tx.tickets :: t in db.tickets && t in db'.tickets && db'.tickets[t] == db.tickets[t])
    && (forall r <- tx.rows ::
          r in db.reservations && r in db'.reservations && db'.reservations[r] == db.reservations[r])
    && (forall t <- tx.tickets :: db.tickets[t].reservation.Some? ==>
          var r := db.tickets[t].reservation.value;
          r in db.reservations && r in db'.reservations && db'.reservations[r] == db.reservations[r])
  }

  /** The key fact: while a ticket is locked, no other transaction can commit a change of the reservation that
      owns it, because it would have to lock that ticket as well. */
  lemma LockedTicketsOwnerIsStable(db: Db, tx: Tx, other: Tx, id: ReservationId)
    requires Consistent(db) && TxOk(db, tx) && TxOk(db, other)
    requires tx.rows !! other.rows && tx.tickets !! other.tickets
    requires if tx.req.Creating? then |tx.picks| == |tx.req.entries| && id !in db.reservations
             else tx.snap.Some? && StatementDone(tx)
    ensures Protected(db, Published(tx, id, db).db, other)
  {
    if tx.req.Creating? {
      forall t | t in Picked(tx.picks) ensures t in tx.tickets {
        var k :| 0 <= k < |tx.picks| && t in tx.picks[k];
        assert PickOk(db, tx, k, tx.picks[k]);
      }
    } else {
      DoneLockedAllTickets(db, tx);
    }
    forall t | t in other.tickets && db.tickets[t].reservation.Some?
      ensures db.tickets[t].reservation.value in db.reservations && db.tickets[t].reservation.value !in tx.rows
    {
      assert TicketConsistent(db, db.tickets[t]);
      assert db.tickets[t].reservation.value in tx.rows ==> t in OwnedBy(db.tickets, tx.rows);
    }
  }

  lemma ProtectedStaysOk(db: Db, db': Db, tx: Tx)
    requires Consistent(db) && TxOk(db, tx) && Evolves(db, db') && Protected(db, db', tx)
    ensures TxOk(db', tx)
  {
    if tx.snap.Some? {
      EvolvesTransitive(tx.snap.value, db, db');
    }
    if tx.req.Creating? {
      CreatingStaysOk(db, db', tx);
    } else if tx.snap.Some? {
      StatementStaysOk(db, db', tx);
    }
  }

  lemma CreatingStaysOk(db: Db, db': Db, tx: Tx)
    requires tx.req.Creating? && CreatingOk(db, tx) && Evolves(db, db') && Protected(db, db', tx)
    ensures CreatingOk(db', tx)
  {
    forall k | 0 <= k < |tx.picks| ensures PickOk(db', tx, k, tx.picks[k]) {
      assert PickOk(db, tx, k, tx.picks[k]);
    }
  }

  lemma StatementStaysOk(db: Db, db': Db, tx: Tx)
    requires !tx.req.Creating? && tx.snap.Some? && StatementOk(db, tx) && Evolves(tx.snap.value, db)
    requires Evolves(db, db') && Protected(db, db', tx)
    ensures StatementOk(db', tx)
  {
    var snap := tx.snap.value;
    forall t | t in tx.seenTickets
      ensures t in tx.tickets <==> db'.tickets[t].reservation == snap.tickets[t].reservation
    {
      assert t in OwnedBy(snap.tickets, tx.rows);
      assert NoGain(db, t, db'.tickets[t]);
    }
    forall r | r in tx.seenRows
      ensures r in db'.reservations && LaterReservation(db.reservations[r], db'.reservations[r])
    {
    }
  }

  /* ----- Every action keeps the invariant ----- */

  lemma CommitKeepsOk(s: State, i: TxId, id: ReservationId)
    requires Ok(s) && Can(s, Commit(i, id))
    ensures Ok(Do(s, Commit(i, id)))
  {
    var db, tx, s' := s.Db(), s.txs[i], Do(s, Commit(i, id));
    var c := CommandOf(tx, id, db);
    if tx.req.Creating? {
      CreateCommitIsSerial(db, tx, id);
    } else {
      StatementCommitIsSerial(db, tx, id);
    }
    ExecKeepsConsistent(db, c);
    ExecEvolves(db, c);
    forall j | j in s'.txs ensures TxOk(s'.Db(), s'.txs[j]) {
      LockedTicketsOwnerIsStable(db, tx, s.txs[j], id);
      ProtectedStaysOk(db, s'.Db(), s.txs[j]);
    }
    SerialSnoc(s, c, Published(tx, id, db));
  }

  lemma SerialSnoc(s: State, c: Command, step: Step)
    requires Serial(s) && s.versions != [] && Legal(s.Db(), c) && Exec(s.Db(), c) == step
    ensures Serial(s.(versions := s.versions + [step.db], outcomes := s.outcomes + [step.outcome], log := s.log + [c]))
  {
    var vs, cs := s.versions + [step.db], s.log + [c];
    forall k: nat | k < |cs| ensures StepAt(vs, cs, k) {
      if k < |s.log| {
        assert StepAt(s.versions, s.log, k);
      }
    }
    forall k: nat | k < |cs| ensures (s.outcomes + [step.outcome])[k] == OutcomeAt(vs, cs, k) {
      if k < |s.log| {
        assert s.outcomes[k] == OutcomeAt(s.versions, s.log, k);
      }
    }
  }

  /** Replacing one transaction by a valid one whose locks nobody else holds. */
  lemma UpdateKeepsOk(s: State, i: TxId, tx: Tx)
    requires Ok(s) && TxOk(s.Db(), tx)
    requires forall j <- s.txs :: j != i ==> tx.rows !! s.txs[j].rows && tx.tickets !! s.txs[j].tickets
    ensures Ok(s.(txs := s.txs[i := tx]))
  {
    var s' := s.(txs := s.txs[i := tx]);
    assert s'.Db() == s.Db();
    assert Serial(s');
  }

  lemma SnapshotIsOk(db: Db, tx: Tx)
    requires TxOk(db, tx) && tx.snap.None? && (tx.req.Creating? ==> |tx.picks| < |tx.req.entries|)
    ensures TxOk(db, tx.(snap := Some(db)))
  {
    var tx' := tx.(snap := Some(db));
    if tx.req.Creating? {
      forall k | 0 <= k < |tx.picks| ensures PickOk(db, tx', k, tx.picks[k]) {
        assert PickOk(db, tx, k, tx.picks[k]);
      }
    }
  }

  lemma TouchedRowIsOk(db: Db, tx: Tx, r: ReservationId)
    requires TxOk(db, tx) && !tx.req.Creating? && tx.snap.Some?
    requires r in Matched(tx.snap.value, Statement(tx)) && r in db.reservations
    ensures TxOk(db, TouchedRow(tx, db, r))
  {
  }

  lemma TouchedTicketIsOk(db: Db, tx: Tx, t: TicketId)
    requires Consistent(db) && TxOk(db, tx) && tx.snap.Some? && t in db.tickets
    requires if tx.req.Creating? then
               && |tx.picks| < |tx.req.entries| && t !in tx.current
               && t in Eligible(tx.snap.value, tx.req.game, tx.req.entries[|tx.picks|].grade, tx.now)
             else t in OwnedBy(tx.snap.value.tickets, tx.rows)
    ensures TxOk(db, Touched(tx, db, t))
  {
    var snap, tx' := tx.snap.value, Touched(tx, db, t);
    if tx.req.Creating? && Recheck(tx, db, t) {
      assert SameTicket(snap.tickets[t], db.tickets[t]);
      assert TicketConsistent(db, db.tickets[t]);
      forall k | 0 <= k < |tx.picks| ensures PickOk(db, tx', k, tx.picks[k]) {
        assert PickOk(db, tx, k, tx.picks[k]);
      }
      assert PickOk(db, tx', |tx.picks|, tx'.current);
    }
  }

  lemma FinishedSelectIsOk(db: Db, tx: Tx)
    requires TxOk(db, tx) && tx.req.Creating? && tx.snap.Some? && |tx.picks| < |tx.req.entries|
    requires |tx.current| == tx.req.entries[|tx.picks|].quantity
    ensures TxOk(db, tx.(picks := tx.picks + [tx.current], current := [], snap := None))
  {
    var tx' := tx.(picks := tx.picks + [tx.current], current := [], snap := None);
    forall k | 0 <= k < |tx'.picks| ensures PickOk(db, tx', k, tx'.picks[k]) {
      if k < |tx.picks| {
        assert PickOk(db, tx, k, tx.picks[k]);
      }
    }
  }

  lemma ActionKeepsOk(s: State, a: Action)
    requires Ok(s) && Can(s, a)
    ensures Ok(Do(s, a))
  {
    match a
    case Tick(_) => assert Do(s, a).Db() == s.Db();
    case Begin(i, req) => UpdateKeepsOk(s, i, Tx(req, s.clock, None, {}, {}, {}, {}, [], []));
    case TakeSnapshot(i) => SnapshotIsOk(s.Db(), s.txs[i]); UpdateKeepsOk(s, i, s.txs[i].(snap := Some(s.Db())));
    case TouchRow(i, r) => TouchRowKeepsOk(s, i, r);
    case TouchTicket(i, t) => TouchTicketKeepsOk(s, i, t);
    case FinishSelect(i) =>
      FinishedSelectIsOk(s.Db(), s.txs[i]);
      UpdateKeepsOk(s, i, s.txs[i].(picks := s.txs[i].picks + [s.txs[i].current], current := [], snap := None));
    case Commit(i, id) => CommitKeepsOk(s, i, id);
    case Rollback(i) => assert Do(s, a).Db() == s.Db();
  }

  lemma TouchRowKeepsOk(s: State, i: TxId, r: ReservationId)
    requires Ok(s) && Can(s, TouchRow(i, r))
    ensures Ok(Do(s, TouchRow(i, r)))
  {
    TouchedRowIsOk(s.Db(), s.txs[i], r);
    UpdateKeepsOk(s, i, TouchedRow(s.txs[i], s.Db(), r));
  }

  lemma TouchTicketKeepsOk(s: State, i: TxId, t: TicketId)
    requires Ok(s) && Can(s, TouchTicket(i, t))
    ensures Ok(Do(s, TouchTicket(i, t)))
  {
    TouchedTicketIsOk(s.Db(), s.txs[i], t);
    UpdateKeepsOk(s, i, Touched(s.txs[i], s.Db(), t));
  }

  lemma StartIsOk(db: Db, clock: int)
    requires Consistent(db)
    ensures Ok(Start(db, clock))
  {
  }

  lemma {:induction false} RunKeepsOk(s: State, actions: seq<Action>, s': State)
    requires Ok(s) && Performed(s, actions, s')
    ensures Ok(s') && s.versions <= s'.versions
    decreases |actions|
  {
    if actions != [] {
      ActionKeepsOk(s, actions[0]);
      RunKeepsOk(Do(s, actions[0]), actions[1..], s');
    }
  }

  /** Every interleaving leaves the tables, and gives the answers, of its commits run one at a time in commit
      order, where a sweep passes over the reservations committed since its snapshot. */
  lemma InterleavingsAreSerial(db: Db, clock: int, actions: seq<Action>, s: State)
    requires Consistent(db) && Performed(Start(db, clock), actions, s)
    ensures Trace(s.versions, s.log) && s.versions[0] == db && Consistent(s.Db())
    ensures |s.outcomes| == |s.log| && forall i: nat | i < |s.log| :: s.outcomes[i] == OutcomeAt(s.versions, s.log, i)
  {
    StartIsOk(db, clock);
    RunKeepsOk(Start(db, clock), actions, s);
  }
}
