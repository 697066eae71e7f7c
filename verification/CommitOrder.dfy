/** When interleaved transactions are equivalent to running the committed ones, with complete sweeps, one at a
    time in commit order: exactly when no sweep commits over a lapsed reservation that its snapshot did not
    contain.  That cannot happen if every create commits before its own hold runs out. */
module CommitOrder {
  import opened Tables
  import opened Transactions
  import opened Invariant
  import opened Histories
  import opened Interleaving

  /** The same command with every sweep made complete. */
  function Plain(c: Command): (p: Command)
    ensures p.Create? <==> c.Create?
  {
    if c.Sweep? then FullSweep(c.now) else c
  }

  function PlainLog(cs: seq<Command>): (ps: seq<Command>)
    ensures |ps| == |cs| && forall i | 0 <= i < |cs| :: ps[i] == Plain(cs[i])
  {
    seq(|cs|, i requires 0 <= i < |cs| => Plain(cs[i]))
  }

  /** A sweep left no lapsed reservation behind. */
  ghost predicate NothingMissed(db: Db, c: Command) {
    c.Sweep? ==> forall r <- c.missed :: r in db.reservations ==> !Lapsed(db.reservations[r], c.now)
  }

  lemma PlainStepIff(db: Db, c: Command)
    requires Consistent(db) && Legal(db, c)
    ensures Exec(db, c).db == Exec(db, Plain(c)).db <==> NothingMissed(db, c)
    ensures NothingMissed(db, c) ==> Exec(db, c).outcome == Exec(db, Plain(c)).outcome
  {
    if c.Sweep? {
      if NothingMissed(db, c) {
        assert Matched(db, c) == Matched(db, Plain(c));
      } else {
        var r :| r in c.missed && r in db.reservations && Lapsed(db.reservations[r], c.now);
        assert Exec(db, c).db.reservations[r].status == Pending;
        assert Exec(db, Plain(c)).db.reservations[r].status == Expired;
      }
    }
  }

  /** The exact condition, for every interleaving. */
  lemma SerialWithCompleteSweepsIff(db: Db, clock: int, actions: seq<Action>, s: State)
    requires Consistent(db) && Performed(Start(db, clock), actions, s)
    ensures |s.versions| == |s.log| + 1
    ensures Trace(s.versions, PlainLog(s.log))
            <==> forall k: nat | k < |s.log| :: NothingMissed(s.versions[k], s.log[k])
  {
    InterleavingsAreSerial(db, clock, actions, s);
    forall k: nat | k < |s.log|
      ensures StepAt(s.versions, PlainLog(s.log), k) <==> NothingMissed(s.versions[k], s.log[k])
    {
      assert StepAt(s.versions, s.log, k);
      TraceKeepsConsistent(s.versions, s.log, k);
      PlainStepIff(s.versions[k], s.log[k]);
    }
    if Trace(s.versions, PlainLog(s.log)) {
      forall k: nat | k < |s.log| ensures NothingMissed(s.versions[k], s.log[k]) {
        assert StepAt(s.versions, PlainLog(s.log), k);
      }
    }
  }

  /* ----- Punctual creates ----- */

  /** Every create that commits does so while its hold has not run out. */
  ghost predicate Punctual(s: State, actions: seq<Action>)
    requires s.versions != []
    decreases |actions|
  {
    actions != [] && Can(s, actions[0]) ==>
      && (actions[0].Commit? && s.txs[actions[0].tx].req.Creating? ==> s.clock <= s.txs[actions[0].tx].req.expiresAt)
      && Punctual(Do(s, actions[0]), actions[1..])
  }

  /** What a sweep's snapshot lacks has not lapsed for that sweep. */
  ghost predicate SnapshotFresh(db: Db, tx: Tx) {
    tx.req.Sweeping? && tx.snap.Some? ==>
      forall r <- db.reservations :: r in tx.snap.value.reservations || db.reservations[r].expiresAt >= tx.now
  }

  ghost predicate Timely(s: State)
    requires s.versions != []
  {
    && (forall i <- s.txs :: s.txs[i].now <= s.clock && SnapshotFresh(s.Db(), s.txs[i]))
    && |s.versions| == |s.log| + 1
    && forall k: nat | k < |s.log| :: NothingMissed(s.versions[k], s.log[k])
  }

  lemma CommitKeepsTimely(s: State, i: TxId, id: ReservationId)
    requires Ok(s) && Timely(s) && Can(s, Commit(i, id))
    requires s.txs[i].req.Creating? ==> s.clock <= s.txs[i].req.expiresAt
    ensures Timely(Do(s, Commit(i, id)))
  {
    var db, tx, s' := s.Db(), s.txs[i], Do(s, Commit(i, id));
    var c := CommandOf(tx, id, db);
    assert NothingMissed(db, c);
    forall k: nat | k < |s'.log| ensures NothingMissed(s'.versions[k], s'.log[k]) {
      if k < |s.log| {
        assert NothingMissed(s.versions[k], s.log[k]);
      }
    }
    forall j | j in s'.txs ensures s'.txs[j].now <= s'.clock && SnapshotFresh(s'.Db(), s'.txs[j]) {
      CommitKeepsFresh(s, i, id, s.txs[j]);
    }
  }

  lemma CommitKeepsFresh(s: State, i: TxId, id: ReservationId, other: Tx)
    requires s.versions != [] && Can(s, Commit(i, id)) && SnapshotFresh(s.Db(), other) && other.now <= s.clock
    requires s.txs[i].req.Creating? ==> s.clock <= s.txs[i].req.expiresAt
    ensures SnapshotFresh(Published(s.txs[i], id, s.Db()).db, other)
  {
  }

  lemma ActionKeepsTimely(s: State, a: Action)
    requires Ok(s) && Timely(s) && Can(s, a)
    requires a.Commit? && s.txs[a.tx].req.Creating? ==> s.clock <= s.txs[a.tx].req.expiresAt
    ensures Timely(Do(s, a))
  {
    if a.Commit? {
      CommitKeepsTimely(s, a.tx, a.id);
    } else {
      var s' := Do(s, a);
      assert s'.Db() == s.Db();
      forall j | j in s'.txs ensures s'.txs[j].now <= s'.clock && SnapshotFresh(s'.Db(), s'.txs[j]) {
        assert j in s.txs ==> SnapshotFresh(s.Db(), s.txs[j]);
      }
    }
  }

  lemma {:induction false} RunKeepsTimely(s: State, actions: seq<Action>, s': State)
    requires Ok(s) && Timely(s) && Performed(s, actions, s') && Punctual(s, actions)
    ensures s'.versions != [] && Timely(s')
    decreases |actions|
  {
    if actions != [] {
      ActionKeepsOk(s, actions[0]);
      ActionKeepsTimely(s, actions[0]);
      RunKeepsTimely(Do(s, actions[0]), actions[1..], s');
    }
  }

  /** If every create commits before its hold runs out, every interleaving is the serial run of its commits in
      commit order, sweeps included. */
  lemma PunctualInterleavingsAreSerial(db: Db, clock: int, actions: seq<Action>, s: State)
    requires Consistent(db) && Performed(Start(db, clock), actions, s) && Punctual(Start(db, clock), actions)
    ensures Trace(s.versions, PlainLog(s.log)) && s.versions[0] == db
  {
    InterleavingsAreSerial(db, clock, actions, s);
    StartIsOk(db, clock);
    RunKeepsTimely(Start(db, clock), actions, s);
    SerialWithCompleteSweepsIff(db, clock, actions, s);
  }

  /* ----- Consequences for concurrent users ----- */

  /** No double sale, in every interleaving. */
  lemma NoDoubleSaleInterleaved(db: Db, clock: int, actions: seq<Action>, s: State, t: TicketId, i: nat, j: nat)
    requires Consistent(db) && Performed(Start(db, clock), actions, s)
    requires i < j < |s.outcomes|
    requires s.outcomes[i].Purchased? && t in s.outcomes[i].tickets
    requires s.outcomes[j].Purchased? && t in s.outcomes[j].tickets
    ensures |s.log| == |s.outcomes| && s.log[i].Purchase?
    ensures exists k: nat | i < k < j :: s.log[k].Cancel? && s.log[k].id == s.log[i].id && s.outcomes[k].Released?
  {
    InterleavingsAreSerial(db, clock, actions, s);
    NoDoubleSale(s.versions, s.log, t, i, j);
    var k: nat :| i + 1 <= k < j && Cancels(s.versions, s.log, s.log[i].id, k);
  }

  /** In the log of an interleaving, commit `k` took the ticket `t` from the reservation `r`. */
  ghost predicate LogTakes(s: State, t: TicketId, r: ReservationId, k: nat)
    requires k < |s.log| == |s.outcomes| && |s.versions| == |s.log| + 1
  {
    TakesFrom(s.versions[k], s.log[k], s.outcomes[k], t, r)
  }

  lemma BoughtIsNotGivenInterleaved(s: State, t: TicketId, r: ReservationId, p: nat, j: nat)
    requires Serial(s) && s.versions != [] && Consistent(s.versions[0]) && p < j < |s.log|
    requires s.log[p].Purchase? && s.log[p].id == r && s.outcomes[p].Purchased? && t in s.outcomes[p].tickets
    requires s.outcomes[j].Created? && t in s.outcomes[j].tickets
    ensures exists k: nat | p < k < j :: s.log[k].Cancel? && s.log[k].id == r && s.outcomes[k].Released?
  {
    BoughtIsNotGiven(s.versions, s.log, t, r, p, j);
    var k: nat :| p + 1 <= k < j && Cancels(s.versions, s.log, r, k);
  }

  /** No double booking, in every interleaving: a ticket is promised again only after a commit took it from the
      first reservation, by cancelling that reservation, or by expiring it or taking the ticket in a transaction
      that started after the expiry.  Once the first reservation has bought it, only a cancel frees it. */
  lemma NoDoubleBookingInterleaved(db: Db, clock: int, actions: seq<Action>, s: State, t: TicketId, i: nat, j: nat)
    requires Consistent(db) && Performed(Start(db, clock), actions, s)
    requires i < j < |s.outcomes| && |s.log| == |s.outcomes|
    requires s.log[i].Create? && s.outcomes[i].Created? && t in s.outcomes[i].tickets
    requires s.outcomes[j].Created? && t in s.outcomes[j].tickets
    ensures |s.versions| == |s.log| + 1
    ensures exists k: nat | i < k <= j ::
              && LogTakes(s, t, s.log[i].id, k)
              && ((s.log[k].Cancel? && s.log[k].id == s.log[i].id) || s.log[k].now > s.log[i].expiresAt)
    ensures forall p: nat | i < p < j && s.log[p].Purchase? && s.log[p].id == s.log[i].id
                            && s.outcomes[p].Purchased? && t in s.outcomes[p].tickets ::
              exists k: nat | p < k < j ::
                s.log[k].Cancel? && s.log[k].id == s.log[i].id && s.outcomes[k].Released?
  {
    InterleavingsAreSerial(db, clock, actions, s);
    var r := s.log[i].id;
    NoDoubleBooking(s.versions, s.log, t, i, j);
    var k: nat :| i < k <= j && Takes(s.versions, s.log, t, r, k)
                  && (Cancels(s.versions, s.log, r, k) || s.log[k].now > s.log[i].expiresAt);
    assert LogTakes(s, t, r, k);
    forall p: nat | i < p < j && s.log[p].Purchase? && s.log[p].id == r
                    && s.outcomes[p].Purchased? && t in s.outcomes[p].tickets
      ensures exists k: nat | p < k < j :: s.log[k].Cancel? && s.log[k].id == r && s.outcomes[k].Released?
    {
      BoughtIsNotGivenInterleaved(s, t, r, p, j);
    }
  }

  /** A concurrent purchase answers with exactly the tickets its create answered with, less those that other
      creates took in between.  It is whole if no create that committed in between had started after the hold
      ran out. */
  lemma PurchaseInterleaved(db: Db, clock: int, actions: seq<Action>, s: State, i: nat, j: nat)
    requires Consistent(db) && Performed(Start(db, clock), actions, s)
    requires i < j < |s.outcomes| && |s.log| == |s.outcomes|
    requires s.log[i].Create? && s.outcomes[i].Created?
    requires s.log[j].Purchase? && s.log[j].id == s.log[i].id && s.outcomes[j].Purchased?
    ensures s.outcomes[j].tickets
         == s.outcomes[i].tickets
            - (set k: nat, t | i < k < j && s.outcomes[k].Created? && t in s.outcomes[k].tickets :: t)
    ensures NoLateCreate(s.log, s.log[i].expiresAt, i + 1, j) ==> s.outcomes[j].tickets == s.outcomes[i].tickets
  {
    InterleavingsAreSerial(db, clock, actions, s);
    PurchaseReturnsWhatIsLeft(s.versions, s.log, i, j);
    assert TakenBetween(s.versions, s.log, i + 1, j)
        == set k: nat, t | i < k < j && s.outcomes[k].Created? && t in s.outcomes[k].tickets :: t;
    if NoLateCreate(s.log, s.log[i].expiresAt, i + 1, j) {
      PurchaseIsWholeWithoutLateCreate(s.versions, s.log, i, j);
    }
  }
}
