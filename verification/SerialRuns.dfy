/** The converse of `Interleaving`: every serial run of successful commands, whatever their clocks, is performed by
    some interleaving.  All transactions begin first, in the order of their clocks, and are then carried out one
    after the other in the order of the run.  So the locks, re-checks and snapshots of the interleaved system
    forbid nothing that running the transactions one at a time allows. */
module SerialRuns {
  import opened Tables
  import opened Transactions
  import opened Interleaving

  /* ----- Sequences of actions ----- */

  ghost predicate Reaches(s: State, s': State)
    requires s.versions != []
  {
    exists actions :: Performed(s, actions, s')
  }

  lemma ByAction(s: State, a: Action)
    requires s.versions != [] && Can(s, a)
    ensures Do(s, a).versions != [] && Reaches(s, Do(s, a))
  {
    assert Performed(s, [a], Do(s, a)) by {
      assert [a][1..] == [];
    }
  }

  lemma Onwards(s: State, mid: State, s': State)
    requires s.versions != [] && mid.versions != [] && Reaches(s, mid) && Reaches(mid, s')
    ensures Reaches(s, s')
  {
    var first :| Performed(s, first, mid);
    var rest :| Performed(mid, rest, s');
    PerformBoth(s, first, mid, rest, s');
  }

  /** The transaction `i` may lock what it likes: nobody else holds a lock. */
  ghost predicate Free(s: State, i: TxId) {
    s.versions != [] && i in s.txs && forall j <- s.txs :: j != i ==> s.txs[j].rows == {} && s.txs[j].tickets == {}
  }

  function With(s: State, i: TxId, tx: Tx): State {
    s.(txs := s.txs[i := tx])
  }

  /** One action of transaction `i`. */
  lemma Step1(s: State, i: TxId, a: Action, tx: Tx, s': State)
    requires Free(s, i) && Can(s, a) && Do(s, a) == With(s, i, tx) && Free(With(s, i, tx), i)
    requires Reaches(With(s, i, tx), s')
    ensures Reaches(s, s')
  {
    ByAction(s, a);
    Onwards(s, With(s, i, tx), s');
  }

  lemma WithTwice(s: State, i: TxId, a: Tx, b: Tx)
    ensures With(With(s, i, a), i, b) == With(s, i, b)
  {
    assert s.txs[i := a][i := b] == s.txs[i := b];
  }

  lemma Stays(s: State)
    requires s.versions != []
    ensures Reaches(s, s)
  {
    assert Performed(s, [], s);
  }

  /* ----- Purchase, cancel, sweep ----- */

  function Idle(req: Request, now: int): Tx {
    Tx(req, now, None, {}, {}, {}, {}, [], [])
  }

  lemma {:induction false} LockRows(s: State, i: TxId, tx: Tx)
    requires Free(s, i) && s.txs[i] == tx && !tx.req.Creating? && tx.snap == Some(s.Db())
    requires tx.seenRows == tx.rows <= Matched(s.Db(), Statement(tx))
    ensures var all := Matched(s.Db(), Statement(tx));
            Reaches(s, With(s, i, tx.(seenRows := all, rows := all)))
    decreases Matched(s.Db(), Statement(tx)) - tx.rows
  {
    var all := Matched(s.Db(), Statement(tx));
    if r :| r in all && r !in tx.rows {
      var tx' := tx.(seenRows := tx.rows + {r}, rows := tx.rows + {r});
      var s' := With(s, i, tx');
      assert Statement(tx') == Statement(tx) && s'.Db() == s.Db();
      LockRows(s', i, tx');
      WithTwice(s, i, tx', tx.(seenRows := all, rows := all));
      Step1(s, i, TouchRow(i, r), tx', With(s, i, tx.(seenRows := all, rows := all)));
    } else {
      assert tx.rows == all;
      assert With(s, i, tx) == s by { assert s.txs[i := tx] == s.txs; }
      Stays(s);
    }
  }

  lemma {:induction false} LockTickets(s: State, i: TxId, tx: Tx)
    requires Free(s, i) && s.txs[i] == tx && !tx.req.Creating? && tx.snap == Some(s.Db())
    requires tx.seenTickets == tx.tickets <= OwnedBy(s.Db().tickets, tx.rows)
    ensures var all := OwnedBy(s.Db().tickets, tx.rows);
            Reaches(s, With(s, i, tx.(seenTickets := all, tickets := all)))
    decreases OwnedBy(s.Db().tickets, tx.rows) - tx.tickets
  {
    var all := OwnedBy(s.Db().tickets, tx.rows);
    if t :| t in all && t !in tx.tickets {
      var tx' := tx.(seenTickets := tx.tickets + {t}, tickets := tx.tickets + {t});
      var s' := With(s, i, tx');
      assert s'.Db() == s.Db();
      LockTickets(s', i, tx');
      WithTwice(s, i, tx', tx.(seenTickets := all, tickets := all));
      Step1(s, i, TouchTicket(i, t), tx', With(s, i, tx.(seenTickets := all, tickets := all)));
    } else {
      assert tx.tickets == all;
      assert With(s, i, tx) == s by { assert s.txs[i := tx] == s.txs; }
      Stays(s);
    }
  }

  /** The request behind a command. */
  function RequestOf(c: Command): Request {
    match c
    case Create(_, user, game, entries, _, _, expiresAt) => Creating(user, game, entries, expiresAt)
    case Purchase(id, user, _) => Purchasing(id, user)
    case Cancel(id, user, _) => Cancelling(id, user)
    case Sweep(_, _) => Sweeping
  }

  /** The state after the only transaction with locks has committed as `c`. */
  function After(s: State, i: TxId, c: Command): State
    requires s.versions != [] && (c.Create? ==> |c.picks| == |c.entries|)
  {
    var step := Exec(s.Db(), c);
    s.(versions := s.versions + [step.db], outcomes := s.outcomes + [step.outcome], log := s.log + [c],
       txs := s.txs - {i})
  }

  lemma PerformRows(s: State, i: TxId, c: Command)
    requires Free(s, i) && !c.Create? && (c.Sweep? ==> c.missed == {})
    requires s.txs[i] == Idle(RequestOf(c), c.now) && !Exec(s.Db(), c).outcome.Failed?
    ensures Reaches(s, After(s, i, c))
  {
    var db := s.Db();
    var rs := Matched(db, c);
    var ts := OwnedBy(db.tickets, rs);
    var tx1 := s.txs[i].(snap := Some(db));
    var tx2 := tx1.(seenRows := rs, rows := rs);
    var tx3 := tx2.(seenTickets := ts, tickets := ts);
    assert Statement(tx1) == c;
    CommitRows(With(s, i, tx3), i, c, tx3);
    assert With(s, i, tx3).txs - {i} == s.txs - {i};
    WithTwice(s, i, tx2, tx3);
    LockTickets(With(s, i, tx2), i, tx2);
    Onwards(With(s, i, tx2), With(s, i, tx3), After(s, i, c));
    WithTwice(s, i, tx1, tx2);
    LockRows(With(s, i, tx1), i, tx1);
    Onwards(With(s, i, tx1), With(s, i, tx2), After(s, i, c));
    Step1(s, i, TakeSnapshot(i), tx1, After(s, i, c));
  }

  lemma CommitRows(s: State, i: TxId, c: Command, tx: Tx)
    requires Free(s, i) && !c.Create? && (c.Sweep? ==> c.missed == {}) && s.txs[i] == tx
    requires tx.req == RequestOf(c) && tx.now == c.now && tx.snap == Some(s.Db())
    requires tx.rows == tx.seenRows == Matched(s.Db(), c)
    requires tx.tickets == tx.seenTickets == OwnedBy(s.Db().tickets, tx.rows)
    requires !Exec(s.Db(), c).outcome.Failed?
    ensures Reaches(s, After(s, i, c))
  {
    assert s.Db().reservations.Keys - tx.snap.value.reservations.Keys == {};
    assert Do(s, Commit(i, 0)) == After(s, i, c);
    ByAction(s, Commit(i, 0));
  }

  /* ----- Create ----- */

  /** While the selection for entry `k` has locked the first `m` tickets of its choice. */
  ghost predicate Selecting(s: State, i: TxId, c: Command, tx: Tx, k: nat, m: nat) {
    && Free(s, i) && s.txs[i] == tx
    && c.Create? && Legal(s.Db(), c) && Exec(s.Db(), c).outcome.Created?
    && tx.req == RequestOf(c) && tx.now == c.now && tx.rows == {}
    && k < |c.entries| && tx.picks == c.picks[..k]
    && tx.snap == Some(s.Db()) && m <= |c.picks[k]| && tx.current == c.picks[k][..m]
  }

  lemma PickIsFull(db: Db, c: Command, k: nat)
    requires c.Create? && Legal(db, c) && Exec(db, c).outcome.Created? && k < |c.entries|
    ensures |c.picks[k]| == c.entries[k].quantity
    ensures ValidPick(Eligible(db, c.game, c.entries[k].grade, c.now), c.entries[k].quantity, c.picks[k])
  {
    assert ValidPick(Eligible(db, c.game, c.entries[k].grade, c.now), c.entries[k].quantity, c.picks[k]);
    NoErrorIff(c.entries, c.picks);
  }

  lemma MayLock(s: State, i: TxId, c: Command, tx: Tx, k: nat, m: nat)
    requires Selecting(s, i, c, tx, k, m) && m < |c.picks[k]|
    ensures var t := c.picks[k][m];
            && Can(s, TouchTicket(i, t))
            && Do(s, TouchTicket(i, t)) == With(s, i, tx.(tickets := tx.tickets + {t}, current := tx.current + [t]))
  {
    var t := c.picks[k][m];
    PickIsFull(s.Db(), c, k);
    assert t in Elements(c.picks[k]);
    assert t !in c.picks[k][..m];
  }

  lemma {:induction false} SelectRest(s: State, i: TxId, c: Command, tx: Tx, k: nat, m: nat) returns (done: Tx)
    requires Selecting(s, i, c, tx, k, m)
    ensures done == tx.(tickets := done.tickets, picks := c.picks[..k + 1], current := [], snap := None)
    ensures Reaches(s, With(s, i, done))
    decreases |c.picks[k]| - m
  {
    if m < |c.picks[k]| {
      var t := c.picks[k][m];
      var tx' := tx.(tickets := tx.tickets + {t}, current := tx.current + [t]);
      MayLock(s, i, c, tx, k, m);
      assert tx'.current == c.picks[k][..m + 1];
      done := SelectRest(With(s, i, tx'), i, c, tx', k, m + 1);
      WithTwice(s, i, tx', done);
      Step1(s, i, TouchTicket(i, t), tx', With(s, i, done));
    } else {
      PickIsFull(s.Db(), c, k);
      done := tx.(picks := c.picks[..k + 1], current := [], snap := None);
      assert c.picks[..k] + [c.picks[k]] == c.picks[..k + 1] && c.picks[k][..m] == c.picks[k];
      assert Do(s, FinishSelect(i)) == With(s, i, done);
      Stays(With(s, i, done));
      Step1(s, i, FinishSelect(i), done, With(s, i, done));
    }
  }

  /** Between two selections. */
  ghost predicate Selected(s: State, i: TxId, c: Command, tx: Tx, k: nat) {
    && Free(s, i) && s.txs[i] == tx
    && c.Create? && Legal(s.Db(), c) && Exec(s.Db(), c).outcome.Created?
    && tx.req == RequestOf(c) && tx.now == c.now && tx.rows == {}
    && k <= |c.entries| && tx.picks == c.picks[..k]
    && tx.snap == None && tx.current == []
  }

  lemma CommitCreate(s: State, i: TxId, c: Command, tx: Tx)
    requires c.Create? && Selected(s, i, c, tx, |c.entries|)
    ensures Reaches(s, After(s, i, c))
  {
    assert c.picks[..|c.entries|] == c.picks;
    assert Do(s, Commit(i, c.id)) == After(s, i, c);
    ByAction(s, Commit(i, c.id));
  }

  lemma SelectOne(s: State, i: TxId, c: Command, tx: Tx, k: nat) returns (done: Tx)
    requires Selected(s, i, c, tx, k) && k < |c.entries|
    ensures Selected(With(s, i, done), i, c, done, k + 1) && Reaches(s, With(s, i, done))
  {
    var tx1 := tx.(snap := Some(s.Db()));
    assert Selecting(With(s, i, tx1), i, c, tx1, k, 0);
    done := SelectRest(With(s, i, tx1), i, c, tx1, k, 0);
    WithTwice(s, i, tx1, done);
    Step1(s, i, TakeSnapshot(i), tx1, With(s, i, done));
  }

  lemma {:induction false} PerformCreate(s: State, i: TxId, c: Command, tx: Tx, k: nat)
    requires Selected(s, i, c, tx, k)
    ensures Reaches(s, After(s, i, c))
    decreases |c.entries| - k
  {
    if k < |c.entries| {
      var done := SelectOne(s, i, c, tx, k);
      PerformCreate(With(s, i, done), i, c, done, k + 1);
      assert With(s, i, done).txs - {i} == s.txs - {i};
      Onwards(s, With(s, i, done), After(s, i, c));
    } else {
      CommitCreate(s, i, c, tx);
    }
  }

  lemma PerformCommand(s: State, i: TxId, c: Command)
    requires Free(s, i) && Legal(s.Db(), c) && (c.Sweep? ==> c.missed == {})
    requires s.txs[i] == Idle(RequestOf(c), c.now) && !Exec(s.Db(), c).outcome.Failed?
    ensures Reaches(s, After(s, i, c))
  {
    if c.Create? {
      PerformCreate(s, i, c, s.txs[i], 0);
    } else {
      PerformRows(s, i, c);
    }
  }

  /* ----- Whole runs ----- */

  /** The transactions of the commands in `open`, begun and not yet carried out. */
  function IdleTxs(cs: seq<Command>, open: set<nat>): map<TxId, Tx> {
    map i | i in open && i < |cs| :: Idle(RequestOf(cs[i]), cs[i].now)
  }

  function Range(from: nat, to: nat): (r: set<nat>)
    ensures forall i: nat :: i in r <==> from <= i < to
  {
    if from >= to then {} else Range(from, to - 1) + {to - 1}
  }

  function Indices(cs: seq<Command>): set<nat> {
    Range(0, |cs|)
  }

  lemma {:induction false} Earliest(cs: seq<Command>, rest: set<nat>) returns (i: nat)
    requires rest != {} && forall j <- rest :: j < |cs|
    ensures i in rest && forall j <- rest :: cs[i].now <= cs[j].now
  {
    i :| i in rest;
    if rest != {i} {
      var other := Earliest(cs, rest - {i});
      i := if cs[i].now <= cs[other].now then i else other;
    }
  }

  /** All transactions begin, in the order of their clocks. */
  lemma {:induction false} BeginAll(s: State, cs: seq<Command>, open: set<nat>) returns (s': State)
    requires s.versions != [] && open <= Indices(cs) && s.txs == IdleTxs(cs, open)
    requires forall j <- Indices(cs) - open :: s.clock <= cs[j].now
    ensures Reaches(s, s') && s' == s.(clock := s'.clock, txs := IdleTxs(cs, Indices(cs)))
    decreases Indices(cs) - open
  {
    var rest := Indices(cs) - open;
    if rest == {} {
      forall j | j in Indices(cs) ensures j in open {
        assert j !in rest;
      }
      assert open == Indices(cs);
      s' := s;
      Stays(s);
    } else {
      var i := Earliest(cs, rest);
      var s1 := s.(clock := cs[i].now);
      var s2 := s1.(txs := IdleTxs(cs, open + {i}));
      assert Do(s, Tick(cs[i].now)) == s1;
      assert Do(s1, Begin(i, RequestOf(cs[i]))) == s2 by {
        assert s1.txs[i := Idle(RequestOf(cs[i]), cs[i].now)] == s2.txs;
      }
      ByAction(s, Tick(cs[i].now));
      ByAction(s1, Begin(i, RequestOf(cs[i])));
      s' := BeginAll(s2, cs, open + {i});
      Onwards(s1, s2, s');
      Onwards(s, s1, s');
    }
  }

  ghost predicate AllSucceed(dbs: seq<Db>, cs: seq<Command>)
    requires Trace(dbs, cs)
  {
    forall k: nat | k < |cs| :: !OutcomeAt(dbs, cs, k).Failed? && (cs[k].Sweep? ==> cs[k].missed == {})
  }

  /** The commits of `cs[..n]` are done, and the other transactions are still idle. */
  ghost predicate DoneUpTo(s: State, dbs: seq<Db>, cs: seq<Command>, n: nat)
    requires Trace(dbs, cs) && n <= |cs|
  {
    && s.versions == dbs[..n + 1] && s.log == cs[..n]
    && s.outcomes == seq(n, k requires 0 <= k < n => OutcomeAt(dbs, cs, k))
    && s.txs == IdleTxs(cs, Range(n, |cs|))
  }

  lemma NextMayRun(s: State, dbs: seq<Db>, cs: seq<Command>, n: nat)
    requires Trace(dbs, cs) && AllSucceed(dbs, cs) && n < |cs| && DoneUpTo(s, dbs, cs, n)
    ensures Free(s, n) && s.txs[n] == Idle(RequestOf(cs[n]), cs[n].now) && s.Db() == dbs[n]
    ensures Legal(s.Db(), cs[n]) && Exec(s.Db(), cs[n]).outcome == OutcomeAt(dbs, cs, n)
    ensures Exec(s.Db(), cs[n]).db == dbs[n + 1]
    ensures !OutcomeAt(dbs, cs, n).Failed?
  {
    assert StepAt(dbs, cs, n);
  }

  lemma DoneOneMore(s: State, s1: State, dbs: seq<Db>, cs: seq<Command>, n: nat)
    requires Trace(dbs, cs) && n < |cs| && DoneUpTo(s, dbs, cs, n)
    requires s1.versions == s.versions + [dbs[n + 1]] && s1.log == s.log + [cs[n]]
    requires s1.outcomes == s.outcomes + [OutcomeAt(dbs, cs, n)] && s1.txs == s.txs - {n}
    ensures DoneUpTo(s1, dbs, cs, n + 1)
  {
    OneFewer(cs, n);
    assert s1.versions == dbs[..n + 2] && s1.log == cs[..n + 1];
    assert s1.outcomes == seq(n + 1, k requires 0 <= k < n + 1 => OutcomeAt(dbs, cs, k));
  }

  lemma CommitNext(s: State, dbs: seq<Db>, cs: seq<Command>, n: nat)
    requires Trace(dbs, cs) && AllSucceed(dbs, cs) && n < |cs| && DoneUpTo(s, dbs, cs, n)
    ensures s.versions != [] && Legal(s.Db(), cs[n])
    ensures Reaches(s, After(s, n, cs[n])) && DoneUpTo(After(s, n, cs[n]), dbs, cs, n + 1)
  {
    NextMayRun(s, dbs, cs, n);
    PerformCommand(s, n, cs[n]);
    DoneOneMore(s, After(s, n, cs[n]), dbs, cs, n);
  }

  lemma OneFewer(cs: seq<Command>, n: nat)
    requires n < |cs|
    ensures IdleTxs(cs, Range(n, |cs|)) - {n} == IdleTxs(cs, Range(n + 1, |cs|))
  {
  }

  lemma {:induction false} CommitAll(s: State, dbs: seq<Db>, cs: seq<Command>, n: nat) returns (s': State)
    requires Trace(dbs, cs) && AllSucceed(dbs, cs) && n <= |cs| && DoneUpTo(s, dbs, cs, n)
    ensures Reaches(s, s') && DoneUpTo(s', dbs, cs, |cs|)
    decreases |cs| - n
  {
    if n == |cs| {
      s' := s;
      Stays(s);
    } else {
      CommitNext(s, dbs, cs, n);
      var s1 := After(s, n, cs[n]);
      s' := CommitAll(s1, dbs, cs, n + 1);
      Onwards(s, s1, s');
    }
  }

  /** Every serial run of successful commands with complete sweeps is the outcome of an interleaving: same tables
      at every commit, same answers, and no transaction left open. */
  lemma EverySerialRunIsAnInterleaving(dbs: seq<Db>, cs: seq<Command>, clock: int)
    returns (actions: seq<Action>, s: State)
    requires Trace(dbs, cs) && AllSucceed(dbs, cs) && forall c <- cs :: clock <= c.now
    ensures Performed(Start(dbs[0], clock), actions, s)
    ensures s.versions == dbs && s.log == cs && s.txs == map[]
    ensures |s.outcomes| == |cs| && forall k: nat | k < |cs| :: s.outcomes[k] == OutcomeAt(dbs, cs, k)
  {
    var s0 := Start(dbs[0], clock);
    assert s0.txs == IdleTxs(cs, {});
    var s1 := BeginAll(s0, cs, {});
    assert dbs[..1] == [dbs[0]];
    s := CommitAll(s1, dbs, cs, 0);
    Onwards(s0, s1, s);
    actions :| Performed(s0, actions, s);
  }
}
