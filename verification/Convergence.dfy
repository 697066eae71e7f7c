/** What sweeps that pass over lapsed reservations leave behind.

    The serial run of `CommitOrder` has complete sweeps, and by `SerialWithCompleteSweepsIff` its tables may
    differ from those of the interleaving.  This module says by how much: by the reservations passed over,
    which are still pending in the interleaving and already expired in the serial run.  No answer shows the
    difference, unless a purchase or cancel uses such a reservation, and the next sweep removes it. */
module Convergence {
  import opened Tables
  import opened Transactions
  import opened Invariant
  import opened Histories
  import opened Interleaving
  import opened CommitOrder
  import LazyExpiry

  /** The tables with the reservations `rs` expired and their tickets freed. */
  function Expire(db: Db, rs: set<ReservationId>): Db {
    Rewrite(db, rs, Expired, OwnedBy(db.tickets, rs), Available, None)
  }

  lemma ExpireTwice(db: Db, xs: set<ReservationId>, ys: set<ReservationId>)
    ensures Expire(Expire(db, xs), ys) == Expire(db, xs + ys)
  {
    LazyExpiry.SameRows(Expire(Expire(db, xs), ys), Expire(db, xs + ys));
  }

  /** The sweep `k` passed over the lapsed reservation `r`. */
  ghost predicate PassedOver(versions: seq<Db>, cs: seq<Command>, r: ReservationId, k: nat)
    requires |versions| == |cs| + 1 && k < |cs|
  {
    && cs[k].Sweep? && r in cs[k].missed
    && r in versions[k].reservations && Lapsed(versions[k].reservations[r], cs[k].now)
  }

  ghost predicate PassedOverBefore(versions: seq<Db>, cs: seq<Command>, r: ReservationId, n: nat)
    requires |versions| == |cs| + 1 && n <= |cs|
  {
    exists k: nat | k < n :: PassedOver(versions, cs, r, k)
  }

  /** What the sweeps before command `n` passed over and nothing has ended since. */
  ghost function LeftOver(versions: seq<Db>, cs: seq<Command>, n: nat): set<ReservationId>
    requires |versions| == |cs| + 1 && n <= |cs|
  {
    set r | r in versions[n].reservations && versions[n].reservations[r].status == Pending
            && PassedOverBefore(versions, cs, r, n)
  }

  /** Command `j` purchases or cancels a reservation that an earlier sweep had passed over. */
  ghost predicate UsesMissed(versions: seq<Db>, cs: seq<Command>, j: nat)
    requires |versions| == |cs| + 1 && j < |cs|
  {
    (cs[j].Purchase? || cs[j].Cancel?) && PassedOverBefore(versions, cs, cs[j].id, j)
  }

  ghost predicate MissesUnused(versions: seq<Db>, cs: seq<Command>, n: nat)
    requires |versions| == |cs| + 1 && n <= |cs|
  {
    forall j: nat | j < n :: !UsesMissed(versions, cs, j)
  }

  /** A run in which every command succeeded, as the commits of an interleaving do. */
  ghost predicate AllSucceed(versions: seq<Db>, cs: seq<Command>)
    requires Trace(versions, cs)
  {
    forall k: nat | k < |cs| :: !OutcomeAt(versions, cs, k).Failed?
  }

  /* ----- One step, beside the same step with the leftovers expired ----- */

  lemma SweepStep(a: Db, c: Command, xs: set<ReservationId>)
    requires c.Sweep?
    requires forall r <- xs :: r in a.reservations && a.reservations[r].status == Pending
    ensures var rest := (xs + Matched(a, Plain(c))) - Matched(a, c);
            Exec(Expire(a, xs), Plain(c)).db == Expire(Exec(a, c).db, rest)
  {
    var swept, lapsed := Matched(a, c), Matched(a, Plain(c));
    var rest := (xs + lapsed) - swept;
    assert Matched(Expire(a, xs), Plain(c)) == lapsed - xs;
    ExpireTwice(a, xs, lapsed - xs);
    ExpireTwice(a, swept, rest);
    assert swept + rest == xs + (lapsed - xs);
  }

  lemma CreateStep(a: Db, c: Command, xs: set<ReservationId>)
    requires Consistent(a) && Legal(a, c) && c.Create? && Exec(a, c).outcome.Created?
    requires xs <= a.reservations.Keys
    ensures Legal(Expire(a, xs), c)
    ensures Exec(Expire(a, xs), c) == Step(Expire(Exec(a, c).db, xs), Exec(a, c).outcome)
  {
    var b := Expire(a, xs);
    forall k | 0 <= k < |c.entries|
      ensures ValidPick(Eligible(b, c.game, c.entries[k].grade, c.now), c.entries[k].quantity, c.picks[k])
    {
      MoreToChooseFrom(a, c, xs, k);
    }
    LazyExpiry.SameRows(Exec(b, c).db, Expire(Exec(a, c).db, xs));
  }

  /** Expiring reservations takes no ticket away from a selection that found enough. */
  lemma MoreToChooseFrom(a: Db, c: Command, xs: set<ReservationId>, k: nat)
    requires Consistent(a) && Legal(a, c) && c.Create? && Exec(a, c).outcome.Created? && k < |c.entries|
    ensures ValidPick(Eligible(Expire(a, xs), c.game, c.entries[k].grade, c.now), c.entries[k].quantity, c.picks[k])
  {
    var e, e' := Eligible(a, c.game, c.entries[k].grade, c.now),
                 Eligible(Expire(a, xs), c.game, c.entries[k].grade, c.now);
    assert ValidPick(e, c.entries[k].quantity, c.picks[k]);
    assert e <= e';
    NoErrorIff(c.entries, c.picks);
    DistinctSize(c.picks[k]);
    SubsetSize(Elements(c.picks[k]), e');
  }

  lemma EffectThenExpire(a: Db, c: Command, rs: set<ReservationId>, ts: set<TicketId>, xs: set<ReservationId>)
    requires (c.Purchase? || c.Cancel?) && rs <= {c.id} && c.id !in xs && ts == OwnedBy(a.tickets, rs)
    ensures Effect(Expire(a, xs), c, rs, ts) == Expire(Effect(a, c, rs, ts), xs)
  {
    LazyExpiry.SameRows(Effect(Expire(a, xs), c, rs, ts), Expire(Effect(a, c, rs, ts), xs));
  }

  lemma RowsStep(a: Db, c: Command, xs: set<ReservationId>)
    requires (c.Purchase? || c.Cancel?) && c.id !in xs
    ensures Exec(Expire(a, xs), c).outcome == Exec(a, c).outcome
    ensures Exec(Expire(a, xs), c).db == Expire(Exec(a, c).db, xs)
  {
    var b, rs := Expire(a, xs), Matched(a, c);
    assert Matched(b, c) == rs;
    assert OwnedBy(b.tickets, rs) == OwnedBy(a.tickets, rs);
    EffectThenExpire(a, c, rs, OwnedBy(a.tickets, rs), xs);
  }

  /* ----- The leftovers along a run ----- */

  lemma PassedOverSnoc(versions: seq<Db>, cs: seq<Command>, r: ReservationId, n: nat)
    requires |versions| == |cs| + 1 && n < |cs|
    ensures PassedOverBefore(versions, cs, r, n + 1)
            <==> PassedOverBefore(versions, cs, r, n) || PassedOver(versions, cs, r, n)
  {
  }

  /** A reservation was known when it was passed over. */
  lemma PassedOverIsOld(versions: seq<Db>, cs: seq<Command>, r: ReservationId, n: nat)
    requires Trace(versions, cs) && Consistent(versions[0]) && n <= |cs| && PassedOverBefore(versions, cs, r, n)
    ensures r in versions[n].reservations
  {
    var k: nat :| k < n && PassedOver(versions, cs, r, k);
    TraceEvolves(versions, cs, k, n);
  }

  lemma LeftOverStep(versions: seq<Db>, cs: seq<Command>, n: nat)
    requires Trace(versions, cs) && Consistent(versions[0]) && n < |cs|
    requires !OutcomeAt(versions, cs, n).Failed? && !UsesMissed(versions, cs, n)
    ensures LeftOver(versions, cs, n + 1)
         == if cs[n].Sweep? then
              (LeftOver(versions, cs, n) + Matched(versions[n], Plain(cs[n]))) - Matched(versions[n], cs[n])
            else LeftOver(versions, cs, n)
  {
    var a, c, a' := versions[n], cs[n], versions[n + 1];
    assert StepAt(versions, cs, n) && a' == Exec(a, c).db;
    forall r
      ensures r in LeftOver(versions, cs, n + 1)
              <==> if c.Sweep? then
                     (r in LeftOver(versions, cs, n) || r in Matched(a, Plain(c))) && r !in Matched(a, c)
                   else r in LeftOver(versions, cs, n)
    {
      PassedOverSnoc(versions, cs, r, n);
      if PassedOverBefore(versions, cs, r, n) {
        PassedOverIsOld(versions, cs, r, n);
        if !c.Sweep? {
          StatusUnlessNamed(a, c, r);
        }
      }
    }
  }

  /** Only a sweep changes a reservation that the command does not name. */
  lemma StatusUnlessNamed(db: Db, c: Command, r: ReservationId)
    requires Legal(db, c) && !c.Sweep? && r in db.reservations && (c.Create? || r != c.id)
    ensures r in Exec(db, c).db.reservations && Exec(db, c).db.reservations[r] == db.reservations[r]
  {
  }

  /** One command on the tables of the run and on the same tables with the leftovers expired. */
  lemma StepKeepsDistance(versions: seq<Db>, cs: seq<Command>, n: nat)
    requires Trace(versions, cs) && Consistent(versions[0]) && n < |cs|
    requires !OutcomeAt(versions, cs, n).Failed? && !UsesMissed(versions, cs, n)
    ensures var c, b := cs[n], Expire(versions[n], LeftOver(versions, cs, n));
            && Legal(b, Plain(c))
            && Exec(b, Plain(c)).db == Expire(versions[n + 1], LeftOver(versions, cs, n + 1))
            && (!c.Sweep? ==> Exec(b, c).outcome == OutcomeAt(versions, cs, n))
  {
    var c, xs := cs[n], LeftOver(versions, cs, n);
    assert StepAt(versions, cs, n);
    TraceKeepsConsistent(versions, cs, n);
    LeftOverStep(versions, cs, n);
    match c
    case Sweep(_, _) => SweepStep(versions[n], c, xs);
    case Create(_, _, _, _, _, _, _) => CreateStep(versions[n], c, xs);
    case _ => RowsStep(versions[n], c, xs);
  }

  /* ----- Whole runs ----- */

  /** `dbs` is the serial run with complete sweeps, and it gives the answers of `versions`. */
  ghost predicate SameAnswers(dbs: seq<Db>, versions: seq<Db>, cs: seq<Command>)
    requires Trace(versions, cs)
  {
    && Trace(dbs, PlainLog(cs)) && dbs[0] == versions[0]
    && forall k: nat | k < |cs| && !cs[k].Sweep? :: OutcomeAt(dbs, PlainLog(cs), k) == OutcomeAt(versions, cs, k)
  }

  lemma {:induction false} CompleteSweepsRun(versions: seq<Db>, cs: seq<Command>, n: nat) returns (dbs: seq<Db>)
    requires Trace(versions, cs) && Consistent(versions[0]) && AllSucceed(versions, cs) && n <= |cs|
    requires MissesUnused(versions, cs, n)
    ensures Trace(dbs, PlainLog(cs[..n]))
    ensures forall m: nat | m <= n :: dbs[m] == Expire(versions[m], LeftOver(versions, cs, m))
  {
    if n == 0 {
      assert LeftOver(versions, cs, 0) == {};
      LazyExpiry.SameRows(versions[0], Expire(versions[0], {}));
      dbs := [versions[0]];
    } else {
      var p := n - 1;
      var before := CompleteSweepsRun(versions, cs, p);
      StepKeepsDistance(versions, cs, p);
      dbs := LazyExpiry.ExtendTrace(before, PlainLog(cs[..p]), Plain(cs[p]));
      assert PlainLog(cs[..n]) == PlainLog(cs[..p]) + [Plain(cs[p])];
    }
  }

  /** A reservation that was passed over and that nobody purchased or cancelled is pending or expired. */
  lemma {:induction false} PassedOverStatus(versions: seq<Db>, cs: seq<Command>, r: ReservationId, k: nat, n: nat)
    requires Trace(versions, cs) && Consistent(versions[0]) && k < n <= |cs| && PassedOver(versions, cs, r, k)
    requires MissesUnused(versions, cs, n)
    ensures r in versions[n].reservations && versions[n].reservations[r].status in {Pending, Expired}
  {
    assert StepAt(versions, cs, n - 1);
    if k < n - 1 {
      PassedOverStatus(versions, cs, r, k, n - 1);
      assert PassedOverBefore(versions, cs, r, n - 1);
      assert !UsesMissed(versions, cs, n - 1);
    }
  }

  /** The first use of a leftover succeeds in the run and fails once the leftover is expired. */
  lemma UseIsSeen(versions: seq<Db>, cs: seq<Command>, n: nat)
    requires Trace(versions, cs) && Consistent(versions[0]) && n < |cs| && MissesUnused(versions, cs, n)
    requires UsesMissed(versions, cs, n) && !OutcomeAt(versions, cs, n).Failed?
    ensures Exec(Expire(versions[n], LeftOver(versions, cs, n)), cs[n]).outcome.Failed?
  {
    var c, r := cs[n], cs[n].id;
    var k: nat :| k < n && PassedOver(versions, cs, r, k);
    PassedOverStatus(versions, cs, r, k, n);
    assert StepAt(versions, cs, n);
    var t :| t in OwnedBy(versions[n].tickets, Matched(versions[n], c));
    assert r in LeftOver(versions, cs, n);
    assert Matched(Expire(versions[n], LeftOver(versions, cs, n)), c) == {};
  }

  lemma SameAnswerMeansUnused(dbs: seq<Db>, versions: seq<Db>, cs: seq<Command>, n: nat)
    requires Trace(versions, cs) && Consistent(versions[0]) && AllSucceed(versions, cs) && n < |cs|
    requires SameAnswers(dbs, versions, cs) && MissesUnused(versions, cs, n)
    requires dbs[n] == Expire(versions[n], LeftOver(versions, cs, n))
    ensures !UsesMissed(versions, cs, n)
  {
    assert !OutcomeAt(versions, cs, n).Failed?;
    assert !cs[n].Sweep? ==> OutcomeAt(dbs, PlainLog(cs), n) == OutcomeAt(versions, cs, n);
    if UsesMissed(versions, cs, n) {
      UseIsSeen(versions, cs, n);
    }
  }

  lemma {:induction false} SameAnswersMeanUnused(dbs: seq<Db>, versions: seq<Db>, cs: seq<Command>, n: nat)
    requires Trace(versions, cs) && Consistent(versions[0]) && AllSucceed(versions, cs) && n <= |cs|
    requires SameAnswers(dbs, versions, cs)
    ensures MissesUnused(versions, cs, n)
    ensures dbs[n] == Expire(versions[n], LeftOver(versions, cs, n))
  {
    if n == 0 {
      assert LeftOver(versions, cs, 0) == {};
      LazyExpiry.SameRows(versions[0], Expire(versions[0], {}));
    } else {
      SameAnswersMeanUnused(dbs, versions, cs, n - 1);
      SameAnswerMeansUnused(dbs, versions, cs, n - 1);
      StepKeepsDistance(versions, cs, n - 1);
      assert StepAt(dbs, PlainLog(cs), n - 1);
    }
  }

  /* ----- Every interleaving ----- */

  lemma {:induction false} CommitsSucceed(s: State, actions: seq<Action>, s': State)
    requires s.versions != [] && Performed(s, actions, s') && forall o <- s.outcomes :: !o.Failed?
    ensures forall o <- s'.outcomes :: !o.Failed?
    decreases |actions|
  {
    if actions != [] {
      CommitsSucceed(Do(s, actions[0]), actions[1..], s');
    }
  }

  lemma InterleavedRunSucceeds(db: Db, clock: int, actions: seq<Action>, s: State)
    requires Consistent(db) && Performed(Start(db, clock), actions, s)
    ensures Trace(s.versions, s.log) && s.versions[0] == db && AllSucceed(s.versions, s.log)
  {
    InterleavingsAreSerial(db, clock, actions, s);
    CommitsSucceed(Start(db, clock), actions, s);
    forall k: nat | k < |s.log| ensures !OutcomeAt(s.versions, s.log, k).Failed? {
      assert s.outcomes[k] in s.outcomes;
    }
  }

  /** In every interleaving, whatever the clocks: the answers are those of the serial run with complete sweeps
      if and only if nobody purchases or cancels a reservation that an earlier sweep had passed over. */
  lemma AnswersOfCompleteSweepsIff(db: Db, clock: int, actions: seq<Action>, s: State)
    requires Consistent(db) && Performed(Start(db, clock), actions, s)
    ensures Trace(s.versions, s.log)
    ensures (exists dbs :: SameAnswers(dbs, s.versions, s.log)) <==> MissesUnused(s.versions, s.log, |s.log|)
  {
    InterleavedRunSucceeds(db, clock, actions, s);
    var cs := s.log;
    assert cs[..|cs|] == cs;
    if MissesUnused(s.versions, cs, |cs|) {
      var dbs := CompleteSweepsRun(s.versions, cs, |cs|);
      assert LeftOver(s.versions, cs, 0) == {};
      LazyExpiry.SameRows(s.versions[0], Expire(s.versions[0], {}));
      forall k: nat | k < |cs| && !cs[k].Sweep?
        ensures OutcomeAt(dbs, PlainLog(cs), k) == OutcomeAt(s.versions, cs, k)
      {
        StepKeepsDistance(s.versions, cs, k);
      }
      assert SameAnswers(dbs, s.versions, cs);
    }
    if dbs :| SameAnswers(dbs, s.versions, cs) {
      SameAnswersMeanUnused(dbs, s.versions, cs, |cs|);
    }
  }

  /** ... and then the tables of the two differ at every point by exactly the leftovers, which a sweep removes
      as soon as it is no earlier than the sweeps that passed over them. */
  lemma NextSweepRepairs(db: Db, clock: int, actions: seq<Action>, s: State, dbs: seq<Db>, n: nat, now: int)
    requires Consistent(db) && Performed(Start(db, clock), actions, s) && n <= |s.log|
    requires Trace(s.versions, s.log) && SameAnswers(dbs, s.versions, s.log)
    ensures dbs[n] == Expire(s.versions[n], LeftOver(s.versions, s.log, n))
    ensures (forall k: nat | k < n && s.log[k].Sweep? :: s.log[k].now <= now) ==>
              LazyExpiry.Swept(dbs[n], now) == LazyExpiry.Swept(s.versions[n], now)
  {
    InterleavedRunSucceeds(db, clock, actions, s);
    SameAnswersMeanUnused(dbs, s.versions, s.log, n);
    if forall k: nat | k < n && s.log[k].Sweep? :: s.log[k].now <= now {
      var a, xs := s.versions[n], LeftOver(s.versions, s.log, n);
      TraceKeepsConsistent(s.versions, s.log, n);
      forall r | r in xs ensures Lapsed(a.reservations[r], now) {
        var k: nat :| k < n && PassedOver(s.versions, s.log, r, k);
        TraceEvolves(s.versions, s.log, k, n);
        assert LaterReservation(s.versions[k].reservations[r], a.reservations[r]);
      }
      var c := Sweep(now, a.reservations.Keys - xs);
      assert Matched(a, c) == xs;
      LazyExpiry.SweepAbsorbs(a, c, now);
    }
  }

  /** Commits in the order of the clocks meet the condition: what a sweep passed over had run out for every
      later purchase and cancel. */
  lemma InOrderLeavesMissesUnused(db: Db, clock: int, actions: seq<Action>, s: State)
    requires Consistent(db) && Performed(Start(db, clock), actions, s) && InOrder(s.log)
    ensures Trace(s.versions, s.log) && MissesUnused(s.versions, s.log, |s.log|)
  {
    InterleavedRunSucceeds(db, clock, actions, s);
    InOrderUnused(s.versions, s.log, |s.log|);
  }

  lemma MissedFails(db: Db, c: Command)
    requires (c.Purchase? || c.Cancel?) && c.id in db.reservations
    requires var row := db.reservations[c.id]; row.status == Expired || Lapsed(row, c.now)
    ensures Exec(db, c).outcome.Failed?
  {
    assert Matched(db, c) == {};
    assert OwnedBy(db.tickets, {}) == {};
  }

  lemma {:induction false} InOrderUnused(versions: seq<Db>, cs: seq<Command>, n: nat)
    requires Trace(versions, cs) && Consistent(versions[0]) && AllSucceed(versions, cs) && InOrder(cs) && n <= |cs|
    ensures MissesUnused(versions, cs, n)
  {
    if n > 0 {
      var p := n - 1;
      InOrderUnused(versions, cs, p);
      if UsesMissed(versions, cs, p) {
        var r := cs[p].id;
        var k: nat :| k < p && PassedOver(versions, cs, r, k);
        PassedOverStatus(versions, cs, r, k, p);
        TraceEvolves(versions, cs, k, p);
        assert StepAt(versions, cs, p);
        assert LaterReservation(versions[k].reservations[r], versions[p].reservations[r]);
        assert !OutcomeAt(versions, cs, p).Failed?;
        MissedFails(versions[p], cs[p]);
      }
    }
  }

  /** So with commits in the order of the clocks, and whatever the sweeps passed over, there is a serial run with
      complete sweeps that gives every answer, and a sweep after the last command makes the tables the same. */
  lemma InOrderInterleavingsConverge(db: Db, clock: int, actions: seq<Action>, s: State) returns (dbs: seq<Db>)
    requires Consistent(db) && Performed(Start(db, clock), actions, s) && InOrder(s.log)
    ensures Trace(dbs, PlainLog(s.log)) && dbs[0] == db && |s.versions| == |s.outcomes| + 1 == |s.log| + 1
    ensures forall k: nat | k < |s.log| && !s.log[k].Sweep? ::
              s.outcomes[k] == OutcomeAt(dbs, PlainLog(s.log), k)
    ensures forall now: int | (forall c <- s.log :: c.now <= now) ::
              LazyExpiry.Swept(dbs[|s.log|], now) == LazyExpiry.Swept(s.Db(), now)
  {
    InterleavingsAreSerial(db, clock, actions, s);
    InOrderLeavesMissesUnused(db, clock, actions, s);
    AnswersOfCompleteSweepsIff(db, clock, actions, s);
    dbs :| SameAnswers(dbs, s.versions, s.log);
    forall now: int | forall c <- s.log :: c.now <= now
      ensures LazyExpiry.Swept(dbs[|s.log|], now) == LazyExpiry.Swept(s.Db(), now)
    {
      NextSweepRepairs(db, clock, actions, s, dbs, |s.log|, now);
    }
  }
}
