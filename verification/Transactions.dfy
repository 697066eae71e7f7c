/** The four transactions of the reservation engine, run one at a time.

    `LIMIT` without `ORDER BY` leaves the choice of tickets open, so a `Create` command carries the
    tickets its selections returned, and `Legal` says which choices the database may make.
    A `Sweep` carries the reservations that its statement snapshot did not contain; a sweep that runs
    alone has none (`FullSweep`). */
module Transactions {
  import opened Tables

  datatype Entry = Entry(grade: string, quantity: int)

  datatype Command =
    | Create(id: ReservationId, user: UserId, game: GameId, entries: seq<Entry>,
             picks: seq<seq<TicketId>>, now: int, expiresAt: int)
    | Purchase(id: ReservationId, user: UserId, now: int)
    | Cancel(id: ReservationId, user: UserId, now: int)
    | Sweep(now: int, missed: set<ReservationId>)

  datatype Error = NotFound | InsufficientTickets | NegativeLimit | ForeignKey | EmptyInList

  datatype Outcome =
    | Created(tickets: set<TicketId>)
    | Purchased(tickets: set<TicketId>)
    | Released(tickets: set<TicketId>)
    | Swept(reservations: set<ReservationId>)
    | Failed(error: Error)

  datatype Step = Step(db: Db, outcome: Outcome)

  function FullSweep(now: int): Command {
    Sweep(now, {})
  }

  /* ----- Create ----- */

  function Elements(s: seq<TicketId>): set<TicketId> {
    set t | t in s
  }

  ghost predicate Distinct(s: seq<TicketId>) {
    forall i, j | 0 <= i < j < |s| :: s[i] != s[j]
  }

  lemma {:induction false} DistinctSize(s: seq<TicketId>)
    requires Distinct(s)
    ensures |Elements(s)| == |s|
  {
    if s != [] {
      var n := |s| - 1;
      DistinctSize(s[..n]);
      assert Elements(s) == Elements(s[..n]) + {s[n]};
    }
  }

  lemma SubsetSize(a: set<TicketId>, b: set<TicketId>)
    requires a <= b
    ensures |a| <= |b|
  {
    assert b == a + (b - a);
  }

  function Min(a: int, b: int): int {
    if a < b then a else b
  }

  /** What a selection with `LIMIT quantity` may return: distinct eligible rows, as many as the limit allows.
      A negative limit is an error in the database and returns nothing. */
  ghost predicate ValidPick(eligible: set<TicketId>, quantity: int, pick: seq<TicketId>) {
    && Distinct(pick)
    && Elements(pick) <= eligible
    && |pick| == if quantity < 0 then 0 else Min(quantity, |eligible|)
  }

  /** Which choices and identifiers the database may supply: a fresh reservation id and valid picks. */
  ghost predicate Legal(db: Db, c: Command) {
    c.Create? ==>
      && c.id !in db.reservations
      && |c.picks| == |c.entries|
      && forall i | 0 <= i < |c.entries| ::
           ValidPick(Eligible(db, c.game, c.entries[i].grade, c.now), c.entries[i].quantity, c.picks[i])
  }

  /** The error of the first selection that falls short, in request order. */
  function SelectError(entries: seq<Entry>, picks: seq<seq<TicketId>>): Option<Error>
    requires |picks| == |entries|
  {
    if entries == [] then None
    else if entries[0].quantity < 0 then Some(NegativeLimit)
    else if |picks[0]| < entries[0].quantity then Some(InsufficientTickets)
    else SelectError(entries[1..], picks[1..])
  }

  lemma {:induction false} NoErrorIff(entries: seq<Entry>, picks: seq<seq<TicketId>>)
    requires |picks| == |entries|
    ensures SelectError(entries, picks).None?
            <==> forall k | 0 <= k < |entries| :: 0 <= entries[k].quantity <= |picks[k]|
  {
    if entries != [] {
      NoErrorIff(entries[1..], picks[1..]);
      assert forall k | 1 <= k < |entries| :: entries[k] == entries[1..][k - 1] && picks[k] == picks[1..][k - 1];
    }
  }

  /** Every ticket named by the final update. */
  function Picked(picks: seq<seq<TicketId>>): set<TicketId> {
    set i, t | 0 <= i < |picks| && t in picks[i] :: t
  }

  function CreateError(db: Db, c: Command): Option<Error>
    requires c.Create? && |c.picks| == |c.entries|
  {
    var e := SelectError(c.entries, c.picks);
    if e.Some? then e
    else if c.user !in db.users || c.game !in db.games then Some(ForeignKey)
    else if Picked(c.picks) == {} then Some(EmptyInList)
    else None
  }

  function Insert(db: Db, id: ReservationId, row: Reservation, ts: set<TicketId>): Db {
    db.(tickets := SetTickets(db.tickets, ts, Reserved, Some(id)),
        reservations := db.reservations[id := row])
  }

  function ExecCreate(db: Db, c: Command): Step
    requires c.Create? && |c.picks| == |c.entries|
  {
    var e := CreateError(db, c);
    if e.Some? then Step(db, Failed(e.value))
    else
      var ts := Picked(c.picks);
      Step(Insert(db, c.id, Reservation(c.user, c.game, Pending, c.expiresAt), ts), Created(ts))
  }

  /* ----- Purchase, Cancel, Sweep ----- */

  /** The row predicate of the reservation update of each command. */
  predicate Matches(c: Command, r: ReservationId, row: Reservation)
    requires !c.Create?
  {
    match c
    case Purchase(id, user, now) => r == id && row.user == user && Live(row, now)
    case Cancel(id, user, now) => r == id && row.user == user && (Live(row, now) || row.status == Confirmed)
    case Sweep(now, missed) => r !in missed && Lapsed(row, now)
  }

  function Matched(db: Db, c: Command): set<ReservationId>
    requires !c.Create?
  {
    set r | r in db.reservations && Matches(c, r, db.reservations[r])
  }

  /** What a status change of the reservations `rs` and the tickets `ts` leaves behind. */
  function Effect(db: Db, c: Command, rs: set<ReservationId>, ts: set<TicketId>): Db
    requires !c.Create?
  {
    match c
    case Purchase(id, _, _) => Rewrite(db, rs, Confirmed, ts, Sold, Some(id))
    case Cancel(_, _, _) => Rewrite(db, rs, Cancelled, ts, Available, None)
    case Sweep(_, _) => Rewrite(db, rs, Expired, ts, Available, None)
  }

  /** Purchase and Cancel roll the reservation row back when they touched no ticket; a sweep always commits. */
  function ExecRows(db: Db, c: Command): Step
    requires !c.Create?
  {
    var rs := Matched(db, c);
    var ts := OwnedBy(db.tickets, rs);
    if !c.Sweep? && ts == {} then Step(db, Failed(NotFound))
    else
      var out := match c
        case Purchase(_, _, _) => Purchased(ts)
        case Cancel(_, _, _) => Released(ts)
        case Sweep(_, _) => Swept(rs);
      Step(Effect(db, c, rs, ts), out)
  }

  function Exec(db: Db, c: Command): Step
    requires c.Create? ==> |c.picks| == |c.entries|
  {
    if c.Create? then ExecCreate(db, c) else ExecRows(db, c)
  }

  /* ----- Runs ----- */

  ghost predicate StepAt(dbs: seq<Db>, cs: seq<Command>, i: nat)
    requires i < |cs| && |dbs| == |cs| + 1
  {
    Legal(dbs[i], cs[i]) && dbs[i + 1] == Exec(dbs[i], cs[i]).db
  }

  /** `dbs` are the committed tables before, between and after the commands `cs`. */
  ghost predicate Trace(dbs: seq<Db>, cs: seq<Command>) {
    && |dbs| == |cs| + 1
    && forall i: nat | i < |cs| :: StepAt(dbs, cs, i)
  }

  ghost function OutcomeAt(dbs: seq<Db>, cs: seq<Command>, i: nat): Outcome
    requires Trace(dbs, cs) && i < |cs|
  {
    assert StepAt(dbs, cs, i);
    Exec(dbs[i], cs[i]).outcome
  }
}
