/** Seat counts per grade and price, and how every transaction moves them. */
module SeatCounts {
  import opened Tables
  import opened Transactions
  import opened Invariant

  datatype SeatRow = SeatRow(grade: string, price: int, total: nat, available: nat, reserved: nat, sold: nat)

  /** The tickets of one group of the query, among `ids`. */
  function Group(db: Db, ids: set<TicketId>, game: GameId, grade: string, price: int): set<TicketId> {
    set t | t in ids && t in db.tickets && db.tickets[t].game == game
            && db.tickets[t].seat.grade == grade && db.tickets[t].seat.price == price
  }

  function With(db: Db, ids: set<TicketId>, status: TicketStatus): set<TicketId> {
    set t | t in ids && t in db.tickets && db.tickets[t].status == status
  }

  /** What a row of the answer should say about its group. */
  function Counted(db: Db, ids: set<TicketId>, game: GameId, grade: string, price: int): SeatRow {
    var g := Group(db, ids, game, grade, price);
    SeatRow(grade, price, |g|, |With(db, g, Available)|, |With(db, g, Reserved)|, |With(db, g, Sold)|)
  }

  function OfGame(db: Db, game: GameId): set<TicketId> {
    set t | t in db.tickets && db.tickets[t].game == game
  }

  ghost predicate OneRowPerGroup(rows: seq<SeatRow>) {
    forall i, j | 0 <= i < j < |rows| :: (rows[i].grade, rows[i].price) != (rows[j].grade, rows[j].price)
  }

  function Bump(row: SeatRow, status: TicketStatus): SeatRow {
    row.(total := row.total + 1,
         available := row.available + (if status == Available then 1 else 0),
         reserved := row.reserved + (if status == Reserved then 1 else 0),
         sold := row.sold + (if status == Sold then 1 else 0))
  }

  lemma CountOneMore(db: Db, done: set<TicketId>, t: TicketId, game: GameId, grade: string, price: int)
    requires t in db.tickets && t !in done
    ensures Counted(db, done + {t}, game, grade, price)
         == if t in Group(db, {t}, game, grade, price) then
              Bump(Counted(db, done, game, grade, price), db.tickets[t].status)
            else Counted(db, done, game, grade, price)
  {
    var g, g' := Group(db, done, game, grade, price), Group(db, done + {t}, game, grade, price);
    if t in Group(db, {t}, game, grade, price) {
      assert g' == g + {t};
      WithOneMore(db, g, t, Available);
      WithOneMore(db, g, t, Reserved);
      WithOneMore(db, g, t, Sold);
    } else {
      assert g' == g;
    }
  }

  lemma WithOneMore(db: Db, g: set<TicketId>, t: TicketId, status: TicketStatus)
    requires t in db.tickets && t !in g
    ensures |With(db, g + {t}, status)| == |With(db, g, status)| + (if db.tickets[t].status == status then 1 else 0)
  {
    assert With(db, g + {t}, status) == With(db, g, status) + (if db.tickets[t].status == status then {t} else {});
  }

  ghost predicate Describes(db: Db, done: set<TicketId>, game: GameId, rows: seq<SeatRow>) {
    && OneRowPerGroup(rows)
    && (forall i | 0 <= i < |rows| ::
          rows[i] == Counted(db, done, game, rows[i].grade, rows[i].price) && rows[i].total > 0)
    && (forall t <- done :: InSomeRow(db, t, game, rows))
  }

  ghost predicate InSomeRow(db: Db, t: TicketId, game: GameId, rows: seq<SeatRow>) {
    exists i | 0 <= i < |rows| :: t in Group(db, {t}, game, rows[i].grade, rows[i].price)
  }

  method CountTicket(db: Db, game: GameId, ghost done: set<TicketId>, before: seq<SeatRow>, t: TicketId)
    returns (rows: seq<SeatRow>)
    requires t in OfGame(db, game) && t !in done && Describes(db, done, game, before)
    ensures Describes(db, done + {t}, game, rows)
  {
    var seat, status := db.tickets[t].seat, db.tickets[t].status;
    var k := 0;
    while k < |before| && (before[k].grade != seat.grade || before[k].price != seat.price)
      invariant 0 <= k <= |before|
      invariant forall i | 0 <= i < k :: (before[i].grade, before[i].price) != (seat.grade, seat.price)
    {
      k := k + 1;
    }
    if k < |before| {
      rows := before[k := Bump(before[k], status)];
    } else {
      NewGroupIsEmpty(db, done, game, before, seat.grade, seat.price);
      rows := before + [Bump(SeatRow(seat.grade, seat.price, 0, 0, 0, 0), status)];
    }
    OneMoreTicket(db, done, game, before, rows, t, k);
  }

  lemma NewGroupIsEmpty(db: Db, done: set<TicketId>, game: GameId, rows: seq<SeatRow>, grade: string, price: int)
    requires Describes(db, done, game, rows)
    requires forall i | 0 <= i < |rows| :: (rows[i].grade, rows[i].price) != (grade, price)
    ensures Counted(db, done, game, grade, price) == SeatRow(grade, price, 0, 0, 0, 0)
  {
    var g := Group(db, done, game, grade, price);
    forall t | t in done ensures t !in g {
      assert InSomeRow(db, t, game, rows);
    }
    assert g == {} && With(db, g, Available) == {} && With(db, g, Reserved) == {} && With(db, g, Sold) == {};
  }

  lemma OneMoreTicket(db: Db, done: set<TicketId>, game: GameId, before: seq<SeatRow>, rows: seq<SeatRow>,
                      t: TicketId, k: nat)
    requires t in OfGame(db, game) && t !in done && Describes(db, done, game, before)
    requires |before| <= |rows| && k < |rows| && OneRowPerGroup(rows)
    requires t in Group(db, {t}, game, rows[k].grade, rows[k].price)
    requires rows[k] == Bump(Counted(db, done, game, rows[k].grade, rows[k].price), db.tickets[t].status)
    requires forall i | 0 <= i < |rows| && i != k :: i < |before| && rows[i] == before[i]
    requires k < |before| ==> (before[k].grade, before[k].price) == (rows[k].grade, rows[k].price)
    ensures Describes(db, done + {t}, game, rows)
  {
    forall i | 0 <= i < |rows|
      ensures rows[i] == Counted(db, done + {t}, game, rows[i].grade, rows[i].price) && rows[i].total > 0
    {
      CountOneMore(db, done, t, game, rows[i].grade, rows[i].price);
    }
    forall u | u in done ensures InSomeRow(db, u, game, rows) {
      assert InSomeRow(db, u, game, before);
      var i :| 0 <= i < |before| && u in Group(db, {u}, game, before[i].grade, before[i].price);
      assert u in Group(db, {u}, game, rows[i].grade, rows[i].price);
    }
    assert InSomeRow(db, t, game, rows);
  }

  /** The grouped count, one ticket at a time, in any order: one row for every group that occurs in the game,
      each with its group's counts. */
  method GetSeatsByGameID(db: Db, game: GameId) returns (rows: seq<SeatRow>)
    ensures Describes(db, OfGame(db, game), game, rows)
  {
    rows := [];
    var left := OfGame(db, game);
    ghost var done: set<TicketId> := {};
    while left != {}
      invariant left + done == OfGame(db, game) && left !! done
      invariant Describes(db, done, game, rows)
    {
      var t :| t in left;
      rows := CountTicket(db, game, done, rows, t);
      left, done := left - {t}, done + {t};
    }
  }

  /* ----- Totals ----- */

  /** In every group the three statuses add up to the total. */
  lemma StatusesAddUp(db: Db, ids: set<TicketId>, game: GameId, grade: string, price: int)
    ensures var r := Counted(db, ids, game, grade, price); r.available + r.reserved + r.sold == r.total
  {
    ThreeStatuses(db, Group(db, ids, game, grade, price));
  }

  lemma ThreeStatuses(db: Db, g: set<TicketId>)
    requires g <= db.tickets.Keys
    ensures |With(db, g, Available)| + |With(db, g, Reserved)| + |With(db, g, Sold)| == |g|
  {
    var a, r, s := With(db, g, Available), With(db, g, Reserved), With(db, g, Sold);
    assert a !! r && (a + r) !! s && g == a + r + s;
  }

  function SumTotals(rows: seq<SeatRow>): nat {
    if rows == [] then 0 else SumTotals(rows[..|rows| - 1]) + rows[|rows| - 1].total
  }

  function Covered(db: Db, ids: set<TicketId>, game: GameId, rows: seq<SeatRow>): set<TicketId> {
    if rows == [] then {}
    else
      Covered(db, ids, game, rows[..|rows| - 1])
      + Group(db, ids, game, rows[|rows| - 1].grade, rows[|rows| - 1].price)
  }

  lemma {:induction false} InCovered(db: Db, ids: set<TicketId>, game: GameId, rows: seq<SeatRow>, t: TicketId)
    ensures t in Covered(db, ids, game, rows) <==>
              exists i | 0 <= i < |rows| :: t in Group(db, ids, game, rows[i].grade, rows[i].price)
  {
    if rows != [] {
      var n := |rows| - 1;
      InCovered(db, ids, game, rows[..n], t);
      assert forall i | 0 <= i < n :: rows[..n][i] == rows[i];
    }
  }

  lemma {:induction false} TotalsAddUpTo(db: Db, ids: set<TicketId>, game: GameId, rows: seq<SeatRow>)
    requires OneRowPerGroup(rows)
    requires forall i | 0 <= i < |rows| :: rows[i].total == |Group(db, ids, game, rows[i].grade, rows[i].price)|
    ensures SumTotals(rows) == |Covered(db, ids, game, rows)|
  {
    if rows != [] {
      var n := |rows| - 1;
      TotalsAddUpTo(db, ids, game, rows[..n]);
      var last := Group(db, ids, game, rows[n].grade, rows[n].price);
      forall t | t in last ensures t !in Covered(db, ids, game, rows[..n]) {
        InCovered(db, ids, game, rows[..n], t);
      }
    }
  }

  /** The totals of an answer add up to the tickets of the game. */
  lemma TotalsAddUp(db: Db, game: GameId, rows: seq<SeatRow>)
    requires Describes(db, OfGame(db, game), game, rows)
    ensures SumTotals(rows) == |OfGame(db, game)|
  {
    var ids := OfGame(db, game);
    TotalsAddUpTo(db, ids, game, rows);
    forall t ensures t in Covered(db, ids, game, rows) <==> t in ids {
      InCovered(db, ids, game, rows, t);
      if t in ids {
        assert InSomeRow(db, t, game, rows);
        var i :| 0 <= i < |rows| && t in Group(db, {t}, game, rows[i].grade, rows[i].price);
        assert t in Group(db, ids, game, rows[i].grade, rows[i].price);
      }
    }
    assert Covered(db, ids, game, rows) == ids;
  }

  /** No run ever changes which tickets form a group. */
  lemma GroupsNeverChange(dbs: seq<Db>, cs: seq<Command>, i: nat, j: nat, game: GameId, grade: string, price: int)
    requires Trace(dbs, cs) && Consistent(dbs[0]) && i <= j <= |cs|
    ensures Group(dbs[j], OfGame(dbs[j], game), game, grade, price)
         == Group(dbs[i], OfGame(dbs[i], game), game, grade, price)
    ensures Counted(dbs[j], OfGame(dbs[j], game), game, grade, price).total
         == Counted(dbs[i], OfGame(dbs[i], game), game, grade, price).total
  {
    TraceEvolves(dbs, cs, i, j);
    forall t | t in dbs[i].tickets ensures SameTicket(dbs[i].tickets[t], dbs[j].tickets[t]) {
    }
  }

  /* ----- How each transaction moves the counts of a group `g` ----- */

  function Count(db: Db, g: set<TicketId>, status: TicketStatus): nat {
    |With(db, g, status)|
  }

  /** The reserved tickets that a sweep at `now` would free. */
  function Reclaimable(db: Db, ids: set<TicketId>, now: int): set<TicketId> {
    set t | t in ids && t in OwnedBy(db.tickets, Matched(db, FullSweep(now)))
  }

  /** Exactly the tickets `s` of `g` change, from one status to another. */
  ghost predicate Moved(db: Db, db': Db, g: set<TicketId>, s: set<TicketId>, from: TicketStatus, to: TicketStatus) {
    && from != to && db'.tickets.Keys == db.tickets.Keys && s <= g * db.tickets.Keys
    && (forall t <- s :: db.tickets[t].status == from && db'.tickets[t].status == to)
    && (forall t <- db.tickets :: t in g && t !in s ==> db'.tickets[t].status == db.tickets[t].status)
  }

  lemma MovedCount(db: Db, db': Db, g: set<TicketId>, s: set<TicketId>, from: TicketStatus, to: TicketStatus,
                   status: TicketStatus)
    requires Moved(db, db', g, s, from, to)
    ensures Count(db', g, status)
         == Count(db, g, status) + (if status == to then |s| else if status == from then -|s| else 0)
  {
    var w, w' := With(db, g, status), With(db', g, status);
    if status == to {
      assert w' == w + s && w !! s;
    } else if status == from {
      assert w' == w - s && s <= w;
    } else {
      assert w' == w;
    }
  }

  lemma MovedCounts(db: Db, db': Db, g: set<TicketId>, s: set<TicketId>, from: TicketStatus, to: TicketStatus)
    requires Moved(db, db', g, s, from, to)
    ensures forall status: TicketStatus ::
              Count(db', g, status)
              == Count(db, g, status) + (if status == to then |s| else if status == from then -|s| else 0)
  {
    forall status: TicketStatus { MovedCount(db, db', g, s, from, to, status); }
  }

  /** A create moves those of its tickets that it did not reclaim from available to reserved, and no others. */
  lemma CreateMovesCounts(db: Db, c: Command, g: set<TicketId>)
    requires Consistent(db) && Legal(db, c) && c.Create? && Exec(db, c).outcome.Created?
    ensures var k := |g * Exec(db, c).outcome.tickets|;
            var s := |Reclaimable(db, g * Exec(db, c).outcome.tickets, c.now)|;
            var db' := Exec(db, c).db;
            && Count(db', g, Available) == Count(db, g, Available) - (k - s)
            && Count(db', g, Reserved) == Count(db, g, Reserved) + (k - s)
            && Count(db', g, Sold) == Count(db, g, Sold)
  {
    var p := g * Exec(db, c).outcome.tickets;
    var s := Reclaimable(db, p, c.now);
    CreateMoves(db, c, g);
    assert |p - s| == |p| - |s|;
    var db' := Exec(db, c).db;
    MovedCount(db, db', g, p - s, Available, Reserved, Available);
    MovedCount(db, db', g, p - s, Available, Reserved, Reserved);
    MovedCount(db, db', g, p - s, Available, Reserved, Sold);
  }

  lemma CreateMoves(db: Db, c: Command, g: set<TicketId>)
    requires Consistent(db) && Legal(db, c) && c.Create? && Exec(db, c).outcome.Created?
    ensures var p := g * Exec(db, c).outcome.tickets;
            var s := Reclaimable(db, p, c.now);
            s <= p && Moved(db, Exec(db, c).db, g, p - s, Available, Reserved)
  {
    CreatePicksEligible(db, c);
    var p := g * Picked(c.picks);
    forall t | t in p ensures db.tickets[t].status == (if t in Reclaimable(db, p, c.now) then Reserved else Available) {
      assert TicketConsistent(db, db.tickets[t]);
    }
  }

  /** A sweep adds exactly the reclaimable tickets to the available ones. */
  lemma SweepMovesCounts(db: Db, now: int, g: set<TicketId>)
    requires Consistent(db)
    ensures var k := |Reclaimable(db, g, now)|;
            var db' := Exec(db, FullSweep(now)).db;
            && Count(db', g, Available) == Count(db, g, Available) + k
            && Count(db', g, Reserved) == Count(db, g, Reserved) - k
            && Count(db', g, Sold) == Count(db, g, Sold)
  {
    forall t | t in Reclaimable(db, g, now) ensures db.tickets[t].status == Reserved {
      assert TicketConsistent(db, db.tickets[t]);
    }
    MovedCounts(db, Exec(db, FullSweep(now)).db, g, Reclaimable(db, g, now), Reserved, Available);
  }

  /** A purchase moves its tickets from reserved to sold. */
  lemma PurchaseMovesCounts(db: Db, c: Command, g: set<TicketId>)
    requires Consistent(db) && c.Purchase? && Exec(db, c).outcome.Purchased?
    ensures var k := |g * Exec(db, c).outcome.tickets|;
            var db' := Exec(db, c).db;
            && Count(db', g, Available) == Count(db, g, Available)
            && Count(db', g, Reserved) == Count(db, g, Reserved) - k
            && Count(db', g, Sold) == Count(db, g, Sold) + k
  {
    var s := g * Exec(db, c).outcome.tickets;
    forall t | t in s ensures db.tickets[t].status == Reserved {
      assert TicketConsistent(db, db.tickets[t]);
    }
    MovedCounts(db, Exec(db, c).db, g, s, Reserved, Sold);
  }

  /** A cancel makes its tickets available, out of the reserved ones if it was pending and the sold ones if not. */
  lemma CancelMovesCounts(db: Db, c: Command, g: set<TicketId>)
    requires Consistent(db) && c.Cancel? && Exec(db, c).outcome.Released?
    ensures c.id in db.reservations
    ensures var k := |g * Exec(db, c).outcome.tickets|;
            var db' := Exec(db, c).db;
            var held := db.reservations[c.id].status == Pending;
            && Count(db', g, Available) == Count(db, g, Available) + k
            && Count(db', g, Reserved) == Count(db, g, Reserved) - (if held then k else 0)
            && Count(db', g, Sold) == Count(db, g, Sold) - (if held then 0 else k)
  {
    var s := g * Exec(db, c).outcome.tickets;
    var t0 :| t0 in Exec(db, c).outcome.tickets;
    var from := if db.reservations[c.id].status == Pending then Reserved else Sold;
    forall t | t in s ensures db.tickets[t].status == from {
      assert TicketConsistent(db, db.tickets[t]);
    }
    MovedCounts(db, Exec(db, c).db, g, s, from, Available);
  }

  /** A sweep, complete or not, frees exactly the tickets of the reservations it expired. */
  lemma AnySweepMovesCounts(db: Db, c: Command, g: set<TicketId>)
    requires Consistent(db) && c.Sweep?
    ensures var k := |g * OwnedBy(db.tickets, Exec(db, c).outcome.reservations)|;
            var db' := Exec(db, c).db;
            && Count(db', g, Available) == Count(db, g, Available) + k
            && Count(db', g, Reserved) == Count(db, g, Reserved) - k
            && Count(db', g, Sold) == Count(db, g, Sold)
  {
    var s := g * OwnedBy(db.tickets, Matched(db, c));
    forall t | t in s ensures db.tickets[t].status == Reserved {
      assert TicketConsistent(db, db.tickets[t]);
    }
    MovedCounts(db, Exec(db, c).db, g, s, Reserved, Available);
  }

  /* ----- What a user sees: the answer before a command and the answer after it ----- */

  function KeyOf(row: SeatRow): (string, int) {
    (row.grade, row.price)
  }

  /** How the row of one group changes from one answer to the next.  `k` of the command's tickets are in the
      group, and `reclaimed` of them were taken from lapsed holds. */
  predicate RowMoves(before: SeatRow, after: SeatRow, outcome: Outcome, k: nat, reclaimed: nat, wasHeld: bool) {
    && after.grade == before.grade && after.price == before.price && after.total == before.total
    && match outcome
       case Created(_) =>
         && after.available == before.available - (k - reclaimed)
         && after.reserved == before.reserved + (k - reclaimed)
         && after.sold == before.sold
       case Purchased(_) =>
         && after.available == before.available
         && after.reserved == before.reserved - k
         && after.sold == before.sold + k
       case Released(_) =>
         && after.available == before.available + k
         && after.reserved == before.reserved - (if wasHeld then k else 0)
         && after.sold == before.sold - (if wasHeld then 0 else k)
       case Swept(_) =>
         && after.available == before.available + k
         && after.reserved == before.reserved - k
         && after.sold == before.sold
       case Failed(_) => after == before
  }

  /** The tickets an outcome is about. */
  function TicketsOfOutcome(db: Db, outcome: Outcome): set<TicketId> {
    match outcome
    case Created(ts) => ts
    case Purchased(ts) => ts
    case Released(ts) => ts
    case Swept(rs) => OwnedBy(db.tickets, rs)
    case Failed(_) => {}
  }

  function CountsOf(db: Db, g: set<TicketId>, grade: string, price: int): SeatRow {
    SeatRow(grade, price, |g|, Count(db, g, Available), Count(db, g, Reserved), Count(db, g, Sold))
  }

  /** The tickets of one grade and price that a command's outcome is about. */
  function Affected(db: Db, outcome: Outcome, game: GameId, grade: string, price: int): set<TicketId> {
    set t | t in TicketsOfOutcome(db, outcome) && t in db.tickets && db.tickets[t].game == game
            && db.tickets[t].seat.grade == grade && db.tickets[t].seat.price == price
  }

  predicate WasHeld(db: Db, c: Command) {
    c.Cancel? && c.id in db.reservations && db.reservations[c.id].status == Pending
  }

  lemma GroupMoves(db: Db, c: Command, g: set<TicketId>, grade: string, price: int)
    requires Consistent(db) && Legal(db, c)
    ensures var ts := g * TicketsOfOutcome(db, Exec(db, c).outcome);
            RowMoves(CountsOf(db, g, grade, price), CountsOf(Exec(db, c).db, g, grade, price),
                     Exec(db, c).outcome, |ts|, |With(db, ts, Reserved)|, WasHeld(db, c))
  {
    match Exec(db, c).outcome
    case Created(_) =>
      CreateMovesCounts(db, c, g);
      ReclaimedWereReserved(db, c, g);
    case Purchased(_) => PurchaseMovesCounts(db, c, g);
    case Released(_) => CancelMovesCounts(db, c, g);
    case Swept(_) => AnySweepMovesCounts(db, c, g);
    case Failed(_) =>
  }

  lemma RowOfAnswer(db: Db, game: GameId, rows: seq<SeatRow>, i: nat)
    requires Describes(db, OfGame(db, game), game, rows) && i < |rows|
    ensures var g := Group(db, OfGame(db, game), game, rows[i].grade, rows[i].price);
            rows[i] == CountsOf(db, g, rows[i].grade, rows[i].price)
  {
  }

  /** Every command, seen through the query: in the row of every grade and price exactly the command's tickets
      move between the columns. */
  lemma AnswersMove(db: Db, c: Command, game: GameId, before: seq<SeatRow>, after: seq<SeatRow>, i: nat, j: nat)
    requires Consistent(db) && Legal(db, c)
    requires Describes(db, OfGame(db, game), game, before)
    requires Describes(Exec(db, c).db, OfGame(Exec(db, c).db, game), game, after)
    requires i < |before| && j < |after| && KeyOf(before[i]) == KeyOf(after[j])
    ensures var ts := Affected(db, Exec(db, c).outcome, game, before[i].grade, before[i].price);
            RowMoves(before[i], after[j], Exec(db, c).outcome, |ts|, |With(db, ts, Reserved)|, WasHeld(db, c))
  {
    var grade, price := before[i].grade, before[i].price;
    var g := Group(db, OfGame(db, game), game, grade, price);
    RowOfAnswer(db, game, before, i);
    RowOfAnswer(Exec(db, c).db, game, after, j);
    ExecEvolves(db, c);
    SameGroupAfter(db, Exec(db, c).db, game, grade, price);
    assert Affected(db, Exec(db, c).outcome, game, grade, price) == g * TicketsOfOutcome(db, Exec(db, c).outcome);
    GroupMoves(db, c, g, grade, price);
  }

  lemma SameGroupAfter(db: Db, db': Db, game: GameId, grade: string, price: int)
    requires Evolves(db, db')
    ensures Group(db', OfGame(db', game), game, grade, price) == Group(db, OfGame(db, game), game, grade, price)
  {
    forall t | t in db.tickets ensures SameTicket(db.tickets[t], db'.tickets[t]) {
    }
  }

  lemma ReclaimedWereReserved(db: Db, c: Command, g: set<TicketId>)
    requires Consistent(db) && Legal(db, c) && c.Create? && Exec(db, c).outcome.Created?
    ensures Reclaimable(db, g * Exec(db, c).outcome.tickets, c.now)
         == With(db, g * Exec(db, c).outcome.tickets, Reserved)
  {
    CreatePicksEligible(db, c);
    forall t | t in g * Exec(db, c).outcome.tickets
      ensures t in Reclaimable(db, g * Exec(db, c).outcome.tickets, c.now) <==> db.tickets[t].status == Reserved
    {
      assert TicketConsistent(db, db.tickets[t]);
    }
  }

  /** The two answers have the same groups. */
  lemma AnswersKeepTheGroups(db: Db, c: Command, game: GameId, before: seq<SeatRow>, after: seq<SeatRow>, i: nat)
    requires Consistent(db) && Legal(db, c)
    requires Describes(db, OfGame(db, game), game, before)
    requires Describes(Exec(db, c).db, OfGame(Exec(db, c).db, game), game, after)
    ensures |after| == |before|
    ensures i < |before| ==> exists j | 0 <= j < |after| :: KeyOf(after[j]) == KeyOf(before[i])
  {
    var db' := Exec(db, c).db;
    ExecEvolves(db, c);
    KeysOfAnswer(db, game, before);
    KeysOfAnswer(db', game, after);
    forall t | t in db.tickets ensures SameTicket(db.tickets[t], db'.tickets[t]) {
    }
    assert Keys(db, game) == Keys(db', game);
    if i < |before| {
      assert KeyOf(before[i]) in KeySet(before) && KeyOf(before[i]) in KeySet(after);
    }
  }

  /** The grades and prices that occur among the tickets of a game. */
  function Keys(db: Db, game: GameId): set<(string, int)> {
    set t | t in db.tickets && db.tickets[t].game == game :: (db.tickets[t].seat.grade, db.tickets[t].seat.price)
  }

  function KeySet(rows: seq<SeatRow>): set<(string, int)> {
    set i | 0 <= i < |rows| :: KeyOf(rows[i])
  }

  /** An answer has one row for every grade and price that occurs, and no other row. */
  lemma KeysOfAnswer(db: Db, game: GameId, rows: seq<SeatRow>)
    requires Describes(db, OfGame(db, game), game, rows)
    ensures KeySet(rows) == Keys(db, game) && |rows| == |Keys(db, game)|
  {
    KeySetSize(rows);
    forall i | 0 <= i < |rows| ensures KeyOf(rows[i]) in Keys(db, game) {
      var g := Group(db, OfGame(db, game), game, rows[i].grade, rows[i].price);
      assert rows[i] == Counted(db, OfGame(db, game), game, rows[i].grade, rows[i].price) && |g| > 0;
      var t :| t in g;
      assert (db.tickets[t].seat.grade, db.tickets[t].seat.price) in Keys(db, game);
    }
    forall t | t in OfGame(db, game)
      ensures (db.tickets[t].seat.grade, db.tickets[t].seat.price) in KeySet(rows)
    {
      assert InSomeRow(db, t, game, rows);
      var i :| 0 <= i < |rows| && t in Group(db, {t}, game, rows[i].grade, rows[i].price);
      assert KeyOf(rows[i]) in KeySet(rows);
    }
  }

  lemma {:induction false} KeySetSize(rows: seq<SeatRow>)
    requires OneRowPerGroup(rows)
    ensures |KeySet(rows)| == |rows|
  {
    if rows != [] {
      var n := |rows| - 1;
      KeySetSize(rows[..n]);
      forall key ensures key in KeySet(rows) <==> key in KeySet(rows[..n]) + {KeyOf(rows[n])} {
        if i :| 0 <= i < n && KeyOf(rows[..n][i]) == key {
          assert KeyOf(rows[i]) == key;
        }
        if i :| 0 <= i < |rows| && KeyOf(rows[i]) == key {
          assert i < n ==> KeyOf(rows[..n][i]) == key;
        }
      }
      assert KeySet(rows) == KeySet(rows[..n]) + {KeyOf(rows[n])};
      assert KeyOf(rows[n]) !in KeySet(rows[..n]);
    }
  }
}
