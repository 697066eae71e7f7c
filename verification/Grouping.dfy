/** The list of a user's reservations: joined rows are grouped with a map and a first-seen order, and a second
    pass rewrites the statuses. */
module Grouping {
  import opened Tables
  import opened Transactions
  import LazyExpiry

  /** One row of the join of a user's reservations with their tickets. */
  datatype Row = Row(reservation: ReservationId, game: GameId, status: ReservationStatus, expiresAt: int,
                     ticket: TicketId)

  datatype View = View(id: ReservationId, game: GameId, status: ReservationStatus, expiresAt: int,
                       tickets: seq<TicketId>)

  /** A pending reservation whose time is over is shown as expired. */
  function EffectiveStatus(status: ReservationStatus, expiresAt: int, now: int): ReservationStatus {
    if status == Pending && now > expiresAt then Expired else status
  }

  /* ----- What the grouping should give ----- */

  function FirstSeen(rows: seq<Row>): seq<ReservationId> {
    if rows == [] then []
    else
      var order, id := FirstSeen(rows[..|rows| - 1]), rows[|rows| - 1].reservation;
      if id in order then order else order + [id]
  }

  function TicketsOf(rows: seq<Row>, id: ReservationId): seq<TicketId> {
    if rows == [] then []
    else TicketsOf(rows[..|rows| - 1], id)
         + (if rows[|rows| - 1].reservation == id then [rows[|rows| - 1].ticket] else [])
  }

  function FirstIndex(rows: seq<Row>, id: ReservationId): (i: nat)
    requires id in FirstSeen(rows)
    ensures i < |rows| && rows[i].reservation == id
  {
    if id in FirstSeen(rows[..|rows| - 1]) then FirstIndex(rows[..|rows| - 1], id) else |rows| - 1
  }

  /** The group of `id`: the columns of its first row, the status as of the clock reading at that row, and its
      tickets in row order. */
  function Grouped(rows: seq<Row>, readings: seq<int>, id: ReservationId): View
    requires |readings| == |rows| && id in FirstSeen(rows)
  {
    var i := FirstIndex(rows, id);
    View(id, rows[i].game, EffectiveStatus(rows[i].status, rows[i].expiresAt, readings[i]), rows[i].expiresAt,
         TicketsOf(rows, id))
  }

  /* ----- The loops ----- */

  class ReservationRecord {
    const id: ReservationId
    const game: GameId
    var status: ReservationStatus
    const expiresAt: int
    var tickets: seq<TicketId>

    function Shown(): View
      reads this
    {
      View(id, game, status, expiresAt, tickets)
    }

    constructor (row: Row, reading: int)
      ensures Shown() == FirstRow(row, reading)
    {
      id, game, expiresAt, tickets := row.reservation, row.game, row.expiresAt, [];
      status := EffectiveStatus(row.status, row.expiresAt, reading);
    }
  }

  ghost predicate Injective(records: map<ReservationId, ReservationRecord>) {
    forall a, b | a in records && b in records && a != b :: records[a] != records[b]
  }

  function FirstRow(row: Row, reading: int): View {
    View(row.reservation, row.game, EffectiveStatus(row.status, row.expiresAt, reading), row.expiresAt, [])
  }

  lemma GroupedMore(rows: seq<Row>, readings: seq<int>, i: nat, id: ReservationId)
    requires |readings| == |rows| && i < |rows|
    requires id in FirstSeen(rows[..i]) || id == rows[i].reservation
    ensures rows[..i + 1][..i] == rows[..i] && readings[..i + 1][..i] == readings[..i]
    ensures id in FirstSeen(rows[..i + 1])
    ensures Grouped(rows[..i + 1], readings[..i + 1], id)
         == if id !in FirstSeen(rows[..i]) then FirstRow(rows[i], readings[i]).(tickets := [rows[i].ticket])
            else if rows[i].reservation == id then
              Grouped(rows[..i], readings[..i], id).(tickets := TicketsOf(rows[..i], id) + [rows[i].ticket])
            else Grouped(rows[..i], readings[..i], id)
  {
    assert rows[..i + 1][..i] == rows[..i] && readings[..i + 1][..i] == readings[..i];
    if id !in FirstSeen(rows[..i]) {
      NeverSeen(rows[..i], id);
    }
  }

  lemma {:induction false} NeverSeen(rows: seq<Row>, id: ReservationId)
    requires id !in FirstSeen(rows)
    ensures TicketsOf(rows, id) == []
  {
    if rows != [] {
      NeverSeen(rows[..|rows| - 1], id);
    }
  }

  function Objects(records: map<ReservationId, ReservationRecord>): set<ReservationRecord> {
    set id | id in records :: records[id]
  }

  /** The map and the order describe the groups of the rows scanned so far. */
  ghost predicate Describes(records: map<ReservationId, ReservationRecord>, order: seq<ReservationId>,
                            rows: seq<Row>, readings: seq<int>)
    requires |readings| == |rows|
    reads Objects(records)
  {
    && order == FirstSeen(rows) && (forall id :: id in records <==> id in order)
    && Injective(records)
    && forall id <- records :: records[id].Shown() == Grouped(rows, readings, id)
  }

  /** One turn of the scanning loop. */
  method ScanRow(records: map<ReservationId, ReservationRecord>, order: seq<ReservationId>,
                 rows: seq<Row>, readings: seq<int>, i: nat)
    returns (records': map<ReservationId, ReservationRecord>, order': seq<ReservationId>)
    requires |readings| == |rows| && i < |rows| && Describes(records, order, rows[..i], readings[..i])
    modifies Objects(records)
    ensures Describes(records', order', rows[..i + 1], readings[..i + 1])
    ensures forall id <- records' :: fresh(records'[id]) || (id in records && records'[id] == records[id])
  {
    var row := rows[i];
    records', order' := records, order;
    forall id | id in FirstSeen(rows[..i]) || id == rows[i].reservation { GroupedMore(rows, readings, i, id); }
    if row.reservation !in records {
      var record := new ReservationRecord(row, readings[i]);
      records' := records[row.reservation := record];
      order' := order + [row.reservation];
    }
    var found := records'[row.reservation];
    label added:
    found.tickets := found.tickets + [row.ticket];
    forall id | id in records' && id != row.reservation ensures records'[id].Shown() == old(records[id].Shown()) {
      assert records'[id] == records[id] && records[id] != found;
    }
  }

  /** `readings[i]` is what the clock shows when row `i` is scanned. */
  method GroupRows(rows: seq<Row>, readings: seq<int>) returns (list: seq<ReservationRecord>)
    requires |readings| == |rows|
    ensures |list| == |FirstSeen(rows)|
    ensures forall k | 0 <= k < |list| ::
              fresh(list[k]) && list[k].Shown() == Grouped(rows, readings, FirstSeen(rows)[k])
    ensures forall k, m | 0 <= k < m < |list| :: list[k] != list[m]
  {
    var records: map<ReservationId, ReservationRecord> := map[];
    var order: seq<ReservationId> := [];
    for i := 0 to |rows|
      invariant Describes(records, order, rows[..i], readings[..i])
      invariant forall id <- records :: fresh(records[id])
    {
      records, order := ScanRow(records, order, rows, readings, i);
    }
    assert rows[..|rows|] == rows && readings[..|readings|] == readings;
    FirstSeenDistinct(rows);
    list := [];
    for k := 0 to |order|
      invariant |list| == k && forall m | 0 <= m < k :: list[m] == records[order[m]]
    {
      list := list + [records[order[k]]];
    }
  }

  /** The service's pass over the answer. */
  method ApplyEffectiveStatus(list: seq<ReservationRecord>, now: int)
    requires forall k, m | 0 <= k < m < |list| :: list[k] != list[m]
    modifies list
    ensures forall k | 0 <= k < |list| ::
              var before := old(list[k].Shown());
              list[k].Shown() == before.(status := EffectiveStatus(before.status, before.expiresAt, now))
  {
    for i := 0 to |list|
      invariant forall k | 0 <= k < i ::
        var before := old(list[k].Shown());
        list[k].Shown() == before.(status := EffectiveStatus(before.status, before.expiresAt, now))
      invariant forall k | i <= k < |list| :: list[k].Shown() == old(list[k].Shown())
    {
      list[i].status := EffectiveStatus(list[i].status, list[i].expiresAt, now);
    }
  }

  /** Repository and service together: the repository reports an empty result as not found. */
  method GetUserReservations(rows: seq<Row>, readings: seq<int>, now: int)
    returns (found: bool, list: seq<ReservationRecord>)
    requires |readings| == |rows|
    ensures found <==> rows != []
    ensures |list| == |FirstSeen(rows)|
    ensures forall k | 0 <= k < |list| ::
              var v := Grouped(rows, readings, FirstSeen(rows)[k]);
              fresh(list[k]) && list[k].Shown() == v.(status := EffectiveStatus(v.status, v.expiresAt, now))
  {
    list := GroupRows(rows, readings);
    FirstSeenDistinct(rows);
    assert rows != [] ==> Occurs(rows, rows[0].reservation);
    if |list| == 0 {
      return false, [];
    }
    ApplyEffectiveStatus(list, now);
    found := true;
  }

  /* ----- What the grouping means ----- */

  ghost predicate Occurs(rows: seq<Row>, id: ReservationId) {
    exists i | 0 <= i < |rows| :: rows[i].reservation == id
  }

  lemma {:induction false} FirstSeenDistinct(rows: seq<Row>)
    ensures forall i, j | 0 <= i < j < |FirstSeen(rows)| :: FirstSeen(rows)[i] != FirstSeen(rows)[j]
    ensures forall id :: id in FirstSeen(rows) <==> Occurs(rows, id)
  {
    if rows != [] {
      var n := |rows| - 1;
      FirstSeenDistinct(rows[..n]);
      forall id ensures Occurs(rows, id) <==> id == rows[n].reservation || Occurs(rows[..n], id) {
        assert forall i | 0 <= i < n :: rows[..n][i] == rows[i];
      }
    }
  }

  function AllTickets(rows: seq<Row>): seq<TicketId> {
    seq(|rows|, i requires 0 <= i < |rows| => rows[i].ticket)
  }

  function Concatenated(rows: seq<Row>, order: seq<ReservationId>): seq<TicketId> {
    if order == [] then [] else Concatenated(rows, order[..|order| - 1]) + TicketsOf(rows, order[|order| - 1])
  }

  ghost predicate SortedById(rows: seq<Row>) {
    forall i, j | 0 <= i <= j < |rows| :: rows[i].reservation <= rows[j].reservation
  }

  /** A group other than the last one does not grow when the rows are sorted. */
  lemma {:induction false} ConcatenatedUnchanged(rows: seq<Row>, order: seq<ReservationId>)
    requires rows != [] && rows[|rows| - 1].reservation !in order
    ensures Concatenated(rows, order) == Concatenated(rows[..|rows| - 1], order)
  {
    if order != [] {
      ConcatenatedUnchanged(rows, order[..|order| - 1]);
    }
  }

  lemma {:induction false} LastSeenIsLast(rows: seq<Row>)
    requires SortedById(rows) && rows != []
    ensures var order := FirstSeen(rows); order != [] && order[|order| - 1] == rows[|rows| - 1].reservation
  {
    var n := |rows| - 1;
    if n > 0 {
      LastSeenIsLast(rows[..n]);
      FirstSeenDistinct(rows[..n]);
      var id := rows[n].reservation;
      if id in FirstSeen(rows[..n]) {
        var i :| 0 <= i < n && rows[..n][i].reservation == id;
        assert rows[i].reservation <= rows[n - 1].reservation <= id;
      }
    }
  }

  lemma ConcatenatedSnoc(rows: seq<Row>, front: seq<ReservationId>, id: ReservationId)
    ensures Concatenated(rows, front + [id]) == Concatenated(rows, front) + TicketsOf(rows, id)
  {
    assert (front + [id])[..|front|] == front;
  }

  /** When the last row's group is the last one, one more row adds its ticket at the end. */
  lemma LastGroup(rows: seq<Row>, init: seq<Row>, last: Row, front: seq<ReservationId>)
    requires rows == init + [last] && last.reservation !in front
    ensures Concatenated(rows, front + [last.reservation])
         == Concatenated(init, front) + TicketsOf(init, last.reservation) + [last.ticket]
  {
    assert rows[..|rows| - 1] == init;
    ConcatenatedUnchanged(rows, front);
    ConcatenatedSnoc(rows, front, last.reservation);
  }

  /** In sorted rows the last row extends the last group, or starts one. */
  lemma LastGroupGrows(rows: seq<Row>, init: seq<Row>, last: Row)
    requires SortedById(rows) && rows == init + [last]
    ensures Concatenated(rows, FirstSeen(rows)) == Concatenated(init, FirstSeen(init)) + [last.ticket]
  {
    var id, order, initOrder := last.reservation, FirstSeen(rows), FirstSeen(init);
    assert rows[..|rows| - 1] == init && rows[|rows| - 1] == last;
    assert order == if id in initOrder then initOrder else initOrder + [id];
    LastSeenIsLast(rows);
    FirstSeenDistinct(rows);
    var front := order[..|order| - 1];
    assert order == front + [id] && id !in front;
    LastGroup(rows, init, last, front);
    if id in initOrder {
      ConcatenatedSnoc(init, front, id);
    } else {
      assert front == initOrder;
      NeverSeen(init, id);
      assert Concatenated(init, front) + [] == Concatenated(init, front);
    }
  }

  /** For rows sorted by reservation, putting the groups one after the other gives back the rows' tickets. */
  lemma {:induction false} GroupsConcatenateToRows(rows: seq<Row>)
    requires SortedById(rows)
    ensures Concatenated(rows, FirstSeen(rows)) == AllTickets(rows)
  {
    if rows != [] {
      var init, last := rows[..|rows| - 1], rows[|rows| - 1];
      var all := Concatenated(rows, FirstSeen(rows));
      assert all == Concatenated(init, FirstSeen(init)) + [last.ticket] by {
        LastGroupGrows(rows, init, last);
      }
      GroupsConcatenateToRows(init);
      assert AllTickets(rows) == AllTickets(init) + [last.ticket];
    }
  }

  /** After both passes the status is the one in force at the service's clock reading, unless the repository
      had already seen the reservation lapse and the service's clock says it has not. */
  lemma TwoPassStatusIff(status: ReservationStatus, expiresAt: int, reading: int, now: int)
    ensures EffectiveStatus(EffectiveStatus(status, expiresAt, reading), expiresAt, now)
            == EffectiveStatus(status, expiresAt, now)
            <==> !(status == Pending && reading > expiresAt >= now)
  {
  }

  /* ----- The list against the tables ----- */

  /** `rows` is the join for `user`: one row for every ticket of the user's reservations. */
  ghost predicate IsJoin(db: Db, user: UserId, rows: seq<Row>) {
    && Distinct(AllTickets(rows))
    && (forall i | 0 <= i < |rows| :: JoinRow(db, user, rows[i]))
    && forall t <- db.tickets ::
         (&& db.tickets[t].reservation.Some? && db.tickets[t].reservation.value in db.reservations
          && db.reservations[db.tickets[t].reservation.value].user == user)
         ==> t in AllTickets(rows)
  }

  ghost predicate JoinRow(db: Db, user: UserId, row: Row) {
    && row.ticket in db.tickets && db.tickets[row.ticket].reservation == Some(row.reservation)
    && row.reservation in db.reservations
    && db.reservations[row.reservation] == Reservation(user, row.game, row.status, row.expiresAt)
  }

  lemma {:induction false} TicketsOfMembers(rows: seq<Row>, id: ReservationId, t: TicketId)
    ensures t in TicketsOf(rows, id) <==> exists i | 0 <= i < |rows| :: rows[i].reservation == id && rows[i].ticket == t
  {
    if rows != [] {
      var n := |rows| - 1;
      TicketsOfMembers(rows[..n], id, t);
      assert forall i | 0 <= i < n :: rows[..n][i] == rows[i];
    }
  }

  /** The rows of one reservation in the join are its tickets, if it is the user's. */
  lemma TicketsOfAreOwned(db: Db, user: UserId, rows: seq<Row>, id: ReservationId, t: TicketId)
    requires IsJoin(db, user, rows)
    ensures t in TicketsOf(rows, id) <==>
              t in OwnedBy(db.tickets, {id}) && id in db.reservations && db.reservations[id].user == user
  {
    TicketsOfMembers(rows, id, t);
    if t in OwnedBy(db.tickets, {id}) && id in db.reservations && db.reservations[id].user == user {
      assert t in AllTickets(rows);
      var i :| 0 <= i < |rows| && AllTickets(rows)[i] == t;
      assert JoinRow(db, user, rows[i]);
    }
    if i :| 0 <= i < |rows| && rows[i].reservation == id && rows[i].ticket == t {
      assert JoinRow(db, user, rows[i]);
    }
  }

  lemma {:induction false} TicketsOfDistinct(rows: seq<Row>, id: ReservationId)
    requires Distinct(AllTickets(rows))
    ensures Distinct(TicketsOf(rows, id))
  {
    if rows != [] {
      var n := |rows| - 1;
      assert forall i | 0 <= i < n :: AllTickets(rows[..n])[i] == AllTickets(rows)[i];
      TicketsOfDistinct(rows[..n], id);
      TicketsOfMembers(rows[..n], id, rows[n].ticket);
      assert AllTickets(rows)[n] == rows[n].ticket;
      assert forall i | 0 <= i < n :: AllTickets(rows)[i] == rows[..n][i].ticket;
    }
  }

  lemma {:induction false} FirstIndexIsFirst(rows: seq<Row>, id: ReservationId, k: nat)
    requires id in FirstSeen(rows) && k < FirstIndex(rows, id)
    ensures rows[k].reservation != id
  {
    var n := |rows| - 1;
    if id in FirstSeen(rows[..n]) {
      FirstIndexIsFirst(rows[..n], id, k);
    } else {
      FirstSeenDistinct(rows[..n]);
      assert rows[..n][k] == rows[k];
    }
  }

  /** The list is in the order in which the rows first mention its reservations. */
  lemma {:induction false} ListInRowOrder(rows: seq<Row>, i: nat, j: nat)
    requires i < j < |FirstSeen(rows)|
    ensures FirstIndex(rows, FirstSeen(rows)[i]) < FirstIndex(rows, FirstSeen(rows)[j])
    ensures forall k | 0 <= k < FirstIndex(rows, FirstSeen(rows)[i]) :: rows[k].reservation != FirstSeen(rows)[i]
  {
    forall k: nat | k < FirstIndex(rows, FirstSeen(rows)[i]) ensures rows[k].reservation != FirstSeen(rows)[i] {
      FirstIndexIsFirst(rows, FirstSeen(rows)[i], k);
    }
    var n := |rows| - 1;
    var init := FirstSeen(rows[..n]);
    FirstSeenDistinct(rows);
    if j < |init| {
      ListInRowOrder(rows[..n], i, j);
    } else {
      assert FirstSeen(rows)[i] in init && FirstSeen(rows)[j] == rows[n].reservation;
      assert FirstSeen(rows)[j] !in init;
    }
  }

  lemma {:induction false} SeenIffHasTickets(rows: seq<Row>, id: ReservationId)
    ensures id in FirstSeen(rows) <==> TicketsOf(rows, id) != []
  {
    if rows != [] {
      SeenIffHasTickets(rows[..|rows| - 1], id);
    }
  }

  /** The list shows what a sweep at the service's clock reading would store: pending reservations past their
      expiry as expired, and every other status as it is. */
  lemma ShownIsSwept(db: Db, id: ReservationId, now: int)
    requires id in db.reservations
    ensures EffectiveStatus(db.reservations[id].status, db.reservations[id].expiresAt, now)
         == Exec(db, FullSweep(now)).db.reservations[id].status
  {
    LazyExpiry.SweptIsCompleteSweep(db, now);
  }

  /** A reservation is listed exactly when it is the user's and owns a ticket; it is listed once, with its own
      columns, with exactly its tickets, and with the status that a sweep would give it: in the repository's answer
      a sweep at the reading of its first row, and after the service's pass a sweep at the service's reading, when
      the clocks do not run backwards. */
  lemma ListAgreesWithTables(db: Db, user: UserId, rows: seq<Row>, readings: seq<int>, now: int, id: ReservationId)
    requires IsJoin(db, user, rows) && |readings| == |rows|
    requires forall i | 0 <= i < |rows| :: readings[i] <= now
    ensures id in FirstSeen(rows) <==>
              id in db.reservations && db.reservations[id].user == user && OwnedBy(db.tickets, {id}) != {}
    ensures id in FirstSeen(rows) ==>
              var v := Grouped(rows, readings, id);
              && v.id == id
              && Elements(v.tickets) == OwnedBy(db.tickets, {id}) && Distinct(v.tickets)
              && v.game == db.reservations[id].game
              && v.expiresAt == db.reservations[id].expiresAt
              && v.status == Exec(db, FullSweep(readings[FirstIndex(rows, id)])).db.reservations[id].status
              && EffectiveStatus(v.status, v.expiresAt, now)
                 == Exec(db, FullSweep(now)).db.reservations[id].status
  {
    SeenIffHasTickets(rows, id);
    forall t { TicketsOfAreOwned(db, user, rows, id, t); }
    if id in FirstSeen(rows) {
      assert TicketsOf(rows, id)[0] in TicketsOf(rows, id);
      assert JoinRow(db, user, rows[FirstIndex(rows, id)]);
      ShownIsSwept(db, id, now);
      ShownIsSwept(db, id, readings[FirstIndex(rows, id)]);
      TicketsOfDistinct(rows, id);
    } else if OwnedBy(db.tickets, {id}) != {} {
      var t :| t in OwnedBy(db.tickets, {id});
      assert t !in TicketsOf(rows, id);
    }
  }
}
