/** The two tables the reservation engine updates, and the small vocabulary of rows and row sets
    that every other module speaks in.

    The join of `tickets` with `seats` is folded into the ticket row: `tickets.seat_id` is a foreign key
    and nothing ever updates `seats`.  Times are integers; only their order matters. */
module Tables {

  datatype Option<+T> = None | Some(value: T)

  type UserId = nat
  type GameId = nat
  type SeatId = nat
  type TicketId = nat
  type ReservationId = nat

  datatype TicketStatus = Available | Reserved | Sold

  datatype ReservationStatus = Pending | Confirmed | Cancelled | Expired

  datatype Seat = Seat(id: SeatId, grade: string, price: int)

  datatype Ticket = Ticket(seat: Seat, game: GameId, price: int,
                           status: TicketStatus, reservation: Option<ReservationId>)

  datatype Reservation = Reservation(user: UserId, game: GameId, status: ReservationStatus, expiresAt: int)

  datatype Db = Db(users: set<UserId>, games: set<GameId>,
                   tickets: map<TicketId, Ticket>, reservations: map<ReservationId, Reservation>)

  /** `status = 'pending' AND expires_at < NOW()` */
  predicate Lapsed(r: Reservation, now: int) {
    r.status == Pending && r.expiresAt < now
  }

  /** `status = 'pending' AND expires_at > NOW()` */
  predicate Live(r: Reservation, now: int) {
    r.status == Pending && r.expiresAt > now
  }

  /** The tickets whose `reservation_id` is one of `rs`. */
  function OwnedBy(tickets: map<TicketId, Ticket>, rs: set<ReservationId>): set<TicketId> {
    set t | t in tickets && tickets[t].reservation.Some? && tickets[t].reservation.value in rs
  }

  /** The row predicate of the ticket selection, for a ticket whose game and grade already match. */
  predicate EligibleRow(ticket: Ticket, reservations: map<ReservationId, Reservation>, now: int) {
    || ticket.status == Available
    || (&& ticket.status == Reserved
        && ticket.reservation.Some?
        && ticket.reservation.value in reservations
        && Lapsed(reservations[ticket.reservation.value], now))
  }

  predicate Wanted(ticket: Ticket, game: GameId, grade: string) {
    ticket.game == game && ticket.seat.grade == grade
  }

  /** All rows the ticket selection may return, before `LIMIT`. */
  function Eligible(db: Db, game: GameId, grade: string, now: int): set<TicketId> {
    set t | t in db.tickets && Wanted(db.tickets[t], game, grade)
            && EligibleRow(db.tickets[t], db.reservations, now)
  }

  function SetTickets(tickets: map<TicketId, Ticket>, ts: set<TicketId>, status: TicketStatus,
                      owner: Option<ReservationId>): map<TicketId, Ticket>
  {
    map t | t in tickets ::
      if t in ts then tickets[t].(status := status, reservation := owner) else tickets[t]
  }

  function SetReservations(reservations: map<ReservationId, Reservation>, rs: set<ReservationId>,
                           status: ReservationStatus): map<ReservationId, Reservation>
  {
    map r | r in reservations ::
      if r in rs then reservations[r].(status := status) else reservations[r]
  }

  /** One statement that moves the reservations `rs` to `rstatus` and the tickets `ts` to `tstatus`. */
  function Rewrite(db: Db, rs: set<ReservationId>, rstatus: ReservationStatus,
                   ts: set<TicketId>, tstatus: TicketStatus, owner: Option<ReservationId>): Db
  {
    db.(tickets := SetTickets(db.tickets, ts, tstatus, owner),
        reservations := SetReservations(db.reservations, rs, rstatus))
  }

  /** How ticket and reservation rows must agree.  Every transaction keeps this, whatever its clock says. */
  ghost predicate Consistent(db: Db) {
    && (forall t <- db.tickets :: TicketConsistent(db, db.tickets[t]))
    && (forall r <- db.reservations ::
          db.reservations[r].status == Confirmed ==>
            exists t <- db.tickets :: db.tickets[t].reservation == Some(r))
  }

  ghost predicate TicketConsistent(db: Db, ticket: Ticket) {
    && ticket.game in db.games
    && (ticket.status == Available <==> ticket.reservation.None?)
    && (ticket.reservation.Some? ==>
          && ticket.reservation.value in db.reservations
          && var owner := db.reservations[ticket.reservation.value];
          && owner.game == ticket.game
          && (ticket.status == Reserved <==> owner.status == Pending)
          && (ticket.status == Sold <==> owner.status == Confirmed))
  }
}
