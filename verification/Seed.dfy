/** The initial ticket table: one available ticket for every game and seat. */
module Seed {
  import opened Tables

  function GameSet(games: seq<GameId>): set<GameId> {
    set g | g in games
  }

  ghost predicate HasTicket(tickets: map<TicketId, Ticket>, game: GameId, seat: Seat) {
    exists t <- tickets :: tickets[t].game == game && tickets[t].seat == seat
  }

  /** Every pair of a game and a seat has a ticket ... */
  ghost predicate TicketForEach(tickets: map<TicketId, Ticket>, games: set<GameId>, seats: map<SeatId, Seat>) {
    forall g, s | g in games && s in seats :: HasTicket(tickets, g, seats[s])
  }

  /** ... and only one: the unique constraint of the table. */
  ghost predicate UniqueSeatAndGame(tickets: map<TicketId, Ticket>) {
    forall t, u | t in tickets && u in tickets && t != u ::
      tickets[t].game != tickets[u].game || tickets[t].seat.id != tickets[u].seat.id
  }

  ghost predicate AllFresh(tickets: map<TicketId, Ticket>, games: set<GameId>, seats: map<SeatId, Seat>) {
    forall t <- tickets :: FreshTicket(tickets[t], games, seats)
  }

  predicate FreshTicket(ticket: Ticket, games: set<GameId>, seats: map<SeatId, Seat>) {
    && ticket.status == Available && ticket.reservation.None?
    && ticket.game in games
    && ticket.seat.id in seats && ticket.seat == seats[ticket.seat.id]
    && ticket.price == ticket.seat.price
  }

  /** The table after the outer loop has dealt with `games`. */
  ghost predicate Seeded(tickets: map<TicketId, Ticket>, next: TicketId, games: set<GameId>, seats: map<SeatId, Seat>) {
    && (forall t <- tickets :: t < next)
    && AllFresh(tickets, games, seats) && UniqueSeatAndGame(tickets) && TicketForEach(tickets, games, seats)
  }

  /** The table after some of the inner loop's steps: the seats `left` still lack a ticket for `game`. */
  ghost predicate Seeding(tickets: map<TicketId, Ticket>, next: TicketId, left: set<SeatId>,
                          games: set<GameId>, game: GameId, seats: map<SeatId, Seat>)
  {
    && (forall t <- tickets :: t < next)
    && AllFresh(tickets, games + {game}, seats) && UniqueSeatAndGame(tickets)
    && (forall t <- tickets :: tickets[t].game == game ==> tickets[t].seat.id !in left)
    && TicketForEach(tickets, games, seats)
    && (forall s <- seats :: s in left || HasTicket(tickets, game, seats[s]))
  }

  /** The inner loop: one ticket for every seat of one game.  The map of seats is visited in any order, and
      `next` stands for the generator of fresh ticket ids. */
  method SeedGame(before: map<TicketId, Ticket>, from: TicketId, games: set<GameId>, game: GameId,
                  seats: map<SeatId, Seat>)
    returns (tickets: map<TicketId, Ticket>, next: TicketId)
    requires game !in games && (forall s <- seats :: seats[s].id == s)
    requires Seeded(before, from, games, seats)
    ensures Seeded(tickets, next, games + {game}, seats)
    ensures |tickets| == |before| + |seats|
  {
    tickets, next := before, from;
    var left := seats.Keys;
    SeedingStarts(before, from, games, game, seats);
    while left != {}
      invariant left <= seats.Keys && |tickets| == |before| + |seats| - |left|
      invariant Seeding(tickets, next, left, games, game, seats)
    {
      var s :| s in left;
      SeedOne(tickets, next, left, s, games, game, seats);
      tickets := tickets[next := Ticket(seats[s], game, seats[s].price, Available, None)];
      next := next + 1;
      left := left - {s};
    }
    SeedingEnds(tickets, next, games, game, seats);
  }

  lemma SeedingStarts(tickets: map<TicketId, Ticket>, next: TicketId, games: set<GameId>, game: GameId,
                      seats: map<SeatId, Seat>)
    requires game !in games && Seeded(tickets, next, games, seats)
    ensures Seeding(tickets, next, seats.Keys, games, game, seats)
  {
    forall t | t in tickets ensures FreshTicket(tickets[t], games + {game}, seats) && tickets[t].game != game {
      assert FreshTicket(tickets[t], games, seats);
    }
  }

  lemma SeedingEnds(tickets: map<TicketId, Ticket>, next: TicketId, games: set<GameId>, game: GameId,
                    seats: map<SeatId, Seat>)
    requires Seeding(tickets, next, {}, games, game, seats)
    ensures Seeded(tickets, next, games + {game}, seats)
  {
    forall g, s | g in games + {game} && s in seats ensures HasTicket(tickets, g, seats[s]) {
      if g in games {
        assert HasTicket(tickets, g, seats[s]);
      }
    }
  }

  lemma SeedOne(tickets: map<TicketId, Ticket>, next: TicketId, left: set<SeatId>, s: SeatId,
                games: set<GameId>, game: GameId, seats: map<SeatId, Seat>)
    requires Seeding(tickets, next, left, games, game, seats) && s in left && s in seats && seats[s].id == s
    ensures var tickets' := tickets[next := Ticket(seats[s], game, seats[s].price, Available, None)];
            Seeding(tickets', next + 1, left - {s}, games, game, seats) && |tickets'| == |tickets| + 1
  {
    var tickets' := tickets[next := Ticket(seats[s], game, seats[s].price, Available, None)];
    SeedOneRow(tickets, next, left, s, games, game, seats);
    SeedOnePair(tickets, tickets', next, left, s, games, game, seats);
    FreshId(tickets, tickets', next);
  }

  lemma SeedOnePair(tickets: map<TicketId, Ticket>, tickets': map<TicketId, Ticket>, next: TicketId,
                    left: set<SeatId>, s: SeatId, games: set<GameId>, game: GameId, seats: map<SeatId, Seat>)
    requires next !in tickets && s in seats && TicketForEach(tickets, games, seats)
    requires tickets' == tickets[next := Ticket(seats[s], game, seats[s].price, Available, None)]
    requires forall u <- seats :: u in left || HasTicket(tickets, game, seats[u])
    ensures TicketForEach(tickets', games, seats)
    ensures forall u <- seats :: u in left - {s} || HasTicket(tickets', game, seats[u])
  {
    EveryPairKept(tickets, tickets', games, seats);
    MoreTickets(tickets, tickets', game, seats);
    assert HasTicket(tickets', game, seats[s]) by { assert next in tickets'; }
  }

  lemma SeedOneRow(tickets: map<TicketId, Ticket>, next: TicketId, left: set<SeatId>, s: SeatId,
                   games: set<GameId>, game: GameId, seats: map<SeatId, Seat>)
    requires Seeding(tickets, next, left, games, game, seats) && s in left && s in seats && seats[s].id == s
    ensures var tickets' := tickets[next := Ticket(seats[s], game, seats[s].price, Available, None)];
            && next !in tickets
            && AllFresh(tickets', games + {game}, seats) && UniqueSeatAndGame(tickets')
            && (forall t <- tickets' :: tickets'[t].game == game ==> tickets'[t].seat.id !in left - {s})
  {
  }

  lemma EveryPairKept(some: map<TicketId, Ticket>, more: map<TicketId, Ticket>, games: set<GameId>,
                      seats: map<SeatId, Seat>)
    requires forall t <- some :: t in more && more[t] == some[t]
    requires TicketForEach(some, games, seats)
    ensures TicketForEach(more, games, seats)
  {
    forall g, u | g in games && u in seats ensures HasTicket(more, g, seats[u]) {
      assert HasTicket(some, g, seats[u]);
      MoreTickets(some, more, g, seats);
    }
  }

  lemma FreshId(tickets: map<TicketId, Ticket>, tickets': map<TicketId, Ticket>, next: TicketId)
    requires next !in tickets && next in tickets' && tickets' == tickets[next := tickets'[next]]
    ensures |tickets'| == |tickets| + 1
  {
    assert tickets'.Keys == tickets.Keys + {next};
  }

  lemma MoreTickets(some: map<TicketId, Ticket>, more: map<TicketId, Ticket>, game: GameId, seats: map<SeatId, Seat>)
    requires forall t <- some :: t in more && more[t] == some[t]
    ensures forall s <- seats :: HasTicket(some, game, seats[s]) ==> HasTicket(more, game, seats[s])
  {
    forall s | s in seats && HasTicket(some, game, seats[s]) ensures HasTicket(more, game, seats[s]) {
      var t :| t in some && some[t].game == game && some[t].seat == seats[s];
      assert t in more;
    }
  }

  /** Tables as the seeding program leaves them. */
  ghost predicate JustSeeded(db: Db, seats: map<SeatId, Seat>) {
    && Consistent(db) && db.reservations == map[]
    && AllFresh(db.tickets, db.games, seats)
    && UniqueSeatAndGame(db.tickets) && TicketForEach(db.tickets, db.games, seats)
    && forall s <- seats :: seats[s].id == s
  }

  /** The seeding program, for any games and seats.  Games come from a primary-key column, so they are distinct. */
  method SeedTickets(users: set<UserId>, games: seq<GameId>, seats: map<SeatId, Seat>) returns (db: Db)
    requires forall i, j | 0 <= i < j < |games| :: games[i] != games[j]
    requires forall s <- seats :: seats[s].id == s
    ensures JustSeeded(db, seats) && db.users == users && db.games == GameSet(games)
    ensures forall t <- db.tickets :: var ticket := db.tickets[t];
              && ticket.seat in seats.Values && ticket.price == ticket.seat.price
              && ticket.status == Available && ticket.reservation == None
    ensures |db.tickets| == |games| * |seats|
  {
    var tickets: map<TicketId, Ticket> := map[];
    var next: TicketId := 0;
    ghost var count := 0;
    for i := 0 to |games|
      invariant Seeded(tickets, next, GameSet(games[..i]), seats)
      invariant count == i * |seats| && |tickets| == count
    {
      assert GameSet(games[..i + 1]) == GameSet(games[..i]) + {games[i]};
      tickets, next := SeedGame(tickets, next, GameSet(games[..i]), games[i], seats);
      count := count + |seats|;
    }
    assert games[..|games|] == games;
    forall t | t in tickets ensures FreshTicket(tickets[t], GameSet(games), seats) {
    }
    db := Db(users, GameSet(games), tickets, map[]);
  }
}
