/** What users meet right after seeding, in terms of the seats that were seeded. */
module Opening {
  import opened Tables
  import opened Transactions
  import opened Seed
  import opened SeatCounts
  import opened Allocation

  function SeatsOf(seats: map<SeatId, Seat>, grade: string): set<SeatId> {
    set s | s in seats && seats[s].grade == grade
  }

  function SeatsAt(seats: map<SeatId, Seat>, grade: string, price: int): set<SeatId> {
    set s | s in seats && seats[s].grade == grade && seats[s].price == price
  }

  lemma {:induction false} SameSize(a: set<nat>, b: set<nat>, f: map<nat, nat>)
    requires forall t <- a :: t in f && f[t] in b
    requires forall t, u | t in a && u in a && f[t] == f[u] :: t == u
    requires forall s <- b :: exists t :: t in a && t in f && f[t] == s
    ensures |a| == |b|
  {
    if t :| t in a {
      forall s | s in b - {f[t]} ensures exists u :: u in a - {t} && u in f && f[u] == s {
        var u :| u in a && u in f && f[u] == s;
      }
      SameSize(a - {t}, b - {f[t]}, f);
    } else {
      assert b == {};
    }
  }

  /** Any kind of seat has as many tickets in a game as there are seats of that kind. */
  lemma OneTicketPerSeat(db: Db, seats: map<SeatId, Seat>, game: GameId, g: set<TicketId>, some: set<SeatId>)
    requires JustSeeded(db, seats) && game in db.games && some <= seats.Keys
    requires forall t :: t in g <==> t in db.tickets && db.tickets[t].game == game && db.tickets[t].seat.id in some
    ensures |g| == |some|
  {
    var f: map<nat, nat> := map t | t in db.tickets :: db.tickets[t].seat.id;
    forall s | s in some ensures exists t :: t in g && t in f && f[t] == s {
      assert HasTicket(db.tickets, game, seats[s]);
      var t :| t in db.tickets && db.tickets[t].game == game && db.tickets[t].seat == seats[s];
      assert t in g && f[t] == s;
    }
    SameSize(g, some, f);
  }

  lemma FirstOffer(db: Db, seats: map<SeatId, Seat>, game: GameId, grade: string, now: int)
    requires JustSeeded(db, seats) && game in db.games
    ensures Offer(db, game, grade, now) == |SeatsOf(seats, grade)|
  {
    var g := OfGrade(db, OfGame(db, game), grade);
    forall t | t in db.tickets ensures FreshTicket(db.tickets[t], db.games, seats) {
    }
    OneTicketPerSeat(db, seats, game, g, SeatsOf(seats, grade));
    assert With(db, g, Available) == g;
    assert Reclaimable(db, g, now) == {};
  }

  lemma OffersDecide(db: Db, seats: map<SeatId, Seat>, c: Command)
    requires Consistent(db) && c.Create? && Legal(db, c)
    requires forall k | 0 <= k < |c.entries| ::
               Offer(db, c.game, c.entries[k].grade, c.now) == |SeatsOf(seats, c.entries[k].grade)|
    ensures Exec(db, c).outcome.Created? <==>
              && c.user in db.users
              && (forall k | 0 <= k < |c.entries| :: 0 <= c.entries[k].quantity <= |SeatsOf(seats, c.entries[k].grade)|)
              && (exists k | 0 <= k < |c.entries| :: c.entries[k].quantity > 0)
  {
    CreateSucceedsIff(db, c);
  }

  /** The first create succeeds exactly for a known user and game, with no negative quantity, with some positive
      one, and with no entry that asks for more than the number of seats of its grade. */
  lemma FirstCreateSucceedsIff(db: Db, seats: map<SeatId, Seat>, c: Command)
    requires JustSeeded(db, seats) && c.Create? && Legal(db, c) && c.game in db.games
    ensures Exec(db, c).outcome.Created? <==>
              && c.user in db.users
              && (forall k | 0 <= k < |c.entries| :: 0 <= c.entries[k].quantity <= |SeatsOf(seats, c.entries[k].grade)|)
              && (exists k | 0 <= k < |c.entries| :: c.entries[k].quantity > 0)
  {
    forall k | 0 <= k < |c.entries|
      ensures Offer(db, c.game, c.entries[k].grade, c.now) == |SeatsOf(seats, c.entries[k].grade)|
    {
      FirstOffer(db, seats, c.game, c.entries[k].grade, c.now);
    }
    OffersDecide(db, seats, c);
  }

  /** The first answer of the seat query: in every row all seats of that grade and price are available. */
  lemma FirstAnswer(db: Db, seats: map<SeatId, Seat>, game: GameId, rows: seq<SeatRow>, i: nat)
    requires JustSeeded(db, seats) && game in db.games
    requires SeatCounts.Describes(db, OfGame(db, game), game, rows) && i < |rows|
    ensures var n := |SeatsAt(seats, rows[i].grade, rows[i].price)|;
            rows[i] == SeatRow(rows[i].grade, rows[i].price, n, n, 0, 0)
  {
    var g := Group(db, OfGame(db, game), game, rows[i].grade, rows[i].price);
    forall t | t in db.tickets ensures FreshTicket(db.tickets[t], db.games, seats) {
    }
    OneTicketPerSeat(db, seats, game, g, SeatsAt(seats, rows[i].grade, rows[i].price));
    assert With(db, g, Available) == g && With(db, g, Reserved) == {} && With(db, g, Sold) == {};
  }

  /** ... and every seat is in one of them. */
  lemma FirstAnswerIsComplete(db: Db, seats: map<SeatId, Seat>, game: GameId, rows: seq<SeatRow>, s: SeatId)
    requires JustSeeded(db, seats) && game in db.games && s in seats
    requires SeatCounts.Describes(db, OfGame(db, game), game, rows)
    ensures exists i | 0 <= i < |rows| :: rows[i].grade == seats[s].grade && rows[i].price == seats[s].price
  {
    assert HasTicket(db.tickets, game, seats[s]);
    var t :| t in db.tickets && db.tickets[t].game == game && db.tickets[t].seat == seats[s];
    assert InSomeRow(db, t, game, rows);
  }
}
