/** The repository as an object: the two tables are fields, and every method follows its transaction's Go
    code.  A transaction works on a private copy of the tables; a commit assigns it to the fields, and a
    rollback drops it. */
module Store {
  import opened Tables
  import opened Transactions
  import opened Placeholders

  class ReservationRepository {
    const users: set<UserId>
    const games: set<GameId>
    var tickets: map<TicketId, Ticket>
    var reservations: map<ReservationId, Reservation>

    function Db(): Db
      reads this
    {
      Tables.Db.Db(users, games, tickets, reservations)
    }

    constructor (db: Tables.Db)
      ensures Db() == db
    {
      users, games, tickets, reservations := db.users, db.games, db.tickets, db.reservations;
    }

    /** Reads the rows of a result one by one; the database returns them in any order. */
    method ScanRows(rows: set<TicketId>, limit: nat) returns (ids: seq<TicketId>)
      ensures Distinct(ids) && Elements(ids) <= rows
      ensures |ids| == Min(limit, |rows|)
    {
      ids := [];
      var left := rows;
      while left != {} && |ids| < limit
        invariant Distinct(ids) && Elements(ids) <= rows && left == rows - Elements(ids)
        invariant |ids| <= limit && |left| + |ids| == |rows|
        decreases left
      {
        var t :| t in left;
        assert Elements(ids + [t]) == Elements(ids) + {t};
        ids := ids + [t];
        left := left - {t};
      }
    }

    method SelectAvailableTickets(game: GameId, grade: string, quantity: int, now: int)
      returns (ids: seq<TicketId>, err: Option<Error>, ghost pick: seq<TicketId>)
      ensures ValidPick(Eligible(Db(), game, grade, now), quantity, pick)
      ensures err == if quantity < 0 then Some(NegativeLimit)
                     else if |pick| < quantity then Some(InsufficientTickets) else None
      ensures ids == if err.None? then pick else []
    {
      if quantity < 0 {
        return [], Some(NegativeLimit), [];
      }
      ids := ScanRows(Eligible(Db(), game, grade, now), quantity);
      pick := ids;
      if |ids| < quantity {
        return [], Some(InsufficientTickets), pick;
      }
      err := None;
    }

    /** The entries are served one after the other; all chosen tickets are then put under the new reservation. */
    method CreateReservation(id: ReservationId, user: UserId, game: GameId, entries: seq<Entry>,
                             now: int, expiresAt: int)
      returns (outcome: Outcome, ghost picks: seq<seq<TicketId>>)
      requires id !in reservations
      modifies this
      ensures var c := Create(id, user, game, entries, picks, now, expiresAt);
              Legal(old(Db()), c) && Step(Db(), outcome) == Exec(old(Db()), c)
    {
      picks := [];
      var chosen: seq<TicketId> := [];
      for i := 0 to |entries|
        invariant Db() == old(Db()) && |picks| == i
        invariant forall k | 0 <= k < i ::
          ValidPick(Eligible(Db(), game, entries[k].grade, now), entries[k].quantity, picks[k])
          && |picks[k]| == entries[k].quantity
        invariant Elements(chosen) == Picked(picks)
      {
        var ids, err, pick := SelectAvailableTickets(game, entries[i].grade, entries[i].quantity, now);
        ghost var before := picks;
        picks := picks + [pick];
        if err.Some? {
          picks := CompletePicks(Db(), game, entries, now, picks);
          FirstErrorAt(entries, picks, i);
          return Failed(err.value), picks;
        }
        PickedSnoc(before, pick);
        chosen := chosen + ids;
      }
      NoErrorIff(entries, picks);
      NoneReturned(chosen);
      if user !in users || game !in games {
        return Failed(ForeignKey), picks;
      }
      var working := reservations[id := Reservation(user, game, Pending, expiresAt)];
      var args, text := BuildInList(id, chosen);
      InListRoundTrip(id, chosen);
      var named := ReadInList(text, args[..]);
      if named.None? {
        return Failed(EmptyInList), picks;
      }
      var updated := SetTickets(tickets, Elements(named.value), Reserved, Some(id));
      tickets, reservations := updated, working;
      outcome := Created(Elements(named.value));
    }

    /** UPDATE reservations SET status WHERE ... RETURNING id: goes through the rows in any order, on a copy of
        the table. */
    method UpdateReservations(where: (ReservationId, Reservation) -> bool, status: ReservationStatus)
      returns (working: map<ReservationId, Reservation>, returned: seq<ReservationId>)
      ensures var rs := set r | r in reservations && where(r, reservations[r]);
              && Distinct(returned) && Elements(returned) == rs
              && working == SetReservations(reservations, rs, status)
    {
      working, returned := reservations, [];
      var left := reservations.Keys;
      while left != {}
        invariant left <= reservations.Keys && working.Keys == reservations.Keys
        invariant Distinct(returned)
        invariant Elements(returned) == set r | r in reservations.Keys - left && where(r, reservations[r])
        invariant forall r <- reservations ::
                    working[r]
                    == if r in Elements(returned) then reservations[r].(status := status) else reservations[r]
        decreases left
      {
        var r :| r in left;
        left := left - {r};
        if where(r, reservations[r]) {
          working := working[r := working[r].(status := status)];
          assert Elements(returned + [r]) == Elements(returned) + {r};
          returned := returned + [r];
        }
      }
    }

    /** UPDATE tickets SET ... WHERE reservation_id is one of `owners`, counting or returning the ids. */
    method UpdateTickets(owners: seq<ReservationId>, assign: Ticket -> Ticket)
      returns (working: map<TicketId, Ticket>, returned: seq<TicketId>)
      ensures var ts := OwnedBy(tickets, Elements(owners));
              && Distinct(returned) && Elements(returned) == ts
              && working == map t | t in tickets :: if t in ts then assign(tickets[t]) else tickets[t]
    {
      working, returned := tickets, [];
      var left := tickets.Keys;
      while left != {}
        invariant left <= tickets.Keys && working.Keys == tickets.Keys
        invariant Distinct(returned)
        invariant Elements(returned) == OwnedBy(tickets, Elements(owners)) - left
        invariant forall t <- tickets ::
                    working[t] == if t in Elements(returned) then assign(tickets[t]) else tickets[t]
        decreases left
      {
        var t :| t in left;
        left := left - {t};
        var owner := tickets[t].reservation;
        if owner.Some? && owner.value in owners {
          working := working[t := assign(working[t])];
          assert Elements(returned + [t]) == Elements(returned) + {t};
          returned := returned + [t];
        }
      }
    }

    method PurchaseReservation(id: ReservationId, user: UserId, now: int) returns (outcome: Outcome)
      modifies this
      ensures Step(Db(), outcome) == Exec(old(Db()), Purchase(id, user, now))
    {
      ghost var rs := Matched(Db(), Purchase(id, user, now));
      var reserved, confirmed := UpdateReservations(
        (r: ReservationId, row: Reservation) =>
          row.status == Pending && row.expiresAt > now && r == id && row.user == user,
        Confirmed);
      assert Elements(confirmed) == rs;
      var sold, returned := UpdateTickets(confirmed, (ticket: Ticket) => ticket.(status := Sold));
      assert sold == SetTickets(tickets, OwnedBy(tickets, rs), Sold, Some(id));
      NoneReturned(returned);
      if |returned| == 0 {
        return Failed(NotFound);
      }
      tickets, reservations := sold, reserved;
      outcome := Purchased(Elements(returned));
    }

    method CancelReservation(id: ReservationId, user: UserId, now: int) returns (outcome: Outcome)
      modifies this
      ensures Step(Db(), outcome) == Exec(old(Db()), Cancel(id, user, now))
    {
      ghost var rs := Matched(Db(), Cancel(id, user, now));
      var remaining, cancelled := UpdateReservations(
        (r: ReservationId, row: Reservation) =>
          r == id && row.user == user
          && ((row.status == Pending && row.expiresAt > now) || row.status == Confirmed),
        Cancelled);
      assert Elements(cancelled) == rs;
      var freed, affected := UpdateTickets(cancelled,
        (ticket: Ticket) => ticket.(status := Available, reservation := None));
      assert freed == SetTickets(tickets, OwnedBy(tickets, rs), Available, None);
      NoneReturned(affected);
      if |affected| == 0 {
        return Failed(NotFound);
      }
      tickets, reservations := freed, remaining;
      outcome := Released(Elements(affected));
    }

    /** Sweeps commit whatever the number of rows. */
    method ExpiredReservations(now: int) returns (outcome: Outcome)
      modifies this
      ensures Step(Db(), outcome) == Exec(old(Db()), FullSweep(now))
    {
      ghost var rs := Matched(Db(), FullSweep(now));
      var remaining, expired := UpdateReservations(
        (r: ReservationId, row: Reservation) => row.status == Pending && row.expiresAt < now, Expired);
      assert Elements(expired) == rs;
      var freed, _ := UpdateTickets(expired,
        (ticket: Ticket) => ticket.(status := Available, reservation := None));
      assert freed == SetTickets(tickets, OwnedBy(tickets, rs), Available, None);
      tickets, reservations := freed, remaining;
      outcome := Swept(Elements(expired));
    }
  }

  lemma NoneReturned(ids: seq<TicketId>)
    ensures |ids| == 0 <==> Elements(ids) == {}
  {
    assert ids != [] ==> ids[0] in Elements(ids);
  }

  lemma PickedSnoc(picks: seq<seq<TicketId>>, pick: seq<TicketId>)
    ensures Picked(picks + [pick]) == Picked(picks) + Elements(pick)
  {
    var all := picks + [pick];
    forall t | t in Elements(pick) ensures t in Picked(all) {
      assert t in all[|picks|];
    }
    forall t | t in Picked(picks) ensures t in Picked(all) {
      var i :| 0 <= i < |picks| && t in picks[i];
      assert t in all[i];
    }
  }

  /** The database always has a choice to make, whatever is asked for. */
  lemma {:induction false} SomePick(eligible: set<TicketId>, quantity: int) returns (pick: seq<TicketId>)
    ensures ValidPick(eligible, quantity, pick)
  {
    if quantity <= 0 || eligible == {} {
      pick := [];
    } else {
      var t :| t in eligible;
      pick := SomePick(eligible - {t}, quantity - 1);
      assert t !in Elements(pick);
      assert Elements(pick + [t]) == Elements(pick) + {t};
      pick := pick + [t];
    }
  }

  /** Any choices for the first entries extend to choices for all of them. */
  lemma CompletePicks(db: Db, game: GameId, entries: seq<Entry>, now: int, picks: seq<seq<TicketId>>)
    returns (all: seq<seq<TicketId>>)
    requires |picks| <= |entries|
    requires forall k | 0 <= k < |picks| ::
               ValidPick(Eligible(db, game, entries[k].grade, now), entries[k].quantity, picks[k])
    ensures |all| == |entries| && picks <= all
    ensures forall k | 0 <= k < |all| ::
              ValidPick(Eligible(db, game, entries[k].grade, now), entries[k].quantity, all[k])
    decreases |entries| - |picks|
  {
    if |picks| == |entries| {
      all := picks;
    } else {
      var e := entries[|picks|];
      var pick := SomePick(Eligible(db, game, e.grade, now), e.quantity);
      all := CompletePicks(db, game, entries, now, picks + [pick]);
    }
  }

  lemma {:induction false} FirstErrorAt(entries: seq<Entry>, picks: seq<seq<TicketId>>, i: nat)
    requires |picks| == |entries| && i < |entries|
    requires forall k | 0 <= k < i :: |picks[k]| == entries[k].quantity
    requires |picks[i]| < entries[i].quantity || entries[i].quantity < 0
    ensures SelectError(entries, picks) == Some(if entries[i].quantity < 0 then NegativeLimit else InsufficientTickets)
  {
    if i > 0 {
      FirstErrorAt(entries[1..], picks[1..], i - 1);
    }
  }
}
