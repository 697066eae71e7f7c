/** The generated `IN` list of the final update of a create: `$2, $3, ...`, one number for every ticket, read
    against an argument list whose first slot is the reservation id. */
module Placeholders {
  import opened Tables

  datatype Arg = ReservationArg(reservation: ReservationId) | TicketArg(ticket: TicketId)

  /* ----- Writing ----- */

  function Digit(d: nat): char
    requires d < 10
  {
    "0123456789"[d]
  }

  function Decimal(n: nat): (s: string)
    ensures s != []
  {
    if n < 10 then [Digit(n)] else Decimal(n / 10) + [Digit(n % 10)]
  }

  function Placeholder(n: nat): string {
    "$" + Decimal(n)
  }

  function Join(parts: seq<string>, sep: string): string {
    if parts == [] then "" else if |parts| == 1 then parts[0] else parts[0] + sep + Join(parts[1..], sep)
  }

  function PlaceholdersFor(n: nat): seq<string> {
    seq(n, i requires 0 <= i < n => Placeholder(i + 2))
  }

  function TicketArgs(tickets: seq<TicketId>): seq<Arg> {
    seq(|tickets|, i requires 0 <= i < |tickets| => TicketArg(tickets[i]))
  }

  /** The loops of the create transaction: fill `args` and `placeholders` side by side, then join. */
  method BuildInList(id: ReservationId, tickets: seq<TicketId>) returns (args: array<Arg>, text: string)
    ensures fresh(args) && args[..] == [ReservationArg(id)] + TicketArgs(tickets)
    ensures text == Join(PlaceholdersFor(|tickets|), ", ")
  {
    args := new Arg[|tickets| + 1](_ => ReservationArg(id));
    args[0] := ReservationArg(id);
    var placeholders := new string[|tickets|];
    for i := 0 to |tickets|
      invariant args[0] == ReservationArg(id)
      invariant forall k | 0 <= k < i :: args[k + 1] == TicketArg(tickets[k])
      invariant forall k | 0 <= k < i :: placeholders[k] == Placeholder(k + 2)
    {
      args[i + 1] := TicketArg(tickets[i]);
      placeholders[i] := Placeholder(i + 2);
    }
    assert placeholders[..] == PlaceholdersFor(|tickets|);
    text := Join(placeholders[..], ", ");
  }

  /* ----- Reading, as the database does ----- */

  predicate IsDigit(c: char) {
    '0' <= c <= '9'
  }

  /** Reads digits as far as they go. */
  function ReadDigits(s: string, acc: nat): (r: (nat, string))
    ensures |r.1| <= |s|
  {
    if s != [] && IsDigit(s[0]) then ReadDigits(s[1..], 10 * acc + (s[0] as int - '0' as int)) else (acc, s)
  }

  /** `list := "$" digits | "$" digits ", " list`; anything else, and in particular the empty text, is a syntax
      error. */
  function ReadNumbers(s: string): Option<seq<nat>>
    decreases |s|
  {
    if |s| < 2 || s[0] != '$' || !IsDigit(s[1]) then None
    else
      var (n, rest) := ReadDigits(s[1..], 0);
      if rest == [] then Some([n])
      else if |rest| < 2 || rest[..2] != ", " then None
      else
        var more := ReadNumbers(rest[2..]);
        if more.None? then None else Some([n] + more.value)
  }

  /** The tickets named by 1-based argument numbers; a number outside the list or a slot that is not a ticket is
      an error. */
  function Lookup(args: seq<Arg>, numbers: seq<nat>): Option<seq<TicketId>> {
    if numbers == [] then Some([])
    else if numbers[0] == 0 || numbers[0] > |args| || !args[numbers[0] - 1].TicketArg? then None
    else
      var more := Lookup(args, numbers[1..]);
      if more.None? then None else Some([args[numbers[0] - 1].ticket] + more.value)
  }

  function ReadInList(text: string, args: seq<Arg>): Option<seq<TicketId>> {
    var numbers := ReadNumbers(text);
    if numbers.None? then None else Lookup(args, numbers.value)
  }

  /* ----- Round trip ----- */

  lemma {:induction false} DecimalReadsBack(n: nat, rest: string)
    ensures ReadDigits(Decimal(n) + rest, 0) == ReadDigits(rest, n)
    ensures IsDigit(Decimal(n)[0])
  {
    if n < 10 {
      DigitReadsBack(n, rest, 0);
    } else {
      var last := [Digit(n % 10)];
      DecimalReadsBack(n / 10, last + rest);
      assert Decimal(n) + rest == Decimal(n / 10) + (last + rest);
      DigitReadsBack(n % 10, rest, n / 10);
    }
  }

  lemma DigitReadsBack(d: nat, rest: string, acc: nat)
    requires d < 10
    ensures ReadDigits([Digit(d)] + rest, acc) == ReadDigits(rest, 10 * acc + d)
    ensures IsDigit(Digit(d))
  {
    assert ([Digit(d)] + rest)[1..] == rest;
  }

  function Numbers(from: nat, count: nat): (s: seq<nat>)
    ensures |s| == count && forall i | 0 <= i < count :: s[i] == from + i
  {
    seq(count, i requires 0 <= i < count => from + i)
  }

  /** One placeholder in front of a separator and more text. */
  lemma ConsReadsBack(n: nat, tail: string)
    ensures ReadNumbers(Placeholder(n) + (", " + tail))
         == if ReadNumbers(tail).None? then None else Some([n] + ReadNumbers(tail).value)
  {
    var rest := ", " + tail;
    var s := Placeholder(n) + rest;
    DecimalReadsBack(n, rest);
    assert s[1..] == Decimal(n) + rest;
    assert rest[..2] == ", " && rest[2..] == tail;
    assert ReadDigits(s[1..], 0) == (n, rest);
  }

  lemma LastReadsBack(n: nat)
    ensures ReadNumbers(Placeholder(n)) == Some([n])
  {
    DecimalReadsBack(n, "");
    assert Decimal(n) + "" == Decimal(n) && Placeholder(n)[1..] == Decimal(n);
  }

  lemma {:induction false} ListReadsBack(parts: seq<string>, from: nat)
    requires parts != [] && forall i | 0 <= i < |parts| :: parts[i] == Placeholder(from + i)
    ensures ReadNumbers(Join(parts, ", ")) == Some(Numbers(from, |parts|))
    decreases parts
  {
    if |parts| == 1 {
      LastReadsBack(from);
      assert Numbers(from, 1) == [from];
    } else {
      var tail := Join(parts[1..], ", ");
      ListReadsBack(parts[1..], from + 1);
      ConsReadsBack(from, tail);
      assert Join(parts, ", ") == Placeholder(from) + (", " + tail);
      assert [from] + Numbers(from + 1, |parts| - 1) == Numbers(from, |parts|);
    }
  }

  lemma {:induction false} LookupReadsBack(args: seq<Arg>, from: nat, tickets: seq<TicketId>)
    requires from >= 1 && from - 1 + |tickets| <= |args|
    requires forall i | 0 <= i < |tickets| :: args[from - 1 + i] == TicketArg(tickets[i])
    ensures Lookup(args, Numbers(from, |tickets|)) == Some(tickets)
    decreases tickets
  {
    if tickets != [] {
      LookupReadsBack(args, from + 1, tickets[1..]);
      assert Numbers(from, |tickets|)[1..] == Numbers(from + 1, |tickets| - 1);
      assert [tickets[0]] + tickets[1..] == tickets;
    }
  }

  /** The text and arguments that the create builds name exactly its tickets, in order; no number names the
      reservation id's slot; and without tickets the text is a syntax error. */
  lemma InListRoundTrip(id: ReservationId, tickets: seq<TicketId>)
    ensures var text, args := Join(PlaceholdersFor(|tickets|), ", "), [ReservationArg(id)] + TicketArgs(tickets);
            && ReadInList(text, args) == (if tickets == [] then None else Some(tickets))
            && (ReadNumbers(text).Some? ==> forall n <- ReadNumbers(text).value :: 2 <= n <= |args|)
  {
    if tickets != [] {
      var args := [ReservationArg(id)] + TicketArgs(tickets);
      ListReadsBack(PlaceholdersFor(|tickets|), 2);
      LookupReadsBack(args, 2, tickets);
    }
  }

  /** The text that the database reads, for three and for ten tickets. */
  lemma TextInFigures()
    ensures Join(PlaceholdersFor(3), ", ") == "$2, $3, $4"
    ensures PlaceholdersFor(10)[8] == "$10" && PlaceholdersFor(10)[9] == "$11"
  {
    var parts := PlaceholdersFor(3);
    assert Decimal(2) == "2" && Decimal(3) == "3" && Decimal(4) == "4";
    assert |parts| == 3 && parts[0] == "$2" && parts[1] == "$3" && parts[2] == "$4";
    assert parts == ["$2", "$3", "$4"];
    assert parts[1..] == ["$3", "$4"] && parts[1..][1..] == ["$4"];
    assert Decimal(1) == "1" && Decimal(10) == "1" + "0" && Decimal(11) == "1" + "1";
  }
}
