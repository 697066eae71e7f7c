/** How an error tree becomes a status: the repository wraps database errors with a sentinel, services wrap
    further, and the handler looks for the most important kind anywhere in the tree. */
module Errors {
  import opened Tables

  datatype Kind =
    | MaxBytes | JsonSyntax | JsonType | Canceled | DeadlineExceeded
    | Conflict | Validation | Retryable | Timeout | Unavailable | NotFound | InsufficientTickets
    | Unauthorized | Internal | BadRequest
    | Database | NoRows | ConnDone | TxDone | BadConn | Unknown

  /** `Wrap` is `fmt.Errorf` with any number of `%w` verbs, or `errors.Join`; `Pq` is an error of the driver. */
  datatype Err = Leaf(kind: Kind) | Pq(code: string) | Wrap(message: string, causes: seq<Err>)

  /** `errors.Is` for a sentinel, `errors.As` for a type: a search through the whole tree. */
  predicate Is(e: Err, kind: Kind) {
    match e
    case Leaf(k) => k == kind
    case Pq(_) => false
    case Wrap(_, causes) => AnyIs(causes, kind)
  }

  predicate AnyIs(causes: seq<Err>, kind: Kind) {
    causes != [] && (Is(causes[0], kind) || AnyIs(causes[1..], kind))
  }

  /** The first driver error in depth-first order, as `errors.As` finds it. */
  function FindPq(e: Err): Option<string> {
    match e
    case Leaf(_) => None
    case Pq(code) => Some(code)
    case Wrap(_, causes) => FirstPq(causes)
  }

  function FirstPq(causes: seq<Err>): Option<string> {
    if causes == [] then None
    else if FindPq(causes[0]).Some? then FindPq(causes[0]) else FirstPq(causes[1..])
  }

  /** The handler's switch; `requestDone` says whether the request's own context has ended. */
  function ToStatus(requestDone: bool, e: Err): int {
    if Is(e, MaxBytes) then 413
    else if Is(e, JsonSyntax) then 400
    else if Is(e, JsonType) then 400
    else if Is(e, Canceled) then (if requestDone then 499 else 500)
    else if Is(e, DeadlineExceeded) then 504
    else if Is(e, Conflict) then 409
    else if Is(e, Validation) then 400
    else if Is(e, Retryable) then 503
    else if Is(e, Timeout) then 504
    else if Is(e, Unavailable) then 503
    else if Is(e, NotFound) then 404
    else if Is(e, InsufficientTickets) then 409
    else if Is(e, Unauthorized) then 401
    else if Is(e, Internal) then 500
    else if Is(e, BadRequest) then 400
    else 500
  }

  function Classify(code: string): Option<Kind> {
    if code == "23505" then Some(Conflict)
    else if code == "23503" || code == "23514" then Some(Validation)
    else if code == "40001" || code == "40P01" || code == "55P03" then Some(Retryable)
    else if code == "57014" then Some(Timeout)
    else if code == "53300" || code == "08006" || code == "08003" then Some(Unavailable)
    else None
  }

  function WrapDBError(statement: string, e: Err): Err {
    if Is(e, NoRows) then Wrap(statement, [Leaf(NotFound)])
    else if Is(e, Canceled) || Is(e, DeadlineExceeded) then Wrap(statement, [e])
    else if Is(e, ConnDone) || Is(e, TxDone) then Wrap(statement, [Leaf(Database)])
    else if Is(e, BadConn) then Wrap(statement, [Leaf(Unavailable)])
    else if FindPq(e).Some? && Classify(FindPq(e).value).Some? then
      Wrap(statement, [Leaf(Classify(FindPq(e).value).value), e])
    else Wrap(statement, [Leaf(Database), e])
  }

  /* ----- The kinds of a tree ----- */

  /** The leaves of a tree, by membership rather than by search. */
  function Kinds(e: Err): set<Kind> {
    match e
    case Leaf(k) => {k}
    case Pq(_) => {}
    case Wrap(_, causes) => set c, k | c in causes && k in Kinds(c) :: k
  }

  lemma {:induction false} IsMembership(e: Err, kind: Kind)
    ensures Is(e, kind) <==> kind in Kinds(e)
  {
    if e.Wrap? {
      AnyIsMembership(e.causes, kind);
    }
  }

  lemma {:induction false} AnyIsMembership(causes: seq<Err>, kind: Kind)
    ensures AnyIs(causes, kind) <==> exists c <- causes :: kind in Kinds(c)
  {
    if causes != [] {
      IsMembership(causes[0], kind);
      AnyIsMembership(causes[1..], kind);
      assert causes == [causes[0]] + causes[1..];
    }
  }

  /** The place of a kind in the handler's switch; the kinds the handler does not know come last. */
  function Rank(kind: Kind): nat {
    match kind
    case MaxBytes => 0
    case JsonSyntax => 1
    case JsonType => 2
    case Canceled => 3
    case DeadlineExceeded => 4
    case Conflict => 5
    case Validation => 6
    case Retryable => 7
    case Timeout => 8
    case Unavailable => 9
    case NotFound => 10
    case InsufficientTickets => 11
    case Unauthorized => 12
    case Internal => 13
    case BadRequest => 14
    case _ => 15
  }

  function StatusOf(requestDone: bool, kind: Kind): int {
    match kind
    case MaxBytes => 413
    case JsonSyntax => 400
    case JsonType => 400
    case BadRequest => 400
    case Validation => 400
    case Unauthorized => 401
    case NotFound => 404
    case Conflict => 409
    case InsufficientTickets => 409
    case Canceled => if requestDone then 499 else 500
    case Retryable => 503
    case Unavailable => 503
    case DeadlineExceeded => 504
    case Timeout => 504
    case _ => 500
  }

  ghost predicate MostImportant(kinds: set<Kind>, kind: Kind) {
    kind in kinds && forall k <- kinds :: Rank(kind) <= Rank(k)
  }

  lemma {:induction false} MostImportantExists(kinds: set<Kind>) returns (kind: Kind)
    requires kinds != {}
    ensures MostImportant(kinds, kind)
  {
    kind :| kind in kinds;
    if kinds != {kind} {
      var other := MostImportantExists(kinds - {kind});
      kind := if Rank(kind) <= Rank(other) then kind else other;
    }
  }

  /** The status of a most important kind of `kinds`, or 500 when there is none. */
  ghost predicate IsStatusOf(requestDone: bool, kinds: set<Kind>, status: int) {
    if kinds == {} then status == 500
    else exists k :: MostImportant(kinds, k) && status == StatusOf(requestDone, k)
  }

  /** The handler answers with the status of the most important kind anywhere in the tree. */
  lemma MostImportantKindDecides(requestDone: bool, e: Err)
    ensures IsStatusOf(requestDone, Kinds(e), ToStatus(requestDone, e))
    ensures forall k :: MostImportant(Kinds(e), k) ==> ToStatus(requestDone, e) == StatusOf(requestDone, k)
  {
    forall k { IsMembership(e, k); }
    forall k | MostImportant(Kinds(e), k) ensures ToStatus(requestDone, e) == StatusOf(requestDone, k) {
      DecidedBy(requestDone, e, k);
    }
    if Kinds(e) != {} {
      var k := MostImportantExists(Kinds(e));
    }
  }

  lemma DecidedBy(requestDone: bool, e: Err, k: Kind)
    requires Is(e, k) && forall m :: Is(e, m) ==> Rank(k) <= Rank(m)
    ensures ToStatus(requestDone, e) == StatusOf(requestDone, k)
  {
    if Rank(k) < Rank(Retryable) {
      DecidedEarly(requestDone, e, k);
    } else {
      DecidedLate(requestDone, e, k);
    }
  }

  lemma DecidedEarly(requestDone: bool, e: Err, k: Kind)
    requires Is(e, k) && Rank(k) < Rank(Retryable) && forall m :: Is(e, m) ==> Rank(k) <= Rank(m)
    ensures ToStatus(requestDone, e) == StatusOf(requestDone, k)
  {
  }

  lemma DecidedLate(requestDone: bool, e: Err, k: Kind)
    requires Is(e, k) && Rank(k) >= Rank(Retryable) && forall m :: Is(e, m) ==> Rank(k) <= Rank(m)
    ensures ToStatus(requestDone, e) == StatusOf(requestDone, k)
  {
  }

  /** The status depends on nothing but the set of kinds. */
  lemma SameKindsSameStatus(requestDone: bool, a: Err, b: Err)
    requires Kinds(a) == Kinds(b)
    ensures ToStatus(requestDone, a) == ToStatus(requestDone, b)
  {
    forall k ensures Is(a, k) <==> Is(b, k) {
      IsMembership(a, k);
      IsMembership(b, k);
    }
    SameAnswersSameStatus(requestDone, a, b);
  }

  lemma SameAnswersSameStatus(requestDone: bool, a: Err, b: Err)
    requires forall k :: Is(a, k) <==> Is(b, k)
    ensures ToStatus(requestDone, a) == ToStatus(requestDone, b)
  {
  }

  /* ----- Wrapping and joining ----- */

  /** Wrapped once for every message, innermost first. */
  function WrapAll(messages: seq<string>, e: Err): Err {
    if messages == [] then e else Wrap(messages[|messages| - 1], [WrapAll(messages[..|messages| - 1], e)])
  }

  lemma {:induction false} WrappingKeepsKinds(messages: seq<string>, e: Err)
    ensures Kinds(WrapAll(messages, e)) == Kinds(e)
  {
    if messages != [] {
      WrappingKeepsKinds(messages[..|messages| - 1], e);
    }
  }

  /** Wrapping to any depth does not change the status. */
  lemma WrappingKeepsStatus(requestDone: bool, messages: seq<string>, e: Err)
    ensures ToStatus(requestDone, WrapAll(messages, e)) == ToStatus(requestDone, e)
  {
    WrappingKeepsKinds(messages, e);
    SameKindsSameStatus(requestDone, WrapAll(messages, e), e);
  }

  /** Neither does the order of joined errors. */
  lemma JoinOrderKeepsStatus(requestDone: bool, a: string, b: string, causes: seq<Err>, causes': seq<Err>)
    requires multiset(causes) == multiset(causes')
    ensures ToStatus(requestDone, Wrap(a, causes)) == ToStatus(requestDone, Wrap(b, causes'))
  {
    assert forall c :: c in causes <==> c in multiset(causes);
    assert forall c :: c in causes' <==> c in multiset(causes');
    assert Kinds(Wrap(a, causes)) == Kinds(Wrap(b, causes'));
    SameKindsSameStatus(requestDone, Wrap(a, causes), Wrap(b, causes'));
  }

  /* ----- Database errors through the whole path ----- */

  /** What the repository's wrapper leaves of a tree's kinds. */
  function WrappedKinds(e: Err): set<Kind> {
    if NoRows in Kinds(e) then {NotFound}
    else if Canceled in Kinds(e) || DeadlineExceeded in Kinds(e) then Kinds(e)
    else if ConnDone in Kinds(e) || TxDone in Kinds(e) then {Database}
    else if BadConn in Kinds(e) then {Unavailable}
    else
      Kinds(e)
      + {if FindPq(e).Some? && Classify(FindPq(e).value).Some? then Classify(FindPq(e).value).value else Database}
  }

  lemma WrapDBErrorKinds(statement: string, e: Err)
    ensures Kinds(WrapDBError(statement, e)) == WrappedKinds(e)
  {
    forall k { IsMembership(e, k); }
    var w := WrapDBError(statement, e);
    if |w.causes| == 1 {
      OneCause(w);
    } else {
      TwoCauses(w);
    }
  }

  lemma OneCause(w: Err)
    requires w.Wrap? && |w.causes| == 1
    ensures Kinds(w) == Kinds(w.causes[0])
  {
    assert forall c :: c in w.causes <==> c == w.causes[0];
  }

  lemma TwoCauses(w: Err)
    requires w.Wrap? && |w.causes| == 2
    ensures Kinds(w) == Kinds(w.causes[0]) + Kinds(w.causes[1])
  {
    assert forall c :: c in w.causes <==> c == w.causes[0] || c == w.causes[1];
  }

  /** The status of any error that passed the repository's wrapper and any service wrapping on top. */
  lemma DatabaseErrorStatus(requestDone: bool, statement: string, messages: seq<string>, e: Err)
    ensures IsStatusOf(requestDone, WrappedKinds(e),
                       ToStatus(requestDone, WrapAll(messages, WrapDBError(statement, e))))
    ensures forall k :: MostImportant(WrappedKinds(e), k) ==>
              ToStatus(requestDone, WrapAll(messages, WrapDBError(statement, e))) == StatusOf(requestDone, k)
  {
    WrapDBErrorKinds(statement, e);
    WrappingKeepsStatus(requestDone, messages, WrapDBError(statement, e));
    MostImportantKindDecides(requestDone, WrapDBError(statement, e));
  }

  /** Every class of database codes keeps one status through any wrapping below and above the repository. */
  lemma CodeClassStatus(requestDone: bool, statement: string, messages: seq<string>, e: Err, code: string)
    requires Kinds(e) == {} && FindPq(e) == Some(code)
    ensures ToStatus(requestDone, WrapAll(messages, WrapDBError(statement, e)))
         == if code == "23505" then 409
            else if code in {"23503", "23514"} then 400
            else if code in {"40001", "40P01", "55P03"} then 503
            else if code == "57014" then 504
            else if code in {"53300", "08006", "08003"} then 503
            else 500
  {
    DatabaseErrorStatus(requestDone, statement, messages, e);
    var k := if Classify(code).Some? then Classify(code).value else Database;
    assert WrappedKinds(e) == {k};
    assert MostImportant({k}, k);
  }

  /** The status of a single cause, in figures, through any wrapping on the way to the handler. */
  lemma SentinelStatus(requestDone: bool, messages: seq<string>, kind: Kind)
    ensures ToStatus(requestDone, WrapAll(messages, Leaf(kind)))
         == match kind
            case BadRequest => 400
            case Validation => 400
            case JsonSyntax => 400
            case JsonType => 400
            case Unauthorized => 401
            case NotFound => 404
            case Conflict => 409
            case InsufficientTickets => 409
            case MaxBytes => 413
            case Canceled => if requestDone then 499 else 500
            case Retryable => 503
            case Unavailable => 503
            case DeadlineExceeded => 504
            case Timeout => 504
            case _ => 500
  {
    WrappingKeepsStatus(requestDone, messages, Leaf(kind));
  }

  /** Faults of `database/sql` that carry no code, after the repository's wrapper and any wrapping on top. */
  lemma DriverFaultStatus(requestDone: bool, statement: string, messages: seq<string>, kind: Kind)
    requires kind in {NoRows, Canceled, DeadlineExceeded, ConnDone, TxDone, BadConn}
    ensures ToStatus(requestDone, WrapAll(messages, WrapDBError(statement, Leaf(kind))))
         == if kind == NoRows then 404
            else if kind == Canceled then (if requestDone then 499 else 500)
            else if kind == DeadlineExceeded then 504
            else if kind == BadConn then 503
            else 500
  {
    DatabaseErrorStatus(requestDone, statement, messages, Leaf(kind));
    var k := if kind == NoRows then NotFound
             else if kind == Canceled || kind == DeadlineExceeded then kind
             else if kind == BadConn then Unavailable else Database;
    assert WrappedKinds(Leaf(kind)) == {k};
    assert MostImportant({k}, k);
  }

  /** Which of two causes decides, wherever they stand in the tree: every kind gives way to those before it. */
  lemma EarlierKindWins(requestDone: bool, message: string, i: nat, j: nat)
    requires i < j < 15
    ensures var order := [MaxBytes, JsonSyntax, JsonType, Canceled, DeadlineExceeded, Conflict, Validation, Retryable,
                          Timeout, Unavailable, NotFound, InsufficientTickets, Unauthorized, Internal, BadRequest];
            && ToStatus(requestDone, Wrap(message, [Leaf(order[j]), Leaf(order[i])]))
               == ToStatus(requestDone, Wrap(message, [Leaf(order[i]), Leaf(order[j])]))
               == ToStatus(requestDone, Leaf(order[i]))
  {
    var order := [MaxBytes, JsonSyntax, JsonType, Canceled, DeadlineExceeded, Conflict, Validation, Retryable,
                  Timeout, Unavailable, NotFound, InsufficientTickets, Unauthorized, Internal, BadRequest];
    assert forall k | 0 <= k < 15 :: Rank(order[k]) == k;
    MoreImportantWins(requestDone, message, order[i], order[j]);
  }

  lemma MoreImportantWins(requestDone: bool, message: string, a: Kind, b: Kind)
    requires Rank(a) < Rank(b)
    ensures ToStatus(requestDone, Wrap(message, [Leaf(b), Leaf(a)])) == ToStatus(requestDone, Leaf(a))
    ensures ToStatus(requestDone, Wrap(message, [Leaf(a), Leaf(b)])) == ToStatus(requestDone, Leaf(a))
  {
    var e := Wrap(message, [Leaf(b), Leaf(a)]);
    TwoCauses(e);
    MostImportantKindDecides(requestDone, e);
    MostImportantKindDecides(requestDone, Leaf(a));
    assert MostImportant(Kinds(e), a) && MostImportant(Kinds(Leaf(a)), a);
    assert multiset([Leaf(b), Leaf(a)]) == multiset([Leaf(a), Leaf(b)]);
    JoinOrderKeepsStatus(requestDone, message, message, [Leaf(b), Leaf(a)], [Leaf(a), Leaf(b)]);
  }
}
