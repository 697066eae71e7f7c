/** Refresh-token rotation, one request at a time.

    Tokens stand for their SHA-256 hashes, which are assumed not to collide.  A fresh random token may clash
    with a stored one; the unique column then rejects the insert.  Every clock reading of a request is its own
    parameter: the database's and the application's clocks need not agree. */
module RefreshTokens {
  import opened Tables

  type Token = nat

  datatype TokenRow = TokenRow(user: UserId, expiresAt: int, revokedAt: Option<int>, deleted: bool)

  datatype Error = NotFound | Unauthorized | Internal

  datatype Result<+T> = Ok(value: T) | Err(error: Error)

  /** The rows that a lookup or a revocation by hash may find. */
  predicate Unrevoked(row: TokenRow) {
    !row.deleted && row.revokedAt.None?
  }

  /** One validation: the two clocks at its moments, and whether the database answered the lookup. */
  datatype Check = Check(answered: bool, db: int, app: int)

  function Validated(rows: map<Token, TokenRow>, token: Token, at: Check): Result<TokenRow> {
    if !at.answered then Err(Internal)
    else if token !in rows || !Unrevoked(rows[token]) || rows[token].expiresAt <= at.db then Err(NotFound)
    else if rows[token].expiresAt < at.app then Err(Unauthorized)
    else Ok(rows[token])
  }

  /** `revoked` is false when the database fails to revoke the old token, `inserted` when it fails to store the
      new one. */
  datatype Request =
    | Login(user: UserId, issued: Token, expiresAt: int, inserted: bool)
    | Refresh(token: Token, first: Check, second: Check, revokedAt: int, revoked: bool,
              issued: Token, expiresAt: int, inserted: bool)
    | RevokeUser(user: UserId, revokedAt: int)

  /** The stored rows, with the history that they do not show: which token a token was issued for, and the
      login at the start of its chain. */
  datatype Session = Session(rows: map<Token, TokenRow>, parent: map<Token, Token>, root: map<Token, Token>)

  datatype Reply = Issued(token: Token) | Denied(error: Error) | Done

  predicate CanStore(s: Session, r: Request)
    requires !r.RevokeUser?
  {
    r.inserted && r.issued !in s.rows
  }

  function RootOf(root: map<Token, Token>, token: Token): Token {
    if token in root then root[token] else token
  }

  function Revoke(rows: map<Token, TokenRow>, token: Token, at: int): map<Token, TokenRow> {
    if token in rows && Unrevoked(rows[token]) then rows[token := rows[token].(revokedAt := Some(at))] else rows
  }

  function RevokeAll(rows: map<Token, TokenRow>, user: UserId, at: int): map<Token, TokenRow> {
    map t | t in rows :: if rows[t].user == user && Unrevoked(rows[t]) then rows[t].(revokedAt := Some(at)) else rows[t]
  }

  function Insert(rows: map<Token, TokenRow>, token: Token, user: UserId, expiresAt: int): map<Token, TokenRow> {
    rows[token := TokenRow(user, expiresAt, None, false)]
  }

  /** The stored token `issued` continues the chain of `token`. */
  function WithSuccessor(s: Session, token: Token, issued: Token, user: UserId, expiresAt: int): Session {
    Session(Insert(s.rows, issued, user, expiresAt), s.parent[issued := token], s.root[issued := RootOf(s.root, token)])
  }

  function Serve(s: Session, r: Request): (Session, Reply) {
    match r
    case Login(user, issued, expiresAt, _) =>
      if CanStore(s, r) then
        (Session(Insert(s.rows, issued, user, expiresAt), s.parent, s.root[issued := issued]), Issued(issued))
      else (s, Denied(Internal))
    case Refresh(token, first, second, at, revoked, issued, expiresAt, _) =>
      var v1 := Validated(s.rows, token, first);
      var v2 := Validated(s.rows, token, second);
      if v1.Err? then (s, Denied(v1.error))
      else if v2.Err? then (s, Denied(v2.error))
      else if !revoked then (s, Denied(Internal))
      else
        var rows := Revoke(s.rows, token, at);
        if CanStore(s, r) then
          (WithSuccessor(s.(rows := rows), token, issued, v2.value.user, expiresAt), Issued(issued))
        else (s.(rows := rows), Denied(Internal))
    case RevokeUser(user, at) => (s.(rows := RevokeAll(s.rows, user, at)), Done)
  }

  /* ----- The store and the bundle as objects ----- */

  class RefreshTokenStore {
    var rows: map<Token, TokenRow>

    constructor ()
      ensures rows == map[]
    {
      rows := map[];
    }

    method Create(token: Token, user: UserId, expiresAt: int, inserted: bool) returns (ok: bool)
      modifies this
      ensures ok == (inserted && token !in old(rows))
      ensures rows == if ok then Insert(old(rows), token, user, expiresAt) else old(rows)
    {
      ok := inserted && token !in rows;
      if ok {
        rows := rows[token := TokenRow(user, expiresAt, None, false)];
      }
    }

    method GetByTokenHash(token: Token, dbNow: int, answered: bool) returns (r: Result<TokenRow>)
      ensures r.Ok? <==> answered && token in rows && Unrevoked(rows[token]) && rows[token].expiresAt > dbNow
      ensures r.Ok? ==> r.value == rows[token]
      ensures r.Err? ==> r.error == if answered then NotFound else Internal
    {
      if !answered {
        return Err(Internal);
      }
      if token in rows && !rows[token].deleted && rows[token].revokedAt.None? && rows[token].expiresAt > dbNow {
        return Ok(rows[token]);
      }
      return Err(NotFound);
    }

    /** The number of rows is not looked at: only a fault of the database is an error. */
    method RevokeByTokenHash(token: Token, at: int, revoked: bool) returns (ok: bool)
      modifies this
      ensures ok == revoked
      ensures rows == if ok then Revoke(old(rows), token, at) else old(rows)
    {
      ok := revoked;
      if ok && token in rows && !rows[token].deleted && rows[token].revokedAt.None? {
        rows := rows[token := rows[token].(revokedAt := Some(at))];
      }
    }

    method RevokeByUserID(user: UserId, at: int)
      modifies this
      ensures rows == RevokeAll(old(rows), user, at)
    {
      rows := RevokeAll(rows, user, at);
    }
  }

  class AuthBundle {
    const store: RefreshTokenStore
    ghost var parent: map<Token, Token>
    ghost var root: map<Token, Token>

    ghost function State(): Session
      reads this, store
    {
      Session(store.rows, parent, root)
    }

    constructor (store: RefreshTokenStore)
      requires store.rows == map[]
      ensures this.store == store && State() == Session(map[], map[], map[])
    {
      this.store, parent, root := store, map[], map[];
    }

    method ValidateRefreshToken(token: Token, at: Check) returns (r: Result<TokenRow>)
      ensures r == Validated(store.rows, token, at)
    {
      r := store.GetByTokenHash(token, at.db, at.answered);
      if r.Err? {
        return;
      }
      if r.value.expiresAt < at.app {
        return Err(Unauthorized);
      }
      if r.value.revokedAt.Some? {
        return Err(Unauthorized);
      }
    }

    /** Login and signup end with this call. */
    method GenerateRefreshToken(user: UserId, issued: Token, expiresAt: int, inserted: bool) returns (reply: Reply)
      modifies this, store
      ensures (State(), reply) == Serve(old(State()), Login(user, issued, expiresAt, inserted))
    {
      var ok := store.Create(issued, user, expiresAt, inserted);
      if !ok {
        return Denied(Internal);
      }
      root := root[issued := issued];
      return Issued(issued);
    }

    /** The refresh handler validates, and the rotation it calls validates again. */
    method HandleRefresh(token: Token, first: Check, second: Check, at: int, revoked: bool,
                         issued: Token, expiresAt: int, inserted: bool)
      returns (reply: Reply)
      modifies this, store
      ensures (State(), reply)
           == Serve(old(State()), Refresh(token, first, second, at, revoked, issued, expiresAt, inserted))
    {
      var v := ValidateRefreshToken(token, first);
      if v.Err? {
        return Denied(v.error);
      }
      reply := RotateRefreshToken(token, second, at, revoked, issued, expiresAt, inserted);
    }

    method RotateRefreshToken(token: Token, check: Check, at: int, revoked: bool,
                              issued: Token, expiresAt: int, inserted: bool)
      returns (reply: Reply)
      modifies this, store
      ensures (State(), reply)
           == Serve(old(State()), Refresh(token, check, check, at, revoked, issued, expiresAt, inserted))
    {
      var v := ValidateRefreshToken(token, check);
      if v.Err? {
        return Denied(v.error);
      }
      var ok := store.RevokeByTokenHash(token, at, revoked);
      if !ok {
        return Denied(Internal);
      }
      ok := store.Create(issued, v.value.user, expiresAt, inserted);
      if !ok {
        return Denied(Internal);
      }
      parent, root := parent[issued := token], root[issued := RootOf(root, token)];
      return Issued(issued);
    }
  }

  /* ----- Lineage ----- */

  ghost predicate Lineage(s: Session) {
    && s.root.Keys == s.rows.Keys && s.parent.Keys <= s.rows.Keys
    && (forall t {:trigger TokenOk(s, t)} | t in s.rows :: TokenOk(s, t))
    && OneSuccessor(s) && OneUnrevokedPerChain(s)
  }

  /** A token belongs to the chain and the user of the token it was issued for, which is revoked. */
  ghost predicate TokenOk(s: Session, t: Token)
    requires t in s.rows && s.root.Keys == s.rows.Keys
  {
    && s.root[t] in s.rows && s.root[s.root[t]] == s.root[t]
    && s.rows[s.root[t]].user == s.rows[t].user
    && (t in s.parent <==> s.root[t] != t)
    && (t in s.parent ==>
          var p := s.parent[t];
          p in s.rows && s.root[p] == s.root[t] && s.rows[p].user == s.rows[t].user && !Unrevoked(s.rows[p]))
  }

  ghost predicate OneSuccessor(s: Session) {
    forall t, u | t in s.parent && u in s.parent && s.parent[t] == s.parent[u] :: t == u
  }

  ghost predicate OneUnrevokedPerChain(s: Session)
    requires s.root.Keys == s.rows.Keys
  {
    forall t, u | t in s.rows && u in s.rows && Unrevoked(s.rows[t]) && Unrevoked(s.rows[u])
                  && s.root[t] == s.root[u] :: t == u
  }

  lemma ServeKeepsLineage(s: Session, r: Request)
    requires Lineage(s)
    ensures Lineage(Serve(s, r).0)
  {
    match r
    case Login(_, _, _, _) => LoginKeepsLineage(s, r);
    case RevokeUser(user, at) => RevokingKeepsLineage(s, RevokeAll(s.rows, user, at));
    case Refresh(_, _, _, _, _, _, _, _) => RefreshKeepsLineage(s, r);
  }

  /** A refresh is denied without effect, or revokes its token, or revokes it and issues a successor. */
  lemma RefreshCases(s: Session, r: Request)
    requires r.Refresh?
    ensures var s1 := s.(rows := Revoke(s.rows, r.token, r.revokedAt));
            || Serve(s, r).0 == s
            || (r.token in s.rows && Unrevoked(s.rows[r.token])
                && (Serve(s, r).0 == s1
                    || (r.issued !in s.rows
                        && Serve(s, r).0 == WithSuccessor(s1, r.token, r.issued, s.rows[r.token].user, r.expiresAt))))
  {
  }

  lemma RefreshKeepsLineage(s: Session, r: Request)
    requires Lineage(s) && r.Refresh?
    ensures Lineage(Serve(s, r).0)
  {
    RefreshCases(s, r);
    var s1 := s.(rows := Revoke(s.rows, r.token, r.revokedAt));
    RevokingKeepsLineage(s, s1.rows);
    if r.token in s.rows && Unrevoked(s.rows[r.token]) && r.issued !in s.rows {
      forall t | t in s.parent ensures s.parent[t] != r.token { assert TokenOk(s, t); }
      IssueKeepsLineage(s1, r.token, r.issued, r.expiresAt);
    }
  }

  lemma LoginKeepsLineage(s: Session, r: Request)
    requires Lineage(s) && r.Login?
    ensures Lineage(Serve(s, r).0)
  {
    var s' := Serve(s, r).0;
    forall t | t in s'.rows ensures TokenOk(s', t) {
      assert t in s.rows ==> TokenOk(s, t);
    }
    ChainOf(s);
    NewChainKeepsOne(s, r);
  }

  /** The start of a token's chain is a stored token. */
  ghost predicate Rooted(s: Session, t: Token) {
    t in s.root && s.root[t] in s.rows
  }

  lemma ChainOf(s: Session)
    requires Lineage(s)
    ensures forall t {:trigger Rooted(s, t)} | t in s.rows :: Rooted(s, t)
  {
    forall t | t in s.rows ensures Rooted(s, t) {
      assert TokenOk(s, t);
    }
  }

  lemma NewChainKeepsOne(s: Session, r: Request)
    requires r.Login? && s.root.Keys == s.rows.Keys && OneUnrevokedPerChain(s)
    requires forall t {:trigger Rooted(s, t)} | t in s.rows :: Rooted(s, t)
    ensures Serve(s, r).0.root.Keys == Serve(s, r).0.rows.Keys && OneUnrevokedPerChain(Serve(s, r).0)
  {
    var s' := Serve(s, r).0;
    forall t, u | t in s'.rows && u in s'.rows && Unrevoked(s'.rows[t]) && Unrevoked(s'.rows[u])
                  && s'.root[t] == s'.root[u]
      ensures t == u
    {
      assert t in s.rows ==> Rooted(s, t);
      assert u in s.rows ==> Rooted(s, u);
    }
  }

  lemma RevokingKeepsLineage(s: Session, rows: map<Token, TokenRow>)
    requires Lineage(s) && rows.Keys == s.rows.Keys
    requires forall t <- rows :: rows[t].user == s.rows[t].user && (Unrevoked(rows[t]) ==> Unrevoked(s.rows[t]))
    ensures Lineage(s.(rows := rows))
  {
    forall t | t in rows ensures TokenOk(s.(rows := rows), t) {
      assert TokenOk(s, t);
    }
  }

  /** A revoked token without a successor, alone in its chain, gets one. */
  lemma IssueKeepsLineage(s: Session, token: Token, issued: Token, expiresAt: int)
    requires Lineage(s) && token in s.rows && !Unrevoked(s.rows[token]) && issued !in s.rows
    requires forall t <- s.parent :: s.parent[t] != token
    requires forall t <- s.rows :: Unrevoked(s.rows[t]) ==> s.root[t] != s.root[token]
    ensures Lineage(WithSuccessor(s, token, issued, s.rows[token].user, expiresAt))
  {
    var s' := WithSuccessor(s, token, issued, s.rows[token].user, expiresAt);
    forall t | t in s'.rows ensures TokenOk(s', t) {
      IssueKeepsTokenOk(s, token, issued, expiresAt, t);
    }
    IssueKeepsOne(s, token, issued, expiresAt);
  }

  lemma IssueKeepsOne(s: Session, token: Token, issued: Token, expiresAt: int)
    requires s.root.Keys == s.rows.Keys && s.parent.Keys <= s.rows.Keys && OneSuccessor(s) && OneUnrevokedPerChain(s)
    requires token in s.rows && issued !in s.rows
    requires forall t <- s.parent :: s.parent[t] != token
    requires forall t <- s.rows :: Unrevoked(s.rows[t]) ==> s.root[t] != s.root[token]
    ensures var s' := WithSuccessor(s, token, issued, s.rows[token].user, expiresAt);
            s'.root.Keys == s'.rows.Keys && OneSuccessor(s') && OneUnrevokedPerChain(s')
  {
  }

  lemma IssueKeepsTokenOk(s: Session, token: Token, issued: Token, expiresAt: int, t: Token)
    requires Lineage(s) && token in s.rows && !Unrevoked(s.rows[token]) && issued !in s.rows
    requires t in s.rows || t == issued
    ensures TokenOk(WithSuccessor(s, token, issued, s.rows[token].user, expiresAt), t)
  {
    assert TokenOk(s, token);
    if t in s.rows {
      assert TokenOk(s, t);
    }
  }

  /* ----- Runs ----- */

  ghost predicate Run(ss: seq<Session>, rs: seq<Request>) {
    && |ss| == |rs| + 1 && ss[0] == Session(map[], map[], map[])
    && forall i: nat | i < |rs| :: Served(ss, rs, i)
  }

  ghost predicate Served(ss: seq<Session>, rs: seq<Request>, i: nat)
    requires i < |rs| && |ss| == |rs| + 1
  {
    ss[i + 1] == Serve(ss[i], rs[i]).0
  }

  lemma {:induction false} RunKeepsLineage(ss: seq<Session>, rs: seq<Request>, i: nat)
    requires Run(ss, rs) && i <= |rs|
    ensures Lineage(ss[i])
  {
    if i > 0 {
      RunKeepsLineage(ss, rs, i - 1);
      assert Served(ss, rs, i - 1);
      ServeKeepsLineage(ss[i - 1], rs[i - 1]);
    }
  }

  /** Nothing is forgotten, nobody changes hands, and what is revoked stays revoked. */
  ghost predicate Later(a: Session, b: Session) {
    && (forall t <- a.rows ::
          t in b.rows && b.rows[t].user == a.rows[t].user && (Unrevoked(b.rows[t]) ==> Unrevoked(a.rows[t])))
    && (forall t <- a.parent :: t in b.parent && b.parent[t] == a.parent[t])
  }

  lemma {:induction false} RunMovesOn(ss: seq<Session>, rs: seq<Request>, i: nat, j: nat)
    requires Run(ss, rs) && i <= j <= |rs|
    ensures Later(ss[i], ss[j])
  {
    if i < j {
      RunMovesOn(ss, rs, i, j - 1);
      RunKeepsLineage(ss, rs, j - 1);
      assert Served(ss, rs, j - 1);
      ServeMovesOn(ss[j - 1], rs[j - 1]);
    }
  }

  lemma ServeMovesOn(s: Session, r: Request)
    requires Lineage(s)
    ensures Later(s, Serve(s, r).0)
  {
    if r.Refresh? {
      RefreshCases(s, r);
    }
  }

  /** A token that has a successor never validates again, at any clock. */
  lemma SpentTokenNeverValidates(ss: seq<Session>, rs: seq<Request>, i: nat, j: nat,
                                 t: Token, child: Token, at: Check)
    requires Run(ss, rs) && i <= j <= |rs| && child in ss[i].parent && ss[i].parent[child] == t
    ensures Validated(ss[j].rows, t, at) == Err(if at.answered then NotFound else Internal)
  {
    RunMovesOn(ss, rs, i, j);
    RunKeepsLineage(ss, rs, j);
    assert TokenOk(ss[j], child);
  }

  /** A refresh that succeeds spends its token: no later refresh with the same token succeeds. */
  lemma RefreshSucceedsOnce(ss: seq<Session>, rs: seq<Request>, i: nat, j: nat)
    requires Run(ss, rs) && i < j < |rs| && rs[i].Refresh? && rs[j].Refresh? && rs[i].token == rs[j].token
    requires Serve(ss[i], rs[i]).1.Issued?
    ensures Serve(ss[j], rs[j]) == (ss[j], Denied(if rs[j].first.answered then NotFound else Internal))
  {
    assert Served(ss, rs, i);
    RunKeepsLineage(ss, rs, i);
    SpentTokenNeverValidates(ss, rs, i + 1, j, rs[i].token, rs[i].issued, rs[j].first);
  }

  /* ----- The token that is handed out ----- */

  /** A check that the database answers and that falls within the expiry on both clocks. */
  predicate InTime(at: Check, expiresAt: int) {
    at.answered && at.db < expiresAt && at.app <= expiresAt
  }

  /** What a login or refresh hands out is the new token: it was not stored before, it is stored for the user who
      logged in or whose token was refreshed, and it validates exactly in time.  No other token's row changes,
      except that the refreshed token no longer validates. */
  lemma IssuedTokenWorks(s: Session, r: Request, x: Token, at: Check)
    requires Lineage(s) && Serve(s, r).1 == Issued(x)
    ensures !r.RevokeUser? && x == r.issued && x !in s.rows
    ensures r.Refresh? ==> r.token in s.rows
    ensures var rows := Serve(s, r).0.rows;
            && rows.Keys == s.rows.Keys + {x}
            && rows[x].user == (if r.Login? then r.user else s.rows[r.token].user)
            && rows[x].expiresAt == r.expiresAt
            && (Validated(rows, x, at).Ok? <==> InTime(at, r.expiresAt))
            && (r.Refresh? ==> Validated(rows, r.token, at).Err?)
            && forall t <- s.rows :: (r.Refresh? ==> t != r.token) ==> rows[t] == s.rows[t]
  {
  }

  lemma LoginSucceedsIff(s: Session, r: Request)
    requires r.Login?
    ensures Serve(s, r).1 == (if r.inserted && r.issued !in s.rows then Issued(r.issued) else Denied(Internal))
    ensures Serve(s, r).1.Denied? ==> Serve(s, r).0 == s
  {
  }

  /** Request `r` revokes the open token `t`, whose row is `row`. */
  predicate Spends(row: TokenRow, t: Token, r: Request) {
    match r
    case Login(_, _, _, _) => false
    case Refresh(token, first, second, _, revoked, _, _, _) =>
      token == t && InTime(first, row.expiresAt) && InTime(second, row.expiresAt) && revoked
    case RevokeUser(user, _) => user == row.user
  }

  lemma OpenStep(s: Session, r: Request, t: Token)
    requires t in s.rows && Unrevoked(s.rows[t])
    ensures t in Serve(s, r).0.rows
    ensures var row := Serve(s, r).0.rows[t];
            && row.user == s.rows[t].user && row.expiresAt == s.rows[t].expiresAt
            && (Unrevoked(row) <==> !Spends(s.rows[t], t, r))
  {
  }

  /** An open token stays open exactly until a refresh in time spends it or its user's tokens are revoked. */
  lemma {:induction false} OpenUntilSpent(ss: seq<Session>, rs: seq<Request>, t: Token, i: nat, j: nat)
    requires Run(ss, rs) && i <= j <= |rs| && t in ss[i].rows && Unrevoked(ss[i].rows[t])
    ensures t in ss[j].rows
    ensures ss[j].rows[t].user == ss[i].rows[t].user && ss[j].rows[t].expiresAt == ss[i].rows[t].expiresAt
    ensures Unrevoked(ss[j].rows[t]) <==> forall k: nat | i <= k < j :: !Spends(ss[i].rows[t], t, rs[k])
  {
    if i < j {
      var p := j - 1;
      OpenUntilSpent(ss, rs, t, i, p);
      assert Served(ss, rs, p);
      if Unrevoked(ss[p].rows[t]) {
        OpenStep(ss[p], rs[p], t);
        assert Spends(ss[p].rows[t], t, rs[p]) <==> Spends(ss[i].rows[t], t, rs[p]);
      } else {
        RunMovesOn(ss, rs, p, j);
        ServeKeepsExpiry(ss[p], rs[p], t);
        var k: nat :| i <= k < p && Spends(ss[i].rows[t], t, rs[k]);
      }
    }
  }

  lemma ServeKeepsExpiry(s: Session, r: Request, t: Token)
    requires t in s.rows
    ensures t in Serve(s, r).0.rows && Serve(s, r).0.rows[t].expiresAt == s.rows[t].expiresAt
  {
  }

  /** When a refresh succeeds, for a token that was open at some earlier point of the run. */
  lemma RefreshSucceedsIff(ss: seq<Session>, rs: seq<Request>, t: Token, i: nat, j: nat)
    requires Run(ss, rs) && i <= j < |rs| && t in ss[i].rows && Unrevoked(ss[i].rows[t])
    requires rs[j].Refresh? && rs[j].token == t
    ensures Serve(ss[j], rs[j]).1.Issued? <==>
              && (forall k: nat | i <= k < j :: !Spends(ss[i].rows[t], t, rs[k]))
              && InTime(rs[j].first, ss[i].rows[t].expiresAt) && InTime(rs[j].second, ss[i].rows[t].expiresAt)
              && rs[j].revoked && rs[j].inserted && rs[j].issued !in ss[j].rows
  {
    OpenUntilSpent(ss, rs, t, i, j);
  }

  /** Revoking a user's tokens ends every one of them and nobody else's. */
  lemma RevokeUserEndsAll(s: Session, r: Request, t: Token, at: Check)
    requires r.RevokeUser? && t in s.rows
    ensures Serve(s, r).0.rows.Keys == s.rows.Keys
    ensures s.rows[t].user == r.user ==> Validated(Serve(s, r).0.rows, t, at).Err?
    ensures s.rows[t].user != r.user ==> Serve(s, r).0.rows[t] == s.rows[t]
  {
  }

  /** A refused validation: a fault of the database is internal, a token that the database no longer accepts is
      not found, and only clocks that disagree about an open token's expiry make it unauthorized. */
  lemma WhyNotValidated(rows: map<Token, TokenRow>, t: Token, at: Check)
    ensures Validated(rows, t, at) == Err(Internal) <==> !at.answered
    ensures Validated(rows, t, at) == Err(NotFound) <==>
              at.answered && (t in rows && !rows[t].deleted && rows[t].revokedAt == None ==> rows[t].expiresAt <= at.db)
    ensures Validated(rows, t, at) == Err(Unauthorized) <==>
              && at.answered && t in rows && !rows[t].deleted && rows[t].revokedAt == None
              && at.db < rows[t].expiresAt < at.app
  {
  }

  /** All tokens of a chain belong to one user. */
  lemma ChainHasOneUser(ss: seq<Session>, rs: seq<Request>, i: nat, t: Token, u: Token)
    requires Run(ss, rs) && i <= |rs| && t in ss[i].rows && u in ss[i].rows
    ensures t in ss[i].root && u in ss[i].root
    ensures ss[i].root[t] == ss[i].root[u] ==> ss[i].rows[t].user == ss[i].rows[u].user
  {
    RunKeepsLineage(ss, rs, i);
    assert TokenOk(ss[i], t) && TokenOk(ss[i], u);
  }

  /* ----- Unrevoked tokens never outnumber logins ----- */

  function Open(s: Session, user: UserId): set<Token> {
    set t | t in s.rows && s.rows[t].user == user && Unrevoked(s.rows[t])
  }

  function Roots(s: Session, user: UserId): set<Token> {
    set t | t in s.rows && s.rows[t].user == user && t in s.root && s.root[t] == t
  }

  ghost function Logins(ss: seq<Session>, rs: seq<Request>, user: UserId, n: nat): nat
    requires Run(ss, rs) && n <= |rs|
  {
    if n == 0 then 0
    else Logins(ss, rs, user, n - 1)
         + (if rs[n - 1].Login? && rs[n - 1].user == user && Serve(ss[n - 1], rs[n - 1]).1.Issued? then 1 else 0)
  }

  lemma {:induction false} InjectionBound(a: set<Token>, b: set<Token>, f: map<Token, Token>)
    requires forall t <- a :: t in f && f[t] in b
    requires forall t, u | t in a && u in a && f[t] == f[u] :: t == u
    ensures |a| <= |b|
  {
    if t :| t in a {
      InjectionBound(a - {t}, b - {f[t]}, f);
    }
  }

  lemma OpenAtMostRoots(s: Session, user: UserId)
    requires Lineage(s)
    ensures |Open(s, user)| <= |Roots(s, user)|
  {
    forall t | t in Open(s, user) ensures t in s.root && s.root[t] in Roots(s, user) {
      assert TokenOk(s, t);
    }
    InjectionBound(Open(s, user), Roots(s, user), s.root);
  }

  lemma {:induction false} RootsAreLogins(ss: seq<Session>, rs: seq<Request>, user: UserId, n: nat)
    requires Run(ss, rs) && n <= |rs|
    ensures |Roots(ss[n], user)| == Logins(ss, rs, user, n)
  {
    if n > 0 {
      RootsAreLogins(ss, rs, user, n - 1);
      RunKeepsLineage(ss, rs, n - 1);
      assert Served(ss, rs, n - 1);
      RootsStep(ss[n - 1], rs[n - 1], user);
    }
  }

  lemma RootsStep(s: Session, r: Request, user: UserId)
    requires Lineage(s)
    ensures |Roots(Serve(s, r).0, user)|
         == |Roots(s, user)| + (if r.Login? && r.user == user && Serve(s, r).1.Issued? then 1 else 0)
  {
    ChainOf(s);
    match r
    case Login(_, _, _, _) => LoginRoots(s, r, user);
    case Refresh(token, _, _, _, _, _, _, _) => assert token in s.rows ==> Rooted(s, token); RefreshRoots(s, r, user);
    case RevokeUser(_, _) => assert Roots(Serve(s, r).0, user) == Roots(s, user);
  }

  lemma LoginRoots(s: Session, r: Request, user: UserId)
    requires r.Login? && s.root.Keys == s.rows.Keys
    ensures |Roots(Serve(s, r).0, user)|
         == |Roots(s, user)| + (if r.user == user && Serve(s, r).1.Issued? then 1 else 0)
  {
    var s' := Serve(s, r).0;
    assert Roots(s', user) == Roots(s, user) + (if r.user == user && CanStore(s, r) then {r.issued} else {});
  }

  lemma RefreshRoots(s: Session, r: Request, user: UserId)
    requires r.Refresh? && s.root.Keys == s.rows.Keys && (r.token in s.rows ==> Rooted(s, r.token))
    ensures Roots(Serve(s, r).0, user) == Roots(s, user)
  {
    RefreshCases(s, r);
    var s1 := s.(rows := Revoke(s.rows, r.token, r.revokedAt));
    assert Roots(s1, user) == Roots(s, user);
    if r.token in s.rows && r.issued !in s.rows {
      SuccessorRoots(s1, r.token, r.issued, s.rows[r.token].user, r.expiresAt, user);
    }
  }

  lemma SuccessorRoots(s: Session, token: Token, issued: Token, owner: UserId, expiresAt: int, user: UserId)
    requires s.root.Keys == s.rows.Keys && token in s.rows && issued !in s.rows && Rooted(s, token)
    ensures Roots(WithSuccessor(s, token, issued, owner, expiresAt), user) == Roots(s, user)
  {
    assert s.root[token] != issued;
  }

  /** At any time a user's unrevoked tokens are at most the user's logins and signups so far. */
  lemma OpenTokensBoundedByLogins(ss: seq<Session>, rs: seq<Request>, user: UserId, n: nat)
    requires Run(ss, rs) && n <= |rs|
    ensures |Open(ss[n], user)| <= Logins(ss, rs, user, n)
  {
    RunKeepsLineage(ss, rs, n);
    OpenAtMostRoots(ss[n], user);
    RootsAreLogins(ss, rs, user, n);
  }
}
