/** The refresh tokens of the auth service (internal/auth/service.go, store.go) over abstract
    tables. Hashes are injective constructors; raw tokens, user ids and the clock (nanoseconds) are
    parameters. Deletes succeed. */
module AuthTokens {
  import opened Basics

  type Token = nat

  datatype Hash = Sha256(token: Token)

  datatype PasswordHash = Bcrypt(password: string)

  datatype User = User(id: nat, username: string, passwordHash: PasswordHash)

  /** The expiry is stored as text with whole seconds. */
  datatype Row = Row(user: nat, expires: int)

  datatype Tables = Tables(users: seq<User>, tokens: map<Hash, Row>)

  datatype AuthError = SetupDone | InvalidPassword | InvalidToken | TokenExpired | UserNotFound | DuplicateHash

  const SECOND := 1_000_000_000

  // ---- what the operations do to the tables ---------------------------------------------------

  function ByName(users: seq<User>, name: string): (r: Option<User>)
    ensures r.Some? ==> r.value in users && r.value.username == name
    ensures r.None? ==> forall u <- users :: u.username != name
  {
    if users == [] then None else if users[0].username == name then Some(users[0]) else ByName(users[1..], name)
  }

  function ById(users: seq<User>, id: nat): (r: Option<User>)
    ensures r.Some? ==> r.value in users && r.value.id == id
    ensures r.None? ==> forall u <- users :: u.id != id
  {
    if users == [] then None else if users[0].id == id then Some(users[0]) else ById(users[1..], id)
  }

  function Stored(t: Tables, user: nat, raw: Token, expiry: int)
    : (r: (Result<Token, AuthError>, Tables))
    ensures r.0.Ok? ==> Sha256(raw) in r.1.tokens
  {
    if Sha256(raw) in t.tokens then (Err(DuplicateHash), t)
    else (Ok(raw), t.(tokens := t.tokens[Sha256(raw) := Row(user, expiry / SECOND)]))
  }

  function SetUp(t: Tables, name: string, password: string, id: nat, raw: Token, expiry: int)
    : (r: (Result<Token, AuthError>, Tables))
    ensures r.0.Ok? ==> Sha256(raw) in r.1.tokens
  {
    if |t.users| != 0 then (Err(SetupDone), t)
    else Stored(t.(users := [User(id, name, Bcrypt(password))]), id, raw, expiry)
  }

  function LoggedIn(t: Tables, name: string, password: string, raw: Token, expiry: int)
    : (r: (Result<Token, AuthError>, Tables))
    ensures r.0.Ok? ==> Sha256(raw) in r.1.tokens
  {
    var user := ByName(t.users, name);
    if user.None? || user.value.passwordHash != Bcrypt(password) then (Err(InvalidPassword), t)
    else Stored(t, user.value.id, raw, expiry)
  }

  function Deleted(t: Tables, token: Token): Tables
  {
    t.(tokens := t.tokens - {Sha256(token)})
  }

  function Refreshed(t: Tables, token: Token, raw: Token, now: int, expiry: int)
    : (r: (Result<Token, AuthError>, Tables))
    ensures r.0.Ok? ==> Sha256(raw) in r.1.tokens
  {
    if Sha256(token) !in t.tokens then (Err(InvalidToken), t) else
    var row := t.tokens[Sha256(token)];
    if now > row.expires * SECOND then (Err(TokenExpired), Deleted(t, token))
    else if ById(t.users, row.user).None? then (Err(UserNotFound), t)
    else Stored(Deleted(t, token), row.user, raw, expiry)
  }

  function LoggedOut(t: Tables, token: Token): Tables
  {
    if Sha256(token) !in t.tokens then t
    else t.(tokens := map h | h in t.tokens && t.tokens[h].user != t.tokens[Sha256(token)].user :: t.tokens[h])
  }

  function Pruned(t: Tables, now: int): Tables
  {
    t.(tokens := map h | h in t.tokens && t.tokens[h].expires >= now / SECOND :: t.tokens[h])
  }

  class Service {
    var users: seq<User>
    var tokens: map<Hash, Row>
    const lifetime: int   // refreshTokenExpiry

    constructor (lifetime: int)
      ensures View() == Tables([], map[]) && this.lifetime == lifetime
    {
      users, tokens, this.lifetime := [], map[], lifetime;
    }

    function View(): Tables
      reads this
    {
      Tables(users, tokens)
    }

    method IssueTokenPair(user: nat, raw: Token, now: int) returns (r: Result<Token, AuthError>)
      modifies this`tokens
      ensures (r, View()) == Stored(old(View()), user, raw, now + lifetime)
    {
      var expiresAt := now + lifetime;
      if Sha256(raw) in tokens {
        return Err(DuplicateHash);
      }
      tokens := tokens[Sha256(raw) := Row(user, expiresAt / SECOND)];
      return Ok(raw);
    }

    method Setup(name: string, password: string, id: nat, raw: Token, now: int) returns (r: Result<Token, AuthError>)
      modifies this
      ensures (r, View()) == SetUp(old(View()), name, password, id, raw, now + lifetime)
    {
      if |users| != 0 {
        return Err(SetupDone);
      }
      users := users + [User(id, name, Bcrypt(password))];
      assert users == [User(id, name, Bcrypt(password))];
      r := IssueTokenPair(id, raw, now);
    }

    method Login(name: string, password: string, raw: Token, now: int) returns (r: Result<Token, AuthError>)
      modifies this`tokens
      ensures (r, View()) == LoggedIn(old(View()), name, password, raw, now + lifetime)
    {
      var user := ByName(users, name);
      if user.None? || user.value.passwordHash != Bcrypt(password) {
        return Err(InvalidPassword);
      }
      r := IssueTokenPair(user.value.id, raw, now);
    }

    method Refresh(token: Token, raw: Token, now: int) returns (r: Result<Token, AuthError>)
      modifies this`tokens
      ensures (r, View()) == Refreshed(old(View()), token, raw, now, now + lifetime)
    {
      var hash := Sha256(token);
      if hash !in tokens {
        return Err(InvalidToken);
      }
      var row := tokens[hash];
      if now > row.expires * SECOND {
        tokens := tokens - {hash};
        return Err(TokenExpired);
      }
      if ById(users, row.user).None? {
        return Err(UserNotFound);
      }
      tokens := tokens - {hash};
      r := IssueTokenPair(row.user, raw, now);
    }

    method Logout(token: Token)
      modifies this`tokens
      ensures View() == LoggedOut(old(View()), token)
    {
      if Sha256(token) in tokens {
        var user := tokens[Sha256(token)].user;
        tokens := map h | h in tokens && tokens[h].user != user :: tokens[h];
      }
    }

    method PruneExpiredTokens(now: int)
      modifies this`tokens
      ensures View() == Pruned(old(View()), now)
    {
      tokens := map h | h in tokens && tokens[h].expires >= now / SECOND :: tokens[h];
    }
  }

  // ---- runs ---------------------------------------------------------------------------------------

  datatype Event =
    | Setup(name: string, password: string, id: nat, now: int)
    | Login(name: string, password: string, now: int)
    | Refresh(token: Token, now: int)
    | Logout(token: Token)
    | Prune(now: int)

  /** Where a token comes from: `chain` is the token of the login, or setup, it descends from, and
      `expiry` its nominal expiry. */
  datatype Origin = Origin(user: nat, chain: Token, expiry: int)

  /** Raw tokens are fresh: the next one is `next`. */
  datatype World = World(t: Tables, next: Token, issued: map<Token, Origin>)

  const EMPTY := World(Tables([], map[]), 0, map[])

  predicate Live(w: World, token: Token)
  {
    Sha256(token) in w.t.tokens
  }

  function ChainOf(w: World, token: Token): Token
  {
    if token in w.issued then w.issued[token].chain else token
  }

  function Record(w: World, outcome: (Result<Token, AuthError>, Tables), chain: Token, expiry: int): World
    requires outcome.0.Ok? ==> Sha256(w.next) in outcome.1.tokens
  {
    var (r, t) := outcome;
    if r.Err? then w.(t := t)
    else World(t, w.next + 1, w.issued[w.next := Origin(t.tokens[Sha256(w.next)].user, chain, expiry)])
  }

  function Apply(w: World, e: Event, lifetime: int): World
  {
    match e
    case Setup(name, password, id, now) =>
      Record(w, SetUp(w.t, name, password, id, w.next, now + lifetime), w.next, now + lifetime)
    case Login(name, password, now) =>
      Record(w, LoggedIn(w.t, name, password, w.next, now + lifetime), w.next, now + lifetime)
    case Refresh(token, now) =>
      Record(w, Refreshed(w.t, token, w.next, now, now + lifetime), ChainOf(w, token), now + lifetime)
    case Logout(token) => w.(t := LoggedOut(w.t, token))
    case Prune(now) => w.(t := Pruned(w.t, now))
  }

  function Run(w: World, es: seq<Event>, lifetime: int): World
    decreases |es|
  {
    if es == [] then w else Run(Apply(w, es[0], lifetime), es[1..], lifetime)
  }

  // ---- what every step keeps ------------------------------------------------------------------

  /** A chain belongs to one user. */
  predicate Descends(w: World, token: Token)
  {
    && token in w.issued && w.issued[token].chain in w.issued
    && w.issued[w.issued[token].chain].user == w.issued[token].user
  }

  ghost predicate Known(t: Tables, user: nat)
  {
    exists u <- t.users :: u.id == user
  }

  /** The row of a live token says who owns it and when it expires, cut to whole seconds. */
  ghost predicate Backed(w: World, token: Token)
  {
    && Live(w, token) && token in w.issued
    && w.t.tokens[Sha256(token)] == Row(w.issued[token].user, w.issued[token].expiry / SECOND)
    && Known(w.t, w.issued[token].user)
  }

  predicate Twins(w: World, a: Token, b: Token)
  {
    Live(w, a) && Live(w, b) && ChainOf(w, a) == ChainOf(w, b)
  }

  /** What was issued is known, and every live token is backed by it. */
  ghost predicate Ledger(w: World)
  {
    && (forall token: Token :: token in w.issued <==> token < w.next)
    && (forall token <- w.issued :: Descends(w, token))
    && (forall token: Token :: Live(w, token) ==> Backed(w, token))
  }

  /** No two live tokens descend from the same login. */
  ghost predicate Single(w: World)
  {
    forall a: Token, b: Token :: Twins(w, a, b) ==> a == b
  }

  ghost predicate Sound(w: World)
  {
    Ledger(w) && Single(w)
  }

  /** Some tokens may have gone and users been added; nothing else changed. */
  ghost predicate Shrinks(s: Tables, t: Tables)
  {
    && (forall h <- t.tokens :: h in s.tokens && t.tokens[h] == s.tokens[h])
    && (forall u <- s.users :: u in t.users)
  }

  lemma ShrinkingIsSound(w: World, t: Tables)
    requires Sound(w) && Shrinks(w.t, t)
    ensures Sound(w.(t := t))
  {
    var v := w.(t := t);
    forall token: Token | Live(v, token) ensures Backed(v, token) {
      assert Live(w, token) && Backed(w, token);
    }
    forall token <- w.issued ensures Descends(v, token) { assert Descends(w, token); }
    forall a: Token, b: Token | Twins(v, a, b) ensures a == b {
      assert Twins(w, a, b);
    }
  }

  ghost predicate ChainIsDead(w: World, chain: Token)
  {
    forall token: Token :: Live(w, token) ==> ChainOf(w, token) != chain
  }

  /** The world in which the next token has been issued. */
  ghost predicate Grows(w: World, v: World, user: nat, chain: Token, expiry: int)
  {
    && v.next == w.next + 1 && v.t.users == w.t.users
    && v.t.tokens == w.t.tokens[Sha256(w.next) := Row(user, expiry / SECOND)]
    && v.issued == w.issued[w.next := Origin(user, chain, expiry)]
  }

  lemma GrownDescends(w: World, v: World, user: nat, chain: Token, expiry: int)
    requires Sound(w) && Grows(w, v, user, chain, expiry)
    requires chain == w.next || (chain in w.issued && w.issued[chain].user == user)
    ensures forall token <- v.issued :: Descends(v, token)
  {
    forall token <- v.issued ensures Descends(v, token) {
      assert token != w.next ==> Descends(w, token);
    }
  }

  lemma GrownBacked(w: World, v: World, user: nat, chain: Token, expiry: int)
    requires Sound(w) && Known(w.t, user) && Grows(w, v, user, chain, expiry)
    ensures forall token: Token :: Live(v, token) ==> Backed(v, token)
  {
    forall token: Token | Live(v, token) ensures Backed(v, token) {
      assert token != w.next ==> Live(w, token) && Backed(w, token);
    }
  }

  lemma GrownSingle(w: World, v: World, user: nat, chain: Token, expiry: int)
    requires Sound(w) && ChainIsDead(w, chain) && Grows(w, v, user, chain, expiry)
    ensures Single(v)
  {
    forall a: Token, b: Token | Twins(v, a, b) ensures a == b {
      GrownTwins(w, v, chain, a, b);
    }
  }

  lemma GrowingIsSound(w: World, v: World, user: nat, chain: Token, expiry: int)
    requires Sound(w) && Known(w.t, user) && ChainIsDead(w, chain) && Grows(w, v, user, chain, expiry)
    requires chain == w.next || (chain in w.issued && w.issued[chain].user == user)
    ensures Sound(v)
  {
    GrownDescends(w, v, user, chain, expiry);
    GrownBacked(w, v, user, chain, expiry);
    GrownSingle(w, v, user, chain, expiry);
  }

  lemma NextIsFresh(w: World)
    requires Sound(w)
    ensures !Live(w, w.next)
  {
    assert Live(w, w.next) ==> Backed(w, w.next);
  }

  lemma GrownTwins(w: World, v: World, chain: Token, a: Token, b: Token)
    requires Sound(w) && ChainIsDead(w, chain) && Twins(v, a, b) && ChainOf(v, w.next) == chain
    requires forall token: Token :: token != w.next && Live(v, token) ==>
                                      Live(w, token) && ChainOf(v, token) == ChainOf(w, token)
    ensures a == b
  {
    if a != w.next && b != w.next {
      assert Twins(w, a, b);
    }
  }

  lemma NewChainIsDead(w: World)
    requires Sound(w)
    ensures ChainIsDead(w, w.next)
  {
    forall token: Token | Live(w, token) ensures ChainOf(w, token) != w.next {
      assert Backed(w, token) && Descends(w, token);
    }
  }

  lemma DeletingEndsChain(w: World, token: Token)
    requires Sound(w) && Live(w, token)
    ensures var v := w.(t := Deleted(w.t, token)); Sound(v) && ChainIsDead(v, ChainOf(w, token))
  {
    var v := w.(t := Deleted(w.t, token));
    ShrinkingIsSound(w, v.t);
    forall other: Token | Live(v, other) ensures ChainOf(v, other) != ChainOf(w, token) {
      assert other != token && ChainOf(w, other) == ChainOf(v, other);
      assert Twins(w, other, token) ==> other == token;
    }
  }

  /** The user who gets a new token in exchange, if the exchange is accepted. */
  function ExchangeUser(w: World, token: Token, now: int): Option<nat>
  {
    if Live(w, token) && now <= w.t.tokens[Sha256(token)].expires * SECOND
       && ById(w.t.users, w.t.tokens[Sha256(token)].user).Some?
    then Some(w.t.tokens[Sha256(token)].user) else None
  }

  lemma RefreshGrows(w: World, token: Token, now: int, lifetime: int)
    requires !Live(w, w.next)
    ensures var v, user := Apply(w, Refresh(token, now), lifetime), ExchangeUser(w, token, now);
            var deleted := w.(t := Deleted(w.t, token));
            if user.Some? then Grows(deleted, v, user.value, ChainOf(w, token), now + lifetime)
            else v == w || v == deleted
  {
  }

  lemma RefreshIsSound(w: World, token: Token, now: int, lifetime: int)
    requires Sound(w)
    ensures Sound(Apply(w, Refresh(token, now), lifetime))
  {
    NextIsFresh(w);
    RefreshGrows(w, token, now, lifetime);
    var user, deleted := ExchangeUser(w, token, now), w.(t := Deleted(w.t, token));
    if Live(w, token) {
      assert Backed(w, token) && Descends(w, token);
      DeletingEndsChain(w, token);
      if user.Some? {
        GrowingIsSound(deleted, Apply(w, Refresh(token, now), lifetime), user.value, ChainOf(w, token), now + lifetime);
      }
    } else {
      ShrinkingIsSound(w, deleted.t);
    }
  }

  /** The user who is let in, if the login is accepted. */
  function LoginUser(w: World, name: string, password: string): Option<nat>
  {
    var user := ByName(w.t.users, name);
    if user.Some? && user.value.passwordHash == Bcrypt(password) then Some(user.value.id) else None
  }

  lemma LoginGrows(w: World, name: string, password: string, now: int, lifetime: int)
    requires !Live(w, w.next)
    ensures var v, user := Apply(w, Login(name, password, now), lifetime), LoginUser(w, name, password);
            if user.Some? then Grows(w, v, user.value, w.next, now + lifetime) && Known(w.t, user.value) else v == w
  {
  }

  lemma LoginIsSound(w: World, name: string, password: string, now: int, lifetime: int)
    requires Sound(w)
    ensures Sound(Apply(w, Login(name, password, now), lifetime))
  {
    NextIsFresh(w);
    LoginGrows(w, name, password, now, lifetime);
    var user := LoginUser(w, name, password);
    if user.Some? {
      NewChainIsDead(w);
      GrowingIsSound(w, Apply(w, Login(name, password, now), lifetime), user.value, w.next, now + lifetime);
    }
  }

  function WithUser(w: World, user: User): World
  {
    w.(t := w.t.(users := [user]))
  }

  lemma SetupGrows(w: World, name: string, password: string, id: nat, now: int, lifetime: int)
    requires !Live(w, w.next)
    ensures var v := Apply(w, Setup(name, password, id, now), lifetime);
            if w.t.users != [] then v == w
            else Grows(WithUser(w, User(id, name, Bcrypt(password))), v, id, w.next, now + lifetime)
  {
  }

  lemma FirstUserIsSound(w: World, user: User)
    requires Sound(w) && w.t.users == []
    ensures var v := WithUser(w, user); Sound(v) && Known(v.t, user.id)
  {
    var v := WithUser(w, user);
    ShrinkingIsSound(w, v.t);
    assert v.t.users[0].id == user.id;
  }

  lemma SetupIsSound(w: World, name: string, password: string, id: nat, now: int, lifetime: int)
    requires Sound(w)
    ensures Sound(Apply(w, Setup(name, password, id, now), lifetime))
  {
    NextIsFresh(w);
    SetupGrows(w, name, password, id, now, lifetime);
    if w.t.users == [] {
      var with := WithUser(w, User(id, name, Bcrypt(password)));
      FirstUserIsSound(w, User(id, name, Bcrypt(password)));
      NewChainIsDead(with);
      GrowingIsSound(with, Apply(w, Setup(name, password, id, now), lifetime), id, w.next, now + lifetime);
    }
  }

  lemma StepIsSound(w: World, e: Event, lifetime: int)
    requires Sound(w)
    ensures Sound(Apply(w, e, lifetime))
  {
    match e
    case Setup(name, password, id, now) => SetupIsSound(w, name, password, id, now, lifetime);
    case Login(name, password, now) => LoginIsSound(w, name, password, now, lifetime);
    case Refresh(token, now) => RefreshIsSound(w, token, now, lifetime);
    case Logout(token) => ShrinkingIsSound(w, LoggedOut(w.t, token));
    case Prune(now) => ShrinkingIsSound(w, Pruned(w.t, now));
  }

  lemma {:induction false} RunIsSound(w: World, es: seq<Event>, lifetime: int)
    requires Sound(w)
    ensures Sound(Run(w, es, lifetime))
    decreases |es|
  {
    if es != [] {
      StepIsSound(w, es[0], lifetime);
      RunIsSound(Apply(w, es[0], lifetime), es[1..], lifetime);
    }
  }

  // ---- what holds of every run -----------------------------------------------------------------

  /** The tokens that descend from one login: at most one of them is live, and all of them belong to
      the user who logged in. */
  lemma OneLiveTokenPerChain(es: seq<Event>, lifetime: int, a: Token, b: Token)
    requires var w := Run(EMPTY, es, lifetime); a in w.issued && b in w.issued && ChainOf(w, a) == ChainOf(w, b)
    ensures var w := Run(EMPTY, es, lifetime);
            w.issued[a].user == w.issued[b].user && (Live(w, a) && Live(w, b) ==> a == b)
  {
    RunIsSound(EMPTY, es, lifetime);
    var w := Run(EMPTY, es, lifetime);
    assert Descends(w, a) && Descends(w, b) && (Twins(w, a, b) ==> a == b);
  }

  lemma {:induction false} DeadStaysDead(w: World, es: seq<Event>, lifetime: int, token: Token)
    requires token < w.next && !Live(w, token)
    ensures !Live(Run(w, es, lifetime), token) && token < Run(w, es, lifetime).next
    decreases |es|
  {
    if es != [] {
      DeadStaysDead(Apply(w, es[0], lifetime), es[1..], lifetime, token);
    }
  }

  function Exchange(w: World, token: Token, now: int, lifetime: int): Result<Token, AuthError>
  {
    Refreshed(w.t, token, w.next, now, now + lifetime).0
  }

  /** Once exchanged, a token is refused whatever happens in between and at whatever time. */
  lemma ExchangedIsNeverAccepted(
    before: seq<Event>, token: Token, now: int, between: seq<Event>, later: int, lifetime: int)
    requires Exchange(Run(EMPTY, before, lifetime), token, now, lifetime).Ok?
    ensures var w := Apply(Run(EMPTY, before, lifetime), Refresh(token, now), lifetime);
            Exchange(Run(w, between, lifetime), token, later, lifetime) == Err(InvalidToken)
  {
    RunIsSound(EMPTY, before, lifetime);
    var w := Run(EMPTY, before, lifetime);
    assert Backed(w, token);
    DeadStaysDead(Apply(w, Refresh(token, now), lifetime), between, lifetime, token);
  }

  /** Logging out with a live token ends every session of its user, for good, and no other. */
  lemma LogoutEndsSessions(
    before: seq<Event>, token: Token, other: Token, after: seq<Event>, later: int, lifetime: int)
    requires var w := Run(EMPTY, before, lifetime);
             Live(w, token) && other in w.issued && token in w.issued
    ensures var w := Run(EMPTY, before, lifetime);
            var v := Apply(w, Logout(token), lifetime);
            if w.issued[other].user == w.issued[token].user
            then !Live(v, other) && Exchange(Run(v, after, lifetime), other, later, lifetime) == Err(InvalidToken)
            else Live(v, other) <==> Live(w, other)
  {
    RunIsSound(EMPTY, before, lifetime);
    var w := Run(EMPTY, before, lifetime);
    var v := Apply(w, Logout(token), lifetime);
    assert Backed(w, token) && (Live(w, other) ==> Backed(w, other));
    if w.issued[other].user == w.issued[token].user {
      DeadStaysDead(v, after, lifetime, other);
    }
  }

  /** The user is left without tokens exactly when the given one was live or there were none: a token
      that was exchanged before no longer logs its user out. */
  lemma LogoutExactlyWhen(es: seq<Event>, token: Token, lifetime: int)
    requires token in Run(EMPTY, es, lifetime).issued
    ensures var w := Run(EMPTY, es, lifetime);
            var user := w.issued[token].user;
            SignedOut(Apply(w, Logout(token), lifetime), user) <==> Live(w, token) || SignedOut(w, user)
  {
    RunIsSound(EMPTY, es, lifetime);
    var w := Run(EMPTY, es, lifetime);
    if Live(w, token) {
      assert Backed(w, token);
    }
  }

  ghost predicate SignedOut(w: World, user: nat)
  {
    forall h <- w.t.tokens :: w.t.tokens[h].user != user
  }

  /** Cutting the expiry to whole seconds never lengthens a token's life, and shortens it by less
      than a second. */
  lemma AcceptedExactlyWhen(es: seq<Event>, token: Token, now: int, lifetime: int)
    ensures var w := Run(EMPTY, es, lifetime);
            && (Exchange(w, token, now, lifetime).Ok? <==>
                Live(w, token) && token in w.issued && now <= w.issued[token].expiry / SECOND * SECOND)
            && (Exchange(w, token, now, lifetime).Ok? ==> now <= w.issued[token].expiry)
            && (Live(w, token) && token in w.issued && now <= w.issued[token].expiry - SECOND ==>
                  Exchange(w, token, now, lifetime).Ok?)
  {
    RunIsSound(EMPTY, es, lifetime);
    var w := Run(EMPTY, es, lifetime);
    if Live(w, token) {
      assert Backed(w, token);
      assert Live(w, w.next) ==> Backed(w, w.next);
    }
  }

  /** Pruning removes only tokens that would be refused from then on. */
  lemma PrunedWereExpired(w: World, token: Token, now: int, later: int, lifetime: int)
    requires Live(w, token) && !Live(Apply(w, Prune(now), lifetime), token) && now <= later
    ensures Exchange(w, token, later, lifetime) == Err(TokenExpired)
  {
    var expires := w.t.tokens[Sha256(token)].expires;
    assert expires + 1 <= now / SECOND;
  }

  lemma {:induction false} UsersStay(w: World, es: seq<Event>, lifetime: int)
    requires w.t.users != []
    ensures Run(w, es, lifetime).t.users == w.t.users
    decreases |es|
  {
    if es != [] {
      UsersStay(Apply(w, es[0], lifetime), es[1..], lifetime);
    }
  }

  /** Setup is refused ever after the first one, and a first one succeeds. */
  lemma SetupSucceedsOnce(w: World, name: string, password: string, id: nat, now: int, between: seq<Event>,
                          name': string, password': string, id': nat, now': int, lifetime: int)
    requires Sound(w)
    ensures SetUp(w.t, name, password, id, w.next, now + lifetime).0.Ok? <==> w.t.users == []
    ensures var v := Run(Apply(w, Setup(name, password, id, now), lifetime), between, lifetime);
            SetUp(v.t, name', password', id', v.next, now' + lifetime) == (Err(SetupDone), v.t)
  {
    assert Live(w, w.next) ==> Backed(w, w.next);
    UsersStay(Apply(w, Setup(name, password, id, now), lifetime), between, lifetime);
  }

  // ---- who is let in -----------------------------------------------------------------------

  /** The first user of the name has the password. */
  ghost predicate FirstHasPassword(users: seq<User>, i: nat, name: string, password: string)
  {
    && i < |users| && users[i].username == name && users[i].passwordHash == Bcrypt(password)
    && forall j :: 0 <= j < i ==> users[j].username != name
  }

  lemma {:induction false} ByNameIsFirst(users: seq<User>, name: string, i: nat)
    requires i < |users| && users[i].username == name && forall j :: 0 <= j < i ==> users[j].username != name
    ensures ByName(users, name) == Some(users[i])
    decreases i
  {
    if i > 0 {
      assert users[0].username != name;
      ByNameIsFirst(users[1..], name, i - 1);
    }
  }

  lemma {:induction false} FirstByName(users: seq<User>, name: string) returns (i: nat)
    requires ByName(users, name).Some?
    ensures i < |users| && users[i] == ByName(users, name).value && forall j :: 0 <= j < i ==> users[j].username != name
  {
    if users[0].username == name {
      i := 0;
    } else {
      i := FirstByName(users[1..], name);
      i := i + 1;
    }
  }

  /** On any tables, with a fresh token, a login succeeds exactly when the first user of that name has that
      password; the token is then stored for that user, with its expiry in whole seconds, and nothing
      else changes. A refused login changes nothing and does not tell why. */
  lemma LoginExactlyWhen(t: Tables, name: string, password: string, raw: Token, expiry: int)
    requires Sha256(raw) !in t.tokens
    ensures var (r, after) := LoggedIn(t, name, password, raw, expiry);
            && (r.Ok? <==> exists i: nat :: FirstHasPassword(t.users, i, name, password))
            && (r.Err? ==> r == Err(InvalidPassword) && after == t)
            && after.users == t.users
            && forall i: nat :: FirstHasPassword(t.users, i, name, password) ==>
                  r == Ok(raw) && after.tokens == t.tokens[Sha256(raw) := Row(t.users[i].id, expiry / SECOND)]
  {
    forall i: nat | FirstHasPassword(t.users, i, name, password) ensures ByName(t.users, name) == Some(t.users[i]) {
      ByNameIsFirst(t.users, name, i);
    }
    if ByName(t.users, name).Some? && ByName(t.users, name).value.passwordHash == Bcrypt(password) {
      var i := FirstByName(t.users, name);
      assert FirstHasPassword(t.users, i, name, password);
    }
  }

  /** After a setup, whatever happens in between, a login succeeds exactly with the name and the password
      of that setup, and the token issued belongs to the user it created. */
  lemma LoginAfterSetup(es: seq<Event>, name: string, password: string, id: nat, now: int, between: seq<Event>,
                        name': string, password': string, now': int, lifetime: int)
    requires Run(EMPTY, es, lifetime).t.users == []
    ensures var w := Run(Apply(Run(EMPTY, es, lifetime), Setup(name, password, id, now), lifetime), between, lifetime);
            var r := LoggedIn(w.t, name', password', w.next, now' + lifetime).0;
            var v := Apply(w, Login(name', password', now'), lifetime);
            && (r.Ok? <==> name' == name && password' == password)
            && (r.Ok? ==> r == Ok(w.next) && Live(v, w.next) && w.next in v.issued && v.issued[w.next].user == id
                          && v.issued[w.next].chain == w.next && v.issued[w.next].expiry == now' + lifetime)
  {
    var w0 := Run(EMPTY, es, lifetime);
    RunIsSound(EMPTY, es, lifetime);
    var w1 := Apply(w0, Setup(name, password, id, now), lifetime);
    StepIsSound(w0, Setup(name, password, id, now), lifetime);
    assert w1.t.users == [User(id, name, Bcrypt(password))];
    UsersStay(w1, between, lifetime);
    RunIsSound(w1, between, lifetime);
    var w := Run(w1, between, lifetime);
    assert Live(w, w.next) ==> Backed(w, w.next);
    assert w.t.users[0] == User(id, name, Bcrypt(password));
  }

  /** A refused exchange: an unknown token is told apart from an expired one, which is dropped; an orphaned
      one is kept. An accepted one is replaced by the fresh token, for the same user. */
  lemma ExchangeCases(t: Tables, token: Token, raw: Token, now: int, expiry: int)
    requires Sha256(raw) !in t.tokens
    ensures var (r, after) := Refreshed(t, token, raw, now, expiry);
            var hash := Sha256(token);
            && after.users == t.users
            && (hash !in t.tokens ==> r == Err(InvalidToken) && after == t)
            && (hash in t.tokens ==>
                  var row := t.tokens[hash];
                  if now > row.expires * SECOND then r == Err(TokenExpired) && after.tokens == t.tokens - {hash}
                  else if forall u <- t.users :: u.id != row.user then r == Err(UserNotFound) && after == t
                  else
                    && r == Ok(raw)
                    && after.tokens == (t.tokens - {hash})[Sha256(raw) := Row(row.user, expiry / SECOND)])
  {
  }

  /** Pruning drops exactly the tokens whose whole-second expiry lies in an earlier second. */
  lemma PrunedExactlyWhen(w: World, token: Token, now: int, lifetime: int)
    requires Live(w, token)
    ensures var v := Apply(w, Prune(now), lifetime);
            && (Live(v, token) <==> now < (w.t.tokens[Sha256(token)].expires + 1) * SECOND)
            && (Live(v, token) ==> v.t.tokens[Sha256(token)] == w.t.tokens[Sha256(token)])
            && v.t.users == w.t.users
  {
  }
}
