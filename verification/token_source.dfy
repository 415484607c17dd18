/** The cache of OAuth access tokens (src/gcp_auth.rs) as a machine over a clock.
    Instants are real numbers of seconds, so of any resolution, up to the last
    one that the clock can represent. */
module TokenSource {
  import opened Prelude

  const MARGIN: nat := 60
  const DEFAULT_TTL: nat := 3600

  /** `Overflow` stands for the panic of adding a lifetime that ends behind the
      last instant: that call never returns, and caches nothing. */
  datatype AuthError = Unavailable | Backend | Overflow

  /** What happens when a token is requested: signing the request, the exchange,
      and a JSON body whose two fields count only in the right type. */
  datatype Exchange =
    | SigningFailed
    | Unreachable
    | NotJson
    | Body(success: bool, token: Option<string>, expiresIn: Option<nat>)

  type Cached = Option<(string, real)>

  function Ttl(expiresIn: Option<nat>): nat {
    var lifetime := if expiresIn.Some? then expiresIn.value else DEFAULT_TTL;
    Max(Monus(lifetime, MARGIN), 1)
  }

  /** A fresh token, received at some instant. */
  function Mint(exchange: Exchange, received: real, last: real): Result<(string, real), AuthError> {
    match exchange
    case SigningFailed => Err(Backend)
    case Unreachable => Err(Unavailable)
    case NotJson => Err(Backend)
    case Body(success, token, expiresIn) =>
      if !success || token.None? then Err(Backend)
      else if received + Ttl(expiresIn) as real > last then Err(Overflow)
      else Ok((token.value, received + Ttl(expiresIn) as real))
  }

  class GoogleOAuthTokenSource {
    var cached: Cached
    /** The last instant. */
    const last: real

    constructor (last: real)
      ensures cached == None && this.last == last
    {
      cached := None;
      this.last := last;
    }

    method AccessTokenWithExpiry(now: real, exchange: Exchange, received: real)
        returns (r: Result<(string, real), AuthError>)
      modifies this
      ensures r == Answer(old(cached), Call(now, exchange, received), last)
      ensures cached == Next(old(cached), Call(now, exchange, received), last)
    {
      if cached.Some? && now < cached.value.1 {
        return Ok(cached.value);
      }
      if exchange.SigningFailed? {
        return Err(Backend);
      }
      if exchange.Unreachable? {
        return Err(Unavailable);
      }
      if exchange.NotJson? || !exchange.success {
        return Err(Backend);
      }
      if exchange.token.None? {
        return Err(Backend);
      }
      var expiresIn := if exchange.expiresIn.Some? then exchange.expiresIn.value else DEFAULT_TTL;
      var ttl := Max(Monus(expiresIn, MARGIN), 1);
      if received + ttl as real > last {
        return Err(Overflow);
      }
      cached := Some((exchange.token.value, received + ttl as real));
      return Ok(cached.value);
    }

    method AccessToken(now: real, exchange: Exchange, received: real) returns (r: Result<string, AuthError>)
      modifies this
      ensures cached == Next(old(cached), Call(now, exchange, received), last)
      ensures match Answer(old(cached), Call(now, exchange, received), last)
              case Ok(pair) => r == Ok(pair.0)
              case Err(e) => r == Err(e)
    {
      var pair := AccessTokenWithExpiry(now, exchange, received);
      match pair
      case Ok(p) => return Ok(p.0);
      case Err(e) => return Err(e);
    }
  }

  // ---------------------------------------------------------------------
  // Runs
  // ---------------------------------------------------------------------

  /** One call: when it begins, what an exchange would yield, and when. */
  datatype Call = Call(now: real, exchange: Exchange, received: real)

  function Answer(cached: Cached, call: Call, last: real): Result<(string, real), AuthError> {
    if cached.Some? && call.now < cached.value.1 then Ok(cached.value) else Mint(call.exchange, call.received, last)
  }

  function Next(cached: Cached, call: Call, last: real): Cached {
    match Answer(cached, call, last)
    case Ok(pair) => Some(pair)
    case Err(_) => cached
  }

  function After(calls: seq<Call>, last: real): Cached {
    if calls == [] then None else Next(After(calls[..|calls| - 1], last), calls[|calls| - 1], last)
  }

  function AnswerAt(calls: seq<Call>, i: nat, last: real): Result<(string, real), AuthError>
    requires i < |calls|
  {
    Answer(After(calls[..i], last), calls[i], last)
  }

  /** Call i does an exchange that succeeds. */
  predicate MintsAt(calls: seq<Call>, i: nat, last: real)
    requires i < |calls|
  {
    var cached := After(calls[..i], last);
    !(cached.Some? && calls[i].now < cached.value.1) && Mint(calls[i].exchange, calls[i].received, last).Ok?
  }

  /** The clock does not run back, within a call and between calls. */
  predicate Clocked(calls: seq<Call>) {
    && (forall i | 0 <= i < |calls| :: calls[i].now <= calls[i].received)
    && (forall i, j | 0 <= i < j < |calls| :: calls[i].received <= calls[j].now)
  }

  /** The latest call before `n` that minted a token. */
  predicate LatestMint(calls: seq<Call>, n: nat, i: int, last: real)
    requires n <= |calls|
  {
    && 0 <= i < n && MintsAt(calls, i, last)
    && (forall j | i < j < n :: !MintsAt(calls, j, last))
  }

  lemma AfterOneMore(calls: seq<Call>, n: nat, last: real)
    requires n < |calls|
    ensures After(calls[..n + 1], last) ==
            if MintsAt(calls, n, last) then Some(Mint(calls[n].exchange, calls[n].received, last).value)
            else After(calls[..n], last)
  {
    assert calls[..n + 1][..n] == calls[..n];
  }

  lemma LatestGrows(calls: seq<Call>, n: nat, i: int, last: real)
    requires 0 < n <= |calls|
    ensures LatestMint(calls, n, i, last) <==>
            if MintsAt(calls, n - 1, last) then i == n - 1 else LatestMint(calls, n - 1, i, last)
  {
    hide MintsAt;
  }

  lemma {:induction false} CachedIsLatestMint(calls: seq<Call>, n: nat, last: real)
    requires n <= |calls|
    ensures After(calls[..n], last).Some? <==> exists i :: LatestMint(calls, n, i, last)
    ensures forall i | LatestMint(calls, n, i, last) ::
              Mint(calls[i].exchange, calls[i].received, last) == Ok(After(calls[..n], last).value)
  {
    if n == 0 {
      assert After([], last) == None;
    } else {
      hide After, MintsAt, Mint, LatestMint;
      var p: nat := n - 1;
      CachedIsLatestMint(calls, p, last);
      AfterOneMore(calls, p, last);
      LatestGrows(calls, n, p, last);
      if MintsAt(calls, p, last) {
        MintSucceeds(calls, p, last);
      } else if i :| LatestMint(calls, p, i, last) {
        LatestGrows(calls, n, i, last);
      }
      forall i | LatestMint(calls, n, i, last)
        ensures if MintsAt(calls, p, last) then i == p else LatestMint(calls, p, i, last)
      {
        LatestGrows(calls, n, i, last);
      }
    }
  }

  lemma MintSucceeds(calls: seq<Call>, i: nat, last: real)
    requires i < |calls| && MintsAt(calls, i, last)
    ensures Mint(calls[i].exchange, calls[i].received, last).Ok?
  {}

  lemma MintedLives(exchange: Exchange, received: real, last: real)
    ensures var minted := Mint(exchange, received, last);
         minted.Ok? ==>
           received < minted.value.1 == received + Ttl(exchange.expiresIn) as real && minted.value.1 <= last
  {}

  /** The last of `n` calls hands out a token before its expiry only, and it is
      the latest one minted, by this call or before. */
  lemma AnswerIsLatestAndLive(calls: seq<Call>, n: nat, last: real)
    requires 0 < n <= |calls| && AnswerAt(calls, n - 1, last).Ok?
    ensures exists m :: LatestMint(calls, n, m, last)
    ensures forall m | LatestMint(calls, n, m, last) ::
              && AnswerAt(calls, n - 1, last) == Mint(calls[m].exchange, calls[m].received, last)
              && (if m == n - 1 then calls[n - 1].received else calls[n - 1].now) < AnswerAt(calls, n - 1, last).value.1
  {
    hide After, Mint, Ttl;
    CachedIsLatestMint(calls, n - 1, last);
    CachedIsLatestMint(calls, n, last);
    AfterOneMore(calls, n - 1, last);
    MintedLives(calls[n - 1].exchange, calls[n - 1].received, last);
  }

  /** Tokens are minted at least the earlier one's time to live apart. */
  lemma MintsAreApart(calls: seq<Call>, i: nat, j: nat, last: real)
    requires i < j < |calls| && Clocked(calls) && MintsAt(calls, i, last) && MintsAt(calls, j, last)
    ensures calls[j].now >= calls[i].received + Ttl(calls[i].exchange.expiresIn) as real
    decreases j - i
  {
    hide After, Mint, Ttl;
    CachedIsLatestMint(calls, j, last);
    MintedLives(calls[i].exchange, calls[i].received, last);
    if m :| i < m < j && MintsAt(calls, m, last) {
      MintsAreApart(calls, i, m, last);
    } else {
      assert LatestMint(calls, j, i, last);
    }
  }

  /** The token that is still alive at a call, if there is one. */
  ghost predicate LivesAt(calls: seq<Call>, i: nat, m: int, last: real)
    requires i < |calls|
  {
    LatestMint(calls, i, m, last) && calls[i].now < calls[m].received + Ttl(calls[m].exchange.expiresIn) as real
  }

  /** While a token lives, and only then, a call asks nothing of the network:
      it yields the same whatever an exchange would give. */
  lemma CallsAreServedFromCacheExactly(calls: seq<Call>, i: nat, last: real)
    requires i < |calls|
    ensures (forall e, t :: Answer(After(calls[..i], last), Call(calls[i].now, e, t), last) == AnswerAt(calls, i, last))
       <==> exists m :: LivesAt(calls, i, m, last)
  {
    hide After, Ttl;
    CachedIsLatestMint(calls, i, last);
    var cached := After(calls[..i], last);
    var now := calls[i].now;
    if cached.Some? {
      var m :| LatestMint(calls, i, m, last);
      MintedLives(calls[m].exchange, calls[m].received, last);
      assert LivesAt(calls, i, m, last) <==> now < cached.value.1;
    }
    if cached.None? || cached.value.1 <= now {
      assert Answer(cached, Call(now, SigningFailed, 0.0), last) == Err(Backend);
      assert Answer(cached, Call(now, Unreachable, 0.0), last) == Err(Unavailable);
    }
  }

  /** Failed exchanges, however many, leave the token and its expiry. */
  lemma {:induction false} FailuresKeepTheToken(calls: seq<Call>, i: nat, j: nat, last: real)
    requires i <= j <= |calls| && forall k | i <= k < j :: !MintsAt(calls, k, last)
    ensures After(calls[..j], last) == After(calls[..i], last)
    decreases j - i
  {
    hide After;
    if i < j {
      FailuresKeepTheToken(calls, i, j - 1, last);
      AfterOneMore(calls, j - 1, last);
    }
  }

  /** A token is dropped a full margin before the lifetime the server states
      exactly if that is longer than the margin, and within the lifetime exactly
      if that is not zero: a lifetime of zero is still cached for a second. */
  lemma ExpiryLeavesMarginExactWhen(lifetime: nat, token: string, received: real, last: real)
    ensures var minted := Mint(Body(true, Some(token), Some(lifetime)), received, last);
      && (minted == Err(Overflow) <==> received + Max(lifetime - MARGIN, 1) as real > last)
      && (minted.Ok? <==> minted != Err(Overflow))
      && (minted.Ok? ==>
            var expiry := minted.value.1;
            && (expiry + MARGIN as real == received + lifetime as real <==> lifetime > MARGIN)
            && (expiry <= received + lifetime as real <==> lifetime > 0)
            && received < expiry <= last)
  {}

  // ---------------------------------------------------------------------
  // What is handed out, and how each exchange ends
  // ---------------------------------------------------------------------

  /** The lifetime that the server states; an hour when it states none. */
  function Lifetime(exchange: Exchange): nat
    requires exchange.Body?
  {
    if exchange.expiresIn.None? then 3600 else exchange.expiresIn.value
  }

  /** The exchange yields a token. */
  predicate Yields(exchange: Exchange) {
    exchange.Body? && exchange.success && exchange.token.Some?
  }

  /** Its expiry: a minute before the stated lifetime ends, but no sooner than
      after a second. */
  function Expiry(exchange: Exchange, received: real): real
    requires exchange.Body?
  {
    received + Max(Lifetime(exchange) - 60, 1) as real
  }

  /** Each way a call can end: served from the cache, with the exchange's own
      token, or with an error of the right kind that leaves the cache alone. */
  lemma EachExchangeIsAnswered(cached: Cached, call: Call, last: real)
    ensures var answer, next, e := Answer(cached, call, last), Next(cached, call, last), call.exchange;
      if cached.Some? && call.now < cached.value.1 then
        answer == Ok(cached.value) && next == cached
      else
        && (answer == Err(Unavailable) <==> e.Unreachable?)
        && (answer == Err(Backend) <==> e.SigningFailed? || e.NotJson? || (e.Body? && !Yields(e)))
        && (answer == Err(Overflow) <==> Yields(e) && Expiry(e, call.received) > last)
        && (answer.Ok? <==> Yields(e) && Expiry(e, call.received) <= last)
        && (answer.Ok? ==> answer.value == (e.token.value, Expiry(e, call.received)))
        && next == if answer.Ok? then Some(answer.value) else cached
  {}

  /** A call mints exactly when no token lives and its exchange yields one whose
      expiry can be represented. */
  lemma MintsExactWhen(calls: seq<Call>, i: nat, last: real)
    requires i < |calls|
    ensures var cached, e := After(calls[..i], last), calls[i].exchange;
      MintsAt(calls, i, last) <==>
        !(cached.Some? && calls[i].now < cached.value.1) && Yields(e) && Expiry(e, calls[i].received) <= last
  {
    hide After;
  }

  /** The token that a run hands out is the server's, word for word, of the latest
      call whose exchange yielded one, and so is its expiry. */
  lemma AnswerIsTheServersToken(calls: seq<Call>, n: nat, m: int, last: real)
    requires 0 < n <= |calls| && AnswerAt(calls, n - 1, last).Ok? && LatestMint(calls, n, m, last)
    ensures var e := calls[m].exchange;
      && Yields(e)
      && AnswerAt(calls, n - 1, last) == Ok((e.token.value, Expiry(e, calls[m].received)))
  {
    AnswerIsLatestAndLive(calls, n, last);
    MintsExactWhen(calls, m, last);
    hide After;
  }

  /** So the cache holds. */
  lemma CacheHoldsTheServersToken(calls: seq<Call>, n: nat, m: int, last: real)
    requires n <= |calls| && LatestMint(calls, n, m, last)
    ensures var e := calls[m].exchange;
      && Yields(e)
      && After(calls[..n], last) == Some((e.token.value, Expiry(e, calls[m].received)))
  {
    CachedIsLatestMint(calls, n, last);
    MintsExactWhen(calls, m, last);
    hide After;
  }
}
