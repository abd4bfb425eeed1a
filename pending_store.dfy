/**
 * The state of the plugin: `pendingList`, the map from one-time code to the user it was issued
 * for and the time it was issued, together with the two handlers that act on it. The login
 * listener redeems a code; the `webui-url-login` command issues one.
 *
 * `Date.now()` and the integer drawn by `Math.random()` are parameters. The call to
 * `ctx.auth.createToken` is modelled by its record: each call appends a `Token` to `minted`.
 */
module PendingLogins {
  import opened Wrappers
  import Base36
  import LoginUrl

  /**
   * The user fields the command loads (`id`, `name`, `authority`, `config`). The source stores
   * the `session.user` object itself; here it is a value, fixed at issuance.
   */
  datatype User = User(id: int, name: Option<string>, authority: int, config: string)

  /** An entry of `pendingList`: the user and the issue time in milliseconds. */
  datatype Pending = Pending(user: User, timestamp: int)

  /** The plugin configuration: `timeout` (milliseconds), `isDirectOnly`, `selfUrl`, `jumpUrl`. */
  datatype Config = Config(timeout: int, isDirectOnly: bool, selfUrl: Option<string>, jumpUrl: Option<string>)

  /** What the command reads of the server: `ctx.server.config.selfUrl` and `ctx.server.selfUrl`. */
  datatype Server = Server(configSelfUrl: Option<string>, selfUrl: string)

  /** One call `ctx.auth.createToken(client, 'platform', user)`. */
  datatype Token = Token(client: int, user: User)

  /** Expiry is strict: an entry exactly `timeout` old is still good. */
  predicate Expired(entry: Pending, now: int, timeout: int) {
    now - entry.timestamp > timeout
  }

  /**
   * How a run of the login listener ends: with an answer, or by throwing because
   * `ctx.auth.createToken` rejected.
   */
  datatype Answer = Answered(ok: bool) | Threw

  /** The outcome of one run of the login listener: how it ends, the new map and the user a token is made for. */
  datatype Redemption = Redemption(answer: Answer, pending: map<string, Pending>, minted: Option<User>)

  /**
   * The login listener as a function of the map it reads. `mintOk` tells whether the awaited
   * `ctx.auth.createToken` call resolves; when it rejects, the listener throws before its
   * `delete`, so the entry stays.
   */
  function Redeem(pending: map<string, Pending>, otp: string, now: int, timeout: int, mintOk: bool): (r: Redemption)
    ensures r.answer == Answered(true) <==> otp in pending && !Expired(pending[otp], now, timeout) && mintOk
    ensures r.answer == Threw <==> otp in pending && !Expired(pending[otp], now, timeout) && !mintOk
    ensures r.pending == if r.answer == Threw then pending else pending - {otp}
    ensures r.minted == if r.answer == Answered(true) then Some(pending[otp].user) else None
  {
    if otp !in pending then Redemption(Answered(false), pending, None)
    else if Expired(pending[otp], now, timeout) then Redemption(Answered(false), pending - {otp}, None)
    else if !mintOk then Redemption(Threw, pending, None)
    else Redemption(Answered(true), pending - {otp}, Some(pending[otp].user))
  }

  /**
   * A code works at most once: after a run that did not throw, a second redemption, at any time,
   * answers false, changes nothing and makes no token.
   */
  lemma RedeemOnce(pending: map<string, Pending>, otp: string, first: int, second: int, timeout: int, mintOk: bool, mintOk': bool)
    requires Redeem(pending, otp, first, timeout, mintOk).answer != Threw
    ensures var p := Redeem(pending, otp, first, timeout, mintOk).pending;
      Redeem(p, otp, second, timeout, mintOk') == Redemption(Answered(false), p, None)
  {
  }

  /**
   * A rejected token call leaves the code in place and makes no token, so the same code can
   * be redeemed again, successfully, until it expires: a failed mint does not use the code up.
   */
  lemma FailedMintKeepsCode(pending: map<string, Pending>, otp: string, now: int, later: int, timeout: int)
    requires otp in pending && !Expired(pending[otp], now, timeout) && !Expired(pending[otp], later, timeout)
    ensures Redeem(pending, otp, now, timeout, false) == Redemption(Threw, pending, None)
    ensures Redeem(pending, otp, later, timeout, true) == Redemption(Answered(true), pending - {otp}, Some(pending[otp].user))
  {
  }

  /**
   * An entry is redeemed at exactly `timeout` after issue and refused, and dropped, one
   * millisecond later, whatever the token call would do.
   */
  lemma ExpiryBoundary(pending: map<string, Pending>, otp: string, timeout: int, mintOk: bool)
    requires otp in pending
    ensures var t := pending[otp].timestamp;
      Redeem(pending, otp, t + timeout, timeout, true) == Redemption(Answered(true), pending - {otp}, Some(pending[otp].user)) &&
      Redeem(pending, otp, t + timeout + 1, timeout, mintOk) == Redemption(Answered(false), pending - {otp}, None)
  {
  }

  /**
   * Redeeming a code just issued gives the user it was issued for, whatever the code was bound
   * to before: issuance overwrites without a collision check.
   */
  lemma IssueThenRedeem(pending: map<string, Pending>, otp: string, user: User, issuedAt: int, now: int, timeout: int)
    ensures Redeem(pending[otp := Pending(user, issuedAt)], otp, now, timeout, true) ==
      if now - issuedAt <= timeout then Redemption(Answered(true), pending - {otp}, Some(user))
      else Redemption(Answered(false), pending - {otp}, None)
  {
  }

  /** The plugin instance that `apply(ctx, config)` sets up. */
  class Store {
    const config: Config
    const server: Server

    /** `pendingList`. */
    var pending: map<string, Pending>

    /** Every `createToken` call so far, oldest first. */
    var minted: seq<Token>

    /** Every user the command has bound to a code. */
    ghost var bound: set<User>

    /** Only users some issuance bound to a code are pending, and only they get tokens. */
    ghost predicate Valid()
      reads this
    {
      (forall otp :: otp in pending ==> pending[otp].user in bound) &&
      (forall i :: 0 <= i < |minted| ==> minted[i].user in bound)
    }

    /** `apply`: the map starts empty. */
    constructor (config: Config, server: Server)
      ensures Valid() && this.config == config && this.server == server
      ensures pending == map[] && minted == [] && bound == {}
    {
      this.config := config;
      this.server := server;
      pending := map[];
      minted := [];
      bound := {};
    }

    /**
     * The `webui-url-login/login` listener, called by console client `client` with code `otp`
     * at time `now`; `mintOk` tells whether the token call resolves.
     */
    method Login(client: int, otp: string, now: int, mintOk: bool) returns (answer: Answer)
      requires Valid()
      modifies this
      ensures Valid() && bound == old(bound)
      ensures var r := Redeem(old(pending), otp, now, config.timeout, mintOk);
        answer == r.answer && pending == r.pending &&
        minted == old(minted) + (if r.minted.Some? then [Token(client, r.minted.value)] else [])
    {
      if otp in pending {
        var entry := pending[otp];
        var isExpired := now - entry.timestamp > config.timeout;
        if isExpired {
          pending := pending - {otp};
          return Answered(false);
        }
        if !mintOk {
          // the awaited createToken rejects: the listener throws before its delete
          return Threw;
        }
        minted := minted + [Token(client, entry.user)];
        pending := pending - {otp};
        return Answered(true);
      }
      return Answered(false);
    }

    /**
     * The `webui-url-login` command, run by `user` with optional argument `path` at time `now`;
     * `isDirect` tells whether the session is a direct chat and `n` is the random integer.
     */
    method Command(user: User, isDirect: bool, path: Option<string>, n: nat, now: int) returns (reply: string)
      requires Valid() && n < Base36.CodeSpace
      modifies this
      ensures Valid() && minted == old(minted)
      ensures config.isDirectOnly && !isDirect ==>
        reply == LoginUrl.Rejection && pending == old(pending) && bound == old(bound)
      ensures !(config.isDirectOnly && !isDirect) ==>
        var otp := Base36.Encode(n);
        pending == old(pending)[otp := Pending(user, now)] && bound == old(bound) + {user} &&
        reply == LoginUrl.Reply(LoginUrl.BaseUrl(config.selfUrl, server.configSelfUrl, server.selfUrl), otp,
                                LoginUrl.RedirectTarget(path, config.jumpUrl))
    {
      var target := LoginUrl.RedirectTarget(path, config.jumpUrl);
      if config.isDirectOnly && !isDirect {
        return LoginUrl.Rejection;
      }
      var otp := Base36.Encode(n);
      pending := pending[otp := Pending(user, now)];
      bound := bound + {user};
      var baseUrl := LoginUrl.BaseUrl(config.selfUrl, server.configSelfUrl, server.selfUrl);
      reply := LoginUrl.Reply(baseUrl, otp, target);
    }
  }

  /**
   * Issue at 0 with a 5000 ms timeout, redeem at 1000, redeem again at 1001: one token, for the
   * user the code was issued for, and the second attempt fails.
   */
  method SingleUseScenario(user: User, client: int, n: nat, server: Server)
    requires n < Base36.CodeSpace
  {
    var store := new Store(Config(5000, true, None, None), server);
    var reply := store.Command(user, true, None, n, 0);
    var otp := Base36.Encode(n);
    var answer := store.Login(client, otp, 1000, true);
    assert answer == Answered(true) && store.minted == [Token(client, user)];
    answer := store.Login(client, otp, 1001, true);
    assert answer == Answered(false) && store.minted == [Token(client, user)];
  }

  /** Issue at 0 with a 1000 ms timeout, redeem at 2000: refused, dropped, no token at all. */
  method ExpiredScenario(user: User, client: int, n: nat, server: Server)
    requires n < Base36.CodeSpace
  {
    var store := new Store(Config(1000, true, None, None), server);
    var reply := store.Command(user, true, None, n, 0);
    var otp := Base36.Encode(n);
    var answer := store.Login(client, otp, 2000, true);
    assert answer == Answered(false) && otp !in store.pending;
    answer := store.Login(client, otp, 2001, true);
    assert answer == Answered(false) && store.minted == [];
  }

  /**
   * Issue at 0 with a 5000 ms timeout; the token call rejects at 1000, which leaves the code in
   * place, so a second redemption at 2000 succeeds.
   */
  method FailedMintScenario(user: User, client: int, n: nat, server: Server)
    requires n < Base36.CodeSpace
  {
    var store := new Store(Config(5000, true, None, None), server);
    var reply := store.Command(user, true, None, n, 0);
    var otp := Base36.Encode(n);
    var answer := store.Login(client, otp, 1000, false);
    assert answer == Threw && otp in store.pending && store.minted == [];
    answer := store.Login(client, otp, 2000, true);
    assert answer == Answered(true) && store.minted == [Token(client, user)];
  }

  /** Outside a direct chat, with `isDirectOnly`, the command leaves nothing to redeem. */
  method RejectedScenario(user: User, client: int, n: nat, server: Server)
    requires n < Base36.CodeSpace
  {
    var store := new Store(Config(300000, true, None, None), server);
    var reply := store.Command(user, false, None, n, 0);
    assert reply == LoginUrl.Rejection;
    var answer := store.Login(client, Base36.Encode(n), 1, true);
    assert answer == Answered(false) && store.minted == [];
  }
}
