/**
 * UserAddressService: the ETH balance service as an object whose `cache`
 * (Redis) and `store` (the `userAddress` table) change in place. Each method
 * is proved against the matching function of BalanceSpec, and every method
 * keeps the invariant that cached expiries lie inside the 20 to 40 second
 * window.
 */
module UserAddress {
  import opened Wrappers
  import opened BalanceSpec
  import ExceptionFilter

  class UserAddressService {
    /** The key prefix of balance entries (`REDIS.ETH_BALANCE.PREFIX`). */
    const prefix: string
    /** Redis, keyed by the full cache key. */
    var cache: Cache
    /** The `userAddress` rows, keyed by address. */
    var store: Store

    /** The object invariant: every cache entry carries an expiry inside the window. */
    ghost predicate Valid()
      reads this
    {
      TtlsInWindow(cache)
    }

    /** Both tiers as one value. */
    function Tiers(): Tiers
      reads this
    {
      BalanceSpec.Tiers(cache, store)
    }

    constructor (prefix: string, store: Store)
      ensures Valid()
      ensures this.prefix == prefix && cache == map[] && this.store == store
    {
      this.prefix := prefix;
      cache := map[];
      this.store := store;
    }

    /** `_getEthBalanceCache(address)`: the entry under the address's key or null, unless `redis.get` rejects (`readOk` false). */
    method GetEthBalanceCache(address: string, readOk: bool) returns (r: Result<Option<string>, CacheReadError>)
      ensures r.Err? <==> !readOk
      ensures r.Ok? ==> (r.value.Some? <==> RedisKey(prefix, address) in cache)
      ensures r.Ok? && r.value.Some? ==> r.value.value == cache[RedisKey(prefix, address)].value
      ensures r.Ok? ==> r.value == GetBalanceCache(cache, prefix, address)
    {
      if !readOk {
        return Err(CacheReadRejected);
      }
      var redisKey := RedisKey(prefix, address);
      r := Ok(if redisKey in cache then Some(cache[redisKey].value) else None);
    }

    /** `_setEthBalanceCache(address, ethBalance)`: a `setex` under the address's key with the jittered expiry, unless Redis rejects it. */
    method SetEthBalanceCache(address: string, ethBalance: string, w: CacheWrite)
      requires Valid()
      modifies this
      ensures Valid()
      ensures store == old(store)
      ensures cache == SetBalanceCache(old(cache), prefix, address, ethBalance, w)
    {
      var redisKey := RedisKey(prefix, address);
      var realExpire := RealExpire(w.random);
      if w.ok {
        cache := Setex(cache, redisKey, realExpire, ethBalance);
      }
      SetBalanceCacheKeepsWindow(old(cache), prefix, address, ethBalance, w);
    }

    /** `findOneByQuery(address, { select })`: the row's selected columns, the NOT_FOUND exception, or the rejection of `findUnique` (`readOk` false). */
    method FindOneByQuery(address: string, select: Select, readOk: bool) returns (r: Result<UserAddressView, QueryError>)
      ensures r.Err? <==> !readOk || address !in store
      ensures readOk && address !in store ==> r == Err(Thrown(HttpError(ADDRESS_NOT_FOUND, NOT_FOUND)))
      ensures r.Ok? ==> r.value.ethBalance == store[address].ethBalance
      ensures r == BalanceSpec.FindOneByQuery(store, address, select, readOk)
    {
      if !readOk {
        return Err(QueryRejected);
      }
      if address !in store {
        return Err(Thrown(HttpError(ADDRESS_NOT_FOUND, NOT_FOUND)));
      }
      var row := store[address];
      r := if select == AllAttributes then Ok(FullView(address, row.userId, row.ethBalance))
           else Ok(BalanceView(row.ethBalance));
    }

    /**
     * `searchEthBalanceV1({ address })`, with `env` saying what Redis, the
     * ledger and the store do during the call.
     */
    method SearchEthBalanceV1(address: string, env: ReadAnswers) returns (result: SearchResult)
      requires Valid()
      modifies this
      ensures Valid()
      ensures SearchOutcome(result, Tiers()) == Search(old(Tiers()), prefix, address, env)
    {
      ghost var t := Tiers();
      var cached := GetEthBalanceCache(address, env.cacheReadOk);
      if cached.Err? {
        return Rejected;  // the cache read is awaited outside any try
      }
      var ethBalance := cached.value;
      if !Truthy(ethBalance) {
        if env.ledger.Balance? {
          ethBalance := Some(env.ledger.s);
        }
        // a rejected ledger call is logged and `ethBalance` keeps its value
        if Truthy(ethBalance) {
          if env.upsertOk {
            store := Upsert(store, address, ethBalance.value);
          }
        } else {
          var found := FindOneByQuery(address, BalanceOnly, env.storeReadOk);
          if found.Ok? {
            ethBalance := Some(found.value.ethBalance);
            SetEthBalanceCache(address, found.value.ethBalance, env.cacheWrite);
          }
          // a NOT_FOUND or a rejected store read is caught and logged
        }
      }
      result := Resolved(ethBalance);
      SearchKeepsWindow(t, prefix, address, env);
    }

    /**
     * One callback of the reconciliation timer. Returns whether it cleared
     * the timer.
     */
    method PollReceipt(p: Poll) returns (cleared: bool)
      requires Valid()
      modifies this
      ensures Valid()
      ensures TickOutcome(Tiers(), cleared) == Tick(old(Tiers()), prefix, p)
    {
      cleared := false;
      if p.receipt.None? {
        return;
      }
      var from, to := p.receipt.value.from, p.receipt.value.to;
      if p.fromBalance.Failed? || p.toBalance.Failed? {
        return;  // Promise.all rejects and the callback ends
      }
      var fromEthBalance, toEthBalance := p.fromBalance.s, p.toBalance.s;
      // both upserts run inside one transaction, which commits or rolls back as a whole
      var staged := Upsert(store, from, fromEthBalance);
      staged := Upsert(staged, to, toEthBalance);
      if !p.transactionOk {
        return;  // the rejected transaction ends the callback before any cache write
      }
      store := staged;
      SetEthBalanceCache(from, fromEthBalance, p.fromWrite);
      SetEthBalanceCache(to, toEthBalance, p.toWrite);
      cleared := true;
    }

    /**
     * `handleEthBalanceEvent({ transactionHash })`: the timer's callbacks,
     * one per element of `polls`, run in order until one clears the timer.
     * Returns whether the timer was cleared and how many callbacks ran.
     */
    method HandleEthBalanceEvent(event: PendingTransactionEvent, polls: seq<Poll>) returns (cleared: bool, ticks: nat)
      requires Valid()
      modifies this
      ensures Valid()
      ensures TickOutcome(Tiers(), cleared) == RunPolls(old(Tiers()), prefix, polls)
      ensures ticks <= |polls|
      ensures cleared ==> 0 < ticks && Settles(polls[ticks - 1])
      ensures !cleared ==> ticks == |polls|
    {
      ghost var t := Tiers();
      cleared, ticks := false, 0;
      while !cleared && ticks < |polls|
        invariant Valid()
        invariant ticks <= |polls|
        invariant cleared ==> 0 < ticks && Settles(polls[ticks - 1])
        invariant cleared ==> RunPolls(t, prefix, polls) == TickOutcome(Tiers(), true)
        invariant !cleared ==> RunPolls(t, prefix, polls) == RunPolls(Tiers(), prefix, polls[ticks..])
        decreases |polls| - ticks
      {
        assert polls[ticks..][0] == polls[ticks];
        assert polls[ticks..][1..] == polls[ticks + 1..];
        TickNoOpUnlessSettled(Tiers(), prefix, polls[ticks]);
        cleared := PollReceipt(polls[ticks]);
        ticks := ticks + 1;
      }
    }
  }

  /** A NOT_FOUND from `findOneByQuery` that reaches the exception filter is answered with HTTP 200 and code 404. */
  lemma NotFoundReply(store: Store, address: string, select: Select)
    requires address !in store
    ensures var e := BalanceSpec.FindOneByQuery(store, address, select, true).error.exception;
            ExceptionFilter.Catch(ExceptionFilter.Exception(
              ExceptionFilter.OtherHttpException, "HttpException", ExceptionFilter.Str(e.message), e.status, None))
            == ExceptionFilter.Reply(200, 404, ADDRESS_NOT_FOUND)
  {
  }
}
