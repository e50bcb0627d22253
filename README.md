# ETH balance service — Dafny model

This project models the balance logic of a NestJS service that tracks ETH balances of user addresses. It covers two files.

- `UserAddressService` (src/modules/user-address/user-address.service.ts):
  - a cache-aside read, `searchEthBalanceV1`. It tries Redis first, then the ledger (Web3), then the `userAddress` table (Prisma). It writes a ledger value to the store and a store value to the cache.
  - a jittered cache expiry, `_setEthBalanceCache`, and the cache key shared with `_getEthBalanceCache`.
  - the row lookup `findOneByQuery` and the upsert used by both write paths.
  - the reconciliation timer of `handleEthBalanceEvent`. Each callback polls for the transaction receipt. Once the receipt is there, the callback re-reads both parties' balances, upserts both rows in one transaction, caches both and clears the timer.
- `AllExceptionsFilter.catch` (src/common/exception/all-exception.filter.ts): the choice of `{ code, msg }` for a caught exception. The reply is always sent with HTTP 200.

Files:

- `wrappers.dfy` — `Option` (JavaScript `null`) and `Result` (return or throw).
- `exception_filter.dfy` — module `ExceptionFilter`. It holds the exception kinds, the template-literal rendering of a message, `Catch`, and lemmas about branch order.
- `balance_spec.dfy` — module `BalanceSpec`. These are value-level functions for every operation of the service, with lemmas about them: cache key, expiry, `setex`/`get`, upsert, lookup, `Search`, `Tick` and `RunPolls`.
- `user_address_service.dfy` — module `UserAddress`. It holds the class `UserAddressService`, whose `cache` and `store` map fields are changed in place by its methods. Each method is proved equal to its `BalanceSpec` function. Every method keeps the object invariant that cached expiries lie in the 20–40 s window.

How the outside world is represented:

- Redis is a map from the full cache key to `CacheEntry(value, ttl)`.
- The `userAddress` table is a map from address to `Row(ethBalance, userId)`.
- What the ledger does is a parameter: `Balance(s)` when `ethGetBalance` resolves, `Failed` when it rejects. The receipt is `Option<Receipt>`, and a rejected `getTransactionReceipt` is represented by `None`. That is not what the code does: the callback catches none of its rejections (see "## Left out").
- Whether a read or write succeeds is a parameter too. On the read path this covers `redis.get`, the detached upsert, `findUnique` and the fallback's `setex`, bundled as `ReadAnswers`. In reconciliation it covers the store transaction and each `setex`.
- `Math.random()` is an exact real `u` in [0, 1), and the offset is `floor(u * 21) - 10`.
- The local `eth_balance` has JavaScript type `string | null`, modelled as `Option<string>`. The `!eth_balance` test is modelled exactly: `null` and `""` count as a miss, `"0"` does not.
- The timer is modelled as a loop over a sequence of `Poll`s, one per callback. The loop stops once a callback clears the timer.

Behaviour of the code that a reader might not expect, all modelled as written:

- When the address is found nowhere, the read returns `{ eth_balance }` holding `null` (or `""`). It does not signal not-found: the NOT_FOUND thrown by `findOneByQuery` is caught and only logged.
- An empty cached value is a miss. An empty ledger answer also falls through to the store.
- A rejected `redis.get` rejects the whole read, because its await is outside any `try`. A rejected `findUnique` is swallowed like NOT_FOUND.
- In reconciliation, the `if (transaction)` guard before `clearInterval` is always true when it is reached. A null `to` is not inspected.
- Reconciliation takes no distributed lock.
- Cache writes happen only when the store transaction commits. When it fails, the callback ends before any cache write and before `clearInterval`. That rejection is not caught (see "## Left out").
- A BadRequestException is answered with code 500, not 400, because that branch replaces only the message.

## Model

| member | source | states |
|---|---|---|
| `BalanceSpec.RedisKey` | src/modules/user-address/user-address.service.ts:38-51 | the key is the balance prefix followed by the address |
| `BalanceSpec.RedisKeyInjective` | src/modules/user-address/user-address.service.ts:38-51 | two addresses have the same cache key if and only if they are equal, so get and set of one address meet under one key |
| `BalanceSpec.RandomExpire` | src/modules/user-address/user-address.service.ts:52-54 | `floor(random * (max - min + 1)) + min` lies in [-10, 10] |
| `BalanceSpec.RealExpire` | src/modules/user-address/user-address.service.ts:44-55 | the expiry passed to `setex` lies in [EXPIRE-10, EXPIRE+10], the documented 20–40 seconds |
| `BalanceSpec.RealExpireCoversWindow` | src/modules/user-address/user-address.service.ts:52-55 | every whole second in the window is produced by some random draw, so the bounds are tight |
| `BalanceSpec.CacheGet` | src/modules/user-address/user-address.service.ts:41 | `get` returns the stored string when the key exists and null otherwise |
| `BalanceSpec.Setex` | src/modules/user-address/user-address.service.ts:56 | `setex` with a positive expiry stores exactly that entry; other keys are untouched |
| `BalanceSpec.SetBalanceCache` | src/modules/user-address/user-address.service.ts:49-59 | an accepted write leaves the value under the address's key with the jittered expiry; a rejected one (only logged) changes nothing; no other key changes |
| `BalanceSpec.SetThenGet` | src/modules/user-address/user-address.service.ts:38-56 | a set followed by a get of the same address returns the value set; a get of any other address is unaffected |
| `BalanceSpec.SetBalanceCacheKeepsWindow` | src/modules/user-address/user-address.service.ts:45-56 | a balance write keeps every cached expiry inside the window |
| `BalanceSpec.SetBalanceCacheUnchanged` | src/modules/user-address/user-address.service.ts:49-56 | rewriting an entry the cache already holds changes nothing |
| `BalanceSpec.SetBalanceCachePairIdempotent` | src/modules/user-address/user-address.service.ts:157-162 | replaying the two cache writes of a reconciliation leaves the cache as the first pair did |
| `BalanceSpec.Upsert` | src/modules/user-address/user-address.service.ts:98-103 | afterwards the row holds the new balance; an existing row keeps its user id, a missing row is created without one; every other address is unchanged |
| `BalanceSpec.UpsertIdempotent` | src/modules/user-address/user-address.service.ts:146-155 | applying the same upsert twice equals applying it once |
| `BalanceSpec.UpsertLastWins` | src/modules/user-address/user-address.service.ts:146-155 | of two upserts of one address, the second decides the row |
| `BalanceSpec.UpsertCommutes` | src/modules/user-address/user-address.service.ts:146-155 | upserts of different addresses can be applied in either order |
| `BalanceSpec.UpsertUnchanged` | src/modules/user-address/user-address.service.ts:98-103 | upserting the balance a row already holds changes nothing |
| `BalanceSpec.UpsertPairIdempotent` | src/modules/user-address/user-address.service.ts:145-156 | replaying the two upserts of a reconciliation transaction leaves the store as the first run did |
| `BalanceSpec.FindOneByQuery` | src/modules/user-address/user-address.service.ts:66-78 | the store's rejection when `findUnique` rejects; otherwise NOT_FOUND (404, "用户地址不存在") exactly when the address has no row, and the selected columns of that row when it has one |
| `BalanceSpec.SearchRejectsOnlyOnCacheRead` | src/modules/user-address/user-address.service.ts:86-88 | the call rejects if and only if `redis.get` rejects, since that await is outside any `try`; then nothing changes and neither ledger nor store matters |
| `BalanceSpec.SearchCacheHit` | src/modules/user-address/user-address.service.ts:88-90 | when the cache read resolves with a non-empty value, that value is returned as it is; neither tier changes; the ledger answer, the store and the write outcomes do not affect it |
| `BalanceSpec.SearchLedgerPath` | src/modules/user-address/user-address.service.ts:91-106 | on a miss with a non-empty ledger balance `b`, the result is `b` and, when the detached upsert succeeds, the row holds `b`; the cache is not written |
| `BalanceSpec.SearchStoreFallback` | src/modules/user-address/user-address.service.ts:107-117 | on a miss where the ledger fails or answers "", a row that `findUnique` returns is the result and is written to the cache; the store is unchanged |
| `BalanceSpec.SearchTotalMiss` | src/modules/user-address/user-address.service.ts:109-120 | with no cached value and no ledger value, a missing row (NOT_FOUND) or a rejected store read is swallowed: the call resolves with no balance and nothing changes |
| `BalanceSpec.SearchResultProvenance` | src/modules/user-address/user-address.service.ts:85-123 | a non-empty result is always the cached value, the ledger's balance or the row's balance; the read never invents a balance |
| `BalanceSpec.SearchFallbackThenHit` | src/modules/user-address/user-address.service.ts:107-117 | after a read answered from the store with an accepted cache write, the next read whose cache read resolves is a cache hit with the same value and no change, whatever the ledger or store do |
| `BalanceSpec.SearchKeepsWindow` | src/modules/user-address/user-address.service.ts:107-117 | a read keeps every cached expiry inside the window |
| `BalanceSpec.TickNoOpUnlessSettled` | src/modules/user-address/user-address.service.ts:134-167 | a callback whose receipt is null changes nothing and does not clear the timer (:137); a callback whose balance read or transaction rejects ends before any write and before `clearInterval`, and the model also treats it as changing nothing; a callback clears the timer exactly when it settles |
| `BalanceSpec.TickSettled` | src/modules/user-address/user-address.service.ts:139-166 | a settling callback sets the `to` row and (when `from` differs) the `from` row to the fetched balances, caches both through accepted writes, clears the timer, and leaves every other address's row and cache entry alone |
| `BalanceSpec.TickIdempotent` | src/modules/user-address/user-address.service.ts:145-162 | reconciling the same settled transaction twice yields the same rows and cache entries as once |
| `BalanceSpec.TickKeepsWindow` | src/modules/user-address/user-address.service.ts:157-162 | a callback keeps every cached expiry inside the window |
| `BalanceSpec.RunPollsUnsettled` | src/modules/user-address/user-address.service.ts:134-137 | while no callback settles, no callback clears the timer and neither tier changes |
| `BalanceSpec.RunPollsFirstSettled` | src/modules/user-address/user-address.service.ts:134-167 | the outcome of the timer is that of its first settling callback applied to the initial tiers |
| `BalanceSpec.RunPollsStopsWhenCleared` | src/modules/user-address/user-address.service.ts:163-166 | callbacks after the timer is cleared have no effect |
| `UserAddress.UserAddressService.GetEthBalanceCache` | src/modules/user-address/user-address.service.ts:38-42 | rejects exactly when `redis.get` rejects; otherwise returns the entry under the address's key, or null when there is none; nothing changes |
| `UserAddress.UserAddressService.SetEthBalanceCache` | src/modules/user-address/user-address.service.ts:49-59 | the new cache is `SetBalanceCache` of the old one; the store is unchanged; the expiry window invariant is kept |
| `UserAddress.UserAddressService.FindOneByQuery` | src/modules/user-address/user-address.service.ts:66-78 | fails exactly when `findUnique` rejects or the row is missing (then with NOT_FOUND); otherwise returns that row's balance and selected columns; nothing changes |
| `UserAddress.UserAddressService.SearchEthBalanceV1` | src/modules/user-address/user-address.service.ts:85-124 | the call's result (the returned `eth_balance`, or a rejection) and both new tiers are those of `Search` on the old tiers; the invariant is kept |
| `UserAddress.UserAddressService.PollReceipt` | src/modules/user-address/user-address.service.ts:134-167 | one callback changes the tiers as `Tick` does and reports whether it cleared the timer; the invariant is kept |
| `UserAddress.UserAddressService.HandleEthBalanceEvent` | src/modules/user-address/user-address.service.ts:130-168 | running the callbacks until one clears the timer gives the tiers of `RunPolls`; when the timer is cleared, the last callback run settled; otherwise every poll was used |
| `UserAddress.NotFoundReply` | src/modules/user-address/user-address.service.ts:75-76 | the NOT_FOUND of `findOneByQuery`, when handled by the exception filter, is answered with HTTP 200, code 404 and its message |
| `ExceptionFilter.BranchOf` | src/common/exception/all-exception.filter.ts:23-33 | the tests run in a fixed order and exactly one branch applies: BadRequest, then any other HttpException, then a non-HttpException named `ApiError`, then the default |
| `ExceptionFilter.Catch` | src/common/exception/all-exception.filter.ts:17-47 | always HTTP 200. BadRequest gives code 500 and `response.message`. Another HttpException gives `getStatus()` and `message`. `ApiError` gives its `status` and `body.msg` when truthy, else `message`. Anything else gives 500 and `message` |
| `ExceptionFilter.CatchCodeSource` | src/common/exception/all-exception.filter.ts:21-33 | the code is 500 or the exception's own status, and differs from 500 only in the HttpException and ApiError branches |
| `ExceptionFilter.BadRequestIgnoresStatus` | src/common/exception/all-exception.filter.ts:21-24 | a BadRequestException's status never reaches the reply: its code is always 500 |
| `ExceptionFilter.HttpExceptionIgnoresName` | src/common/exception/all-exception.filter.ts:23-33 | an HttpException named `ApiError` takes the HttpException branch; its name and body are ignored |
| `ExceptionFilter.JoinAppend` | src/common/exception/all-exception.filter.ts:43-46 | joining two non-empty message arrays puts one comma between their joined parts, as `${message}` renders an array |
| `ExceptionFilter.BadRequestArrayMessage` | src/common/exception/all-exception.filter.ts:21-46 | a BadRequestException whose `response.message` is an array `xs + ys` is answered with HTTP 200, code 500 and `msg` equal to the joined `xs`, a comma, and the joined `ys` |

## Left out

- Web3, Prisma and Redis themselves are foreign libraries. Their answers, and whether each call the service makes resolves or rejects, are parameters. `String(...)` of the Web3 balance is taken as already done.
- Real-time expiry and eviction of cache entries are not modelled. An entry records the TTL it was written with.
- `Math.random()` is modelled as an exact real, so floating-point rounding is not modelled.
- Concurrency is not modelled:
  - the detached upsert and `setex` calls, which the source does not await, are applied at the point they are issued;
  - overlapping 10 ms timer callbacks and the concurrent `Promise.all` are not modelled. Callbacks run one at a time, and the two balance reads are a pair of inputs.
- Uncaught rejections in the timer callback are not modelled. The `setInterval` callback (src/modules/user-address/user-address.service.ts:134-167) is `async` and has no `try`. So when `getTransactionReceipt` (:135-136), the `Promise.all` of the balance reads (:140-144) or `$transaction` (:145-156) rejects, the result is an unhandled promise rejection. Under Node's default handling this ends the process, and src/main.ts installs no handler for it. The model treats such a callback as one that changes nothing and does not clear the timer. This assumes the process survives the rejection. `Tick`, `TickNoOpUnlessSettled`, `RunPolls`, `RunPollsUnsettled` and `HandleEthBalanceEvent` all rest on that assumption. The loss of the process, and of every other running timer, is not modelled.
- Store keys are compared as exact strings. The `userAddress` table lives in MySQL (src/app.module.ts:33). There, `findUnique` and both `upsert` calls (src/modules/user-address/user-address.service.ts:71-74, :98-103 and :146-155) compare `address` under the column's collation. MySQL's default collations ignore case, so the checksummed and lower-case spellings of one Ethereum address could name a single row. The model treats them as two rows, as the case-sensitive Redis key (:40, :51) does. The Prisma schema is not part of this model, so the collation is unknown.
- BalanceSpec.UpsertCommutes: "different addresses" means different strings. Under a case-insensitive collation, two case variants of one address would not commute.
- A null `to` in a receipt (the source's TODO) is not modelled. `to` is taken to be present.
- The subscription that publishes `{ transactionHash }` (src/modules/user-address/blockchain.service.ts) is not modelled. The receipt of each callback is an input, so `HandleEthBalanceEvent` does not read the hash.
- Distributed locking (src/modules/shared/redlock.service.ts) is not modelled. The reconciliation code never calls it.
- The `id` column of `userAddress` is not modelled, including its place in `_selectAttributes`.
- `src/common/constants` is not part of this model, so the value of `REDIS.ETH_BALANCE.PREFIX` is unknown. It is a constructor parameter of the class. `EXPIRE` is taken as 30 s, the value the doc comment's 20–40 s window implies.
- Logging calls are not modelled: the log formatting in the filter and every logger call in the service.
- ExceptionFilter.Catch: an ApiError whose `status` is `undefined` is not modelled; the code is always an integer. `msg` values other than strings, arrays of strings and `undefined` are not modelled either.
- The filter is not registered in src/main.ts. `NotFoundReply` states what it would answer.
- The controllers, modules, DTOs, Swagger helpers, configuration loading and the user service are wiring or declarations, and are not modelled.
