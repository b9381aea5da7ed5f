# Verified model of the Riabow DEX backend's bookkeeping protocols

This project models the parts of the backend whose correctness does not show in any single
function body: query rewrites, small concurrent protocols, incremental aggregates and sweep
arithmetic. `dafny verify dfyconfig.toml` checks everything.

| file | component |
|---|---|
| `Keyset.dfy`, `Sql.dfy` | sort keys, merge and top-k algebra; the meaning of `ORDER BY`/`LIMIT`/`OFFSET`, `WHERE`, `LEFT JOIN LATERAL` |
| `Cursor.dfy` | the page cursor `<millis>_<uuid>`, with its decimal and hexadecimal readers and writers |
| `Account.dfy`, `CursorWalk.dfy`, `Listings.dfy` | `GET /account/orders` and `/account/trades`; following `next_cursor` to the end; what the pages contain, row by row |
| `Income.dfy` | `GET /fapi/v1/income` |
| `ListenKeys.dfy` | POST, PUT, DELETE and login with a listenKey, interleaved command by command |
| `VolumeCache.dfy` | the single-flight volume cache |
| `Leaderboard.dfy` | the incremental referral leaderboard |
| `Utf8.dfy`, `HmacAuth.dfy` | API-key signature checking |
| `Slippage.dfy` | the simulated order-book sweep |
| `RateLimiter.dfy` | the fixed-window rate limiter |
| `OrderbookCache.dfy` | the order-book cache over two sorted sets |
| `Session.dfy`, `Candles.dfy` | the WebSocket session and the one-minute candles |

## How it is modelled

- A database table is a list of rows. `ORDER BY ... LIMIT ... OFFSET` is the relation `Sql.Page`, which leaves the order of
  rows with equal keys open; with unique `(created_at, id)` it is proved to be a function. Timestamps are microseconds.
- A protocol is a state and a total step function; a run is any list of actions, so every theorem about `Run` quantifies over all
  interleavings. Where the source keeps the state in shared maps, a class has those maps as fields and its methods are proved to
  perform exactly the step.
- Every Redis command is one atomic step and a failed command has no effect. Random listenKeys are fresh. HMAC, token checks and
  signature recovery are arbitrary functions. Clocks, generated keys, query results and the labels of the `order_status` enum are parameters.
- Decimals and `f64` values are reals or scaled integers. Texts that are hashed or decoded are UTF-8 bytes.
- The formats of `i64`, `u64`, UUID and date-time texts, and lossy UTF-8 decoding, follow the Rust libraries the source calls.

## Where the code and its comments differ

- A cursor keeps whole milliseconds, so "keyset" paging can lose rows: `CursorWalk.WalkCompleteIff` says exactly when,
  `CursorWalk.SubMillisecondRowLost` shows two rows for which it happens.
- "Exactly one listenKey per user" fails with DELETE or expiry. `ListenKeys.DeleteAllowsTwoKeys` and
  `ListenKeys.ExpiryAllowsTwoKeys` are runs with two live keys. `ListenKeys.OneLiveRunIff` says exactly which runs keep the rule,
  `ListenKeys.KeptEntryOneKey` what a user can do to be safe.
- The leaderboard upsert and the watermark update are separate statements; if only the first succeeds the window is counted again.
  `Leaderboard.ExactIff` says for which runs a balance is right, `Leaderboard.RetriedWindow` shows one for which it is not.
- `set_bid`/`set_ask` with amount zero are meant to remove a level but name it by a bare price, which is never a member
  (`OrderbookCache.ZeroAmountRemovesNothing`). A depth of zero reads the whole side.
- The rate limiter is described as a sliding window; it is a fixed window. `RateLimiter.SlidingWindowIff` says exactly when the
  sliding bound holds; twice the limit is reached under every configuration (`RateLimiter.TwiceIsReached`). Its clean-up runs on a
  clone that has its own entries, so the limiter never drops any; `RateLimiter.CleanupIsInvisible` shows that decisions would be the
  same if it did. The module is commented out (`backend/src/auth/mod.rs:4`).
- Rejecting an API-key signature logs the first bytes of the signature and the payload and panics if the cut falls inside a
  character: `HmacAuth.CrashedIff`, `HmacAuth.AsciiNeverCrashes`.
- `balances` is pushed to subscribers of a channel that no client can subscribe to (`Session.BalanceUpdatesNeverPushed`).
- `income` applies the symbol to PnL and funding only, and the time window to commissions only.
- Candle minutes round towards zero before 1970 (`Candles.BucketsAreMinutesIff`).
- The recv window is 60 seconds, not the 5 seconds of the function's comment.

## Model

| member | source | states |
|---|---|---|
| Account.TradesServePages | backend/src/api/handlers/account.rs:743-931 | the two separately limited maker and taker branches, merged by UNION ALL, joined and cut, give the same rows, total and next cursor as one `maker OR taker` query, for every limit, offset, symbol and cursor |
| Account.OrdersServePages | backend/src/api/handlers/account.rs:497-635 | the orders query answers exactly with pages of the user's matching orders; a malformed cursor, a negative limit or offset and a status that is no label of the enum are errors |
| Account.BranchesPartition | backend/src/api/handlers/account.rs:800-828 | the two branches hold each of the user's trades once; a self-trade is not counted twice |
| Account.UnionPage | backend/src/api/handlers/account.rs:749-875 | cutting both branches to offset + limit rows before the union loses nothing |
| Account.FirstPageMeaning | backend/src/api/handlers/account.rs:615-635 | a first page is the rows after the offset, a next cursor appears exactly if rows remain, and the reported total is exact up to one row past the page |
| Account.TradesShowOwnPnl | backend/src/api/handlers/account.rs:850-864 | a trade is never shown with another account's realised PnL, and an event recorded for that very trade wins over one matched by time |
| Listings.OrdersListing | backend/src/api/handlers/account.rs:497-635 | row by row: the errors; otherwise the newest orders that are the user's own, have the symbol and status asked for and lie behind the cursor, newest first, 50 by default and at most 200; a next cursor exactly if one was left out |
| Listings.TradesListing | backend/src/api/handlers/account.rs:716-931 | the same for the trades the user is maker or taker of, each once |
| Listings.OrdersWalkShowsAll | backend/src/api/handlers/account.rs:497-635 | a walk shows only the user's matching orders, and all of them if none share a millisecond |
| Listings.TradesWalkShowsAll | backend/src/api/handlers/account.rs:716-931 | the same for trades |
| Listings.ListedPnl | backend/src/api/handlers/account.rs:850-864 | a trade shows an event exactly if the user has one recorded for it, or for none with its symbol within five seconds; its own first, then the nearest |
| Sql.LeftJoinKeepsRows | backend/src/api/handlers/account.rs:850-864 | the lateral join with LIMIT 1 neither adds, drops nor reorders rows |
| Cursor.CursorRoundTrip | backend/src/api/handlers/account.rs:195-205 | reading a printed cursor gives the key with its time cut down to milliseconds, before and after 1970, for every UUID |
| Cursor.CursorIff | backend/src/api/handlers/account.rs:195-201 | exactly the texts that spell a representable key in whole milliseconds are accepted: signed decimal digits, an underscore, a UUID in one of four forms in any case |
| Cursor.ParsedCursorIsCanonical | backend/src/api/handlers/account.rs:195-201 | every spelling the parser accepts denotes a key that survives printing and reading |
| Cursor.CursorsAgree | backend/src/api/handlers/account.rs:203-205 | two keys share a cursor exactly when they agree up to the lost microseconds |
| CursorWalk.WalkIsPages | backend/src/api/handlers/account.rs:508-635 | following next cursors from a first page at any offset ends, and there is exactly one such walk |
| CursorWalk.WalkNeverRepeats | backend/src/api/handlers/account.rs:559-635 | a walk is strictly newest first, so no row appears twice, whatever the timestamps |
| CursorWalk.WalkCompleteIff | backend/src/api/handlers/account.rs:203-205 | a walk shows every row exactly when at each page break the next row lies past the millisecond cursor |
| CursorWalk.AlignedWalkComplete | backend/src/api/handlers/account.rs:559-635 | with whole-millisecond timestamps a walk shows everything from its offset on, in max(1, ceil(n/limit)) pages |
| CursorWalk.SubMillisecondRowLost | backend/src/api/handlers/account.rs:203-205 | two rows in one millisecond, one per page: a client that follows the cursor gets the newer row and an empty page, unless the older lies on the full millisecond |
| CursorWalk.OrdersWalk | backend/src/api/handlers/account.rs:497-635 | the orders endpoint as written: exactly one walk, none for an unknown status; strictly newest first, page sizes, completeness condition and aligned page count |
| CursorWalk.TradesWalk | backend/src/api/handlers/account.rs:716-931 | the same for the rewritten trades endpoint |
| Income.IncomeIsTopOfUnion | backend/src/api/handlers/developer_account.rs:423-588 | although every stream and commission leg was cut, for every limit and income type the response is newest first with the times of the newest items of the uncut union, and comes from it |
| Income.UnionMeaning | backend/src/api/handlers/developer_account.rs:432-562 | row by row: the union holds exactly the user's PnL and funding events with the symbol asked for and the fees, by side, of its trades in the time window, as far as asked for |
| Income.ResponseMeaning | backend/src/api/handlers/developer_account.rs:430-588 | at most 100 items by default and 1000 at all, newest first by milliseconds, and all of the union if there are fewer |
| Income.SortIsStable | backend/src/api/handlers/developer_account.rs:583-586 | simultaneous items stay in the order they were collected in |
| Income.CommissionTop | backend/src/api/handlers/developer_account.rs:548-562 | the twice-cut commission union keeps the newest times of both legs |
| Income.Assemble | backend/src/api/handlers/developer_account.rs:467-588 | the pushing loops, stable sort and truncation compute the specified list |
| ListenKeys.OwnedRun | backend/src/api/handlers/developer_listen_key.rs:60-219 | in every interleaving with DELETE, expiry and failures, each entry pairs a key with the user whose POST minted it |
| ListenKeys.AnswersAreOwn | backend/src/api/handlers/developer_listen_key.rs:60-219 | no answer hands one user's key or address to another |
| ListenKeys.AnswersWereStored | backend/src/api/handlers/developer_listen_key.rs:60-219 | in every run, whatever fails: a key is answered only to a POST or PUT whose caller's forward entry held it, an address only to a login whose key was live for it, then or earlier |
| ListenKeys.NothingOutlivesItsDeadline | backend/src/api/handlers/developer_listen_key.rs:31-31 | in every run entries end at their deadline, at most 3600 seconds away |
| ListenKeys.OneLiveKey | backend/src/api/handlers/developer_listen_key.rs:109-164 | without DELETE and expiry, even when commands fail, a live key is the one its owner's forward entry names, so no user has two |
| ListenKeys.OneLiveKeyWithinTtl | backend/src/api/handlers/developer_listen_key.rs:31-164 | hence at most one live key in any run shorter than the TTL without DELETE |
| ListenKeys.PostIsIdempotent | backend/src/api/handlers/developer_listen_key.rs:104-193 | if moreover no command fails, all POSTs and PUTs of a user return the same key |
| ListenKeys.MirrorBrokenIff | backend/src/api/handlers/developer_listen_key.rs:109-219 | a step leaves a live key that its owner's forward entry does not name exactly when it drops a forward entry whose key stays live, or publishes a key whose claim was lost |
| ListenKeys.SecondKeyIff | backend/src/api/handlers/developer_listen_key.rs:109-219 | a step breaks "exactly one listenKey" exactly when it publishes the key of a POST whose user has another live key |
| ListenKeys.OneLiveRunIff | backend/src/api/handlers/developer_listen_key.rs:109-219 | a run with DELETE, expiry and failures keeps the rule at every moment exactly if no step does that |
| ListenKeys.SecondKeyCause | backend/src/api/handlers/developer_listen_key.rs:109-219 | a second key goes back to a dropped forward entry or a lost claim, at that step or earlier |
| ListenKeys.KeptEntryOneKey | backend/src/api/handlers/developer_listen_key.rs:109-219 | whatever others do, a user whose forward entry is never taken away has at most one live key |
| ListenKeys.ExpiryAllowsTwoKeys | backend/src/api/handlers/developer_listen_key.rs:118-164 | for any delay between the two writes of a POST, expiry alone gives a user two live keys |
| ListenKeys.DeleteAllowsTwoKeys | backend/src/api/handlers/developer_listen_key.rs:118-219 | a concrete run with DELETE that ends with two live keys of one user |
| ListenKeys.KeyStaysLive | backend/src/api/handlers/developer_listen_key.rs:118-219 | a live key keeps its owner and lives to its deadline unless its owner deletes it |
| ListenKeys.KeepaliveLastsTtl | backend/src/api/handlers/developer_listen_key.rs:60-68 | one EXPIRE of a live key keeps it live and resolving to its owner for the whole TTL |
| ListenKeys.UsersAreIndependent | backend/src/api/handlers/developer_listen_key.rs:60-219 | removing the arrivals and commands of all requests that are not about a user changes neither its entries nor its answers nor logins with its keys |
| ListenKeys.PostAmongOthers | backend/src/api/handlers/developer_listen_key.rs:104-164 | a whole POST, whichever of its commands fail and whatever other users do meanwhile: its answer, and what it leaves of the caller's entries; a failed SET NX or GET is an error and changes nothing |
| ListenKeys.PutAmongOthers | backend/src/api/handlers/developer_listen_key.rs:171-192 | the same for PUT |
| ListenKeys.DeleteAmongOthers | backend/src/api/handlers/developer_listen_key.rs:198-219 | the same for DELETE |
| ListenKeys.LoginAmongOthers | backend/src/api/handlers/developer_listen_key.rs:60-68 | the same for a login with a key, sent by anyone |
| ListenKeys.DeleteRevokes | backend/src/api/handlers/developer_listen_key.rs:198-219 | hence a DELETE without failures leaves its caller without a live key |
| ListenKeys.Server.Handle | backend/src/api/handlers/developer_listen_key.rs:60-219 | the handlers, command by command on the shared maps, perform exactly the modelled steps |
| VolumeCache.OneQueryPerSlot | backend/src/utils/user_volume.rs:28-106 | never two queries under way on one slot |
| VolumeCache.QueriesSpaced | backend/src/utils/user_volume.rs:97-104 | a query begins on a slot only a full TTL after the previous completed one ended |
| VolumeCache.UserQueriesSpaced | backend/src/utils/user_volume.rs:28-106 | without an invalidation this holds for all queries of a user, however many reads arrive |
| VolumeCache.NoStaleAnswer | backend/src/utils/user_volume.rs:118-127 | a read that starts after an invalidation returned never answers with a query begun before it, whatever was in flight |
| VolumeCache.ReadsAnswerOwnQuery | backend/src/utils/user_volume.rs:82-106 | a read answers with the result of a completed query for its own user |
| VolumeCache.AnswersAreFresh | backend/src/utils/user_volume.rs:97-105 | in every run an answer is younger than the TTL when it is given |
| VolumeCache.FinishedReadsHoldNothing | backend/src/utils/user_volume.rs:82-106 | in every run a locked mutex belongs to a read that is looking at the entry or querying; returned and dropped reads hold none |
| VolumeCache.WaitingReadGetsMutex | backend/src/utils/user_volume.rs:82-95 | a waiting read gets the mutex at its next step once no read uses the slot |
| VolumeCache.ReadCompletes | backend/src/utils/user_volume.rs:82-106 | in every run a read that finds its slot free answers: from an entry younger than 300 seconds without a query, otherwise with what one new query returns, which it leaves cached |
| VolumeCache.Cache.GetVolumes | backend/src/utils/user_volume.rs:82-106 | the read, part by part on the shared map and slots, performs exactly the modelled steps |
| VolumeCache.Cache.InvalidateUser | backend/src/utils/user_volume.rs:125-127 | invalidation only removes the slot from the map |
| Leaderboard.TableIsExact | backend/src/services/referral_leaderboard.rs:29-98 | with rows visible within ten seconds, after any run without a failed watermark update the table equals the from-scratch sums up to the watermark and up to the latest cutoff, and the watermark never moved back |
| Leaderboard.SplittingIsIrrelevant | backend/src/services/referral_leaderboard.rs:29-98 | how the time line was cut into windows, and which upserts failed and were retried, does not matter |
| Leaderboard.NothingElseGoesWrong | backend/src/services/referral_leaderboard.rs:29-98 | in every run, whatever statements fail and whenever rows become visible: balance plus what was passed over equals the true total plus what was added again |
| Leaderboard.ExactIff | backend/src/services/referral_leaderboard.rs:7-14 | a balance is right exactly when as much was passed over as was added again |
| Leaderboard.FailedWatermarkCountsTwice | backend/src/services/referral_leaderboard.rs:65-94 | with prompt rows, in every run, a balance exceeds the true total by exactly the windows whose upsert succeeded and whose watermark update failed |
| Leaderboard.RetriedWindow | backend/src/services/referral_leaderboard.rs:65-94 | one failed watermark update followed by a completed cycle counts the failed window twice |
| Leaderboard.CycleMovesIff | backend/src/services/referral_leaderboard.rs:29-65 | a cycle does something exactly if its existence query sees a row after the watermark and ten seconds old; without a fault the watermark then moves there |
| Leaderboard.ScratchOfRow | backend/src/services/referral_leaderboard.rs:66-80 | the from-scratch sums grow row by row by the commission of the row's referrer |
| Leaderboard.ReferralLeaderboard.RunIncremental | backend/src/services/referral_leaderboard.rs:29-98 | the worker's statements perform exactly the modelled cycle |
| HmacAuth.RawSigningAccepted | backend/src/auth/middleware.rs:62-200 | a client that signs the raw pairs followed by the body and then percent-encodes is accepted within 60 000 ms either way, with the signature pair anywhere |
| HmacAuth.EncodedSigningAccepted | backend/src/auth/middleware.rs:110-150 | a client that signs the query as sent followed by the body is accepted too |
| HmacAuth.AcceptedIff | backend/src/auth/middleware.rs:62-208 | for any signature text the verdict depends only on the clock, 60 000 ms either way, and on the parameters as sent or raw, each followed by a body that is text |
| HmacAuth.RejectedIff | backend/src/auth/middleware.rs:62-108 | which of the errors for a missing signature, a missing timestamp and the window a request gets |
| HmacAuth.CrashedIff | backend/src/auth/middleware.rs:196-210 | rejecting a timely request panics exactly when the logged part of the signature or of the received payload ends inside a character |
| HmacAuth.AsciiNeverCrashes | backend/src/auth/middleware.rs:62-210 | which no request with ASCII query and body causes |
| HmacAuth.ScanSigned | backend/src/auth/middleware.rs:67-87 | the server reads back the signature, the last timestamp and the other pairs in order |
| HmacAuth.TimestampRead | backend/src/auth/middleware.rs:67-87 | the timestamp is the last decimal one of 64 bits; other text is none |
| HmacAuth.EmptyPairsIgnored | backend/src/auth/middleware.rs:72-75 | empty pairs of a query do not matter |
| HmacAuth.BareParameter | backend/src/auth/middleware.rs:176-184 | a parameter without `=` is decoded as one with an empty value |
| HmacAuth.Vocabulary | backend/src/auth/middleware.rs:72-80 | the separators and the two reserved names are those of the text `&`, `=`, `signature`, `timestamp` |
| HmacAuth.DecodeInverts | backend/src/auth/middleware.rs:152-174 | percent-decoding undoes every encoder that escapes at least `%` and `+`, exactly on well-formed UTF-8 |
| HmacAuth.DecodeOfEncoder | backend/src/auth/middleware.rs:152-174 | decoding undoes a percent-encoder that leaves any bytes but `%` and `+`, with digits in either case |
| HmacAuth.PercentDecodeLoop | backend/src/auth/middleware.rs:152-174 | the decoding loop ends, its buffer never outgrows the input, and it computes the decoder |
| HmacAuth.VerifySignature | backend/src/auth/middleware.rs:62-208 | the scanning and decoding loops compute the specified verdict, including the panic while logging a mismatch |
| Utf8.LossyIdentityIff | backend/src/auth/middleware.rs:173-173 | lossy decoding changes nothing exactly on well-formed text |
| Utf8.ValidIff | backend/src/auth/middleware.rs:173-173 | well-formed are exactly the encodings of sequences of Unicode scalar values |
| Utf8.LossyCopiesText | backend/src/auth/middleware.rs:173-173 | lossy decoding copies text up to the first ill-formed part |
| Utf8.LossyReplaces | backend/src/auth/middleware.rs:173-173 | where no character starts, one to three bytes become U+FFFD |
| Slippage.FilledIsMin | backend/src/utils/slippage.rs:31-49 | the fill is the amount, or the whole usable depth if that is less |
| Slippage.SweepIsCheapest | backend/src/utils/slippage.rs:31-49 | on ascending levels no allocation of the same amount costs less |
| Slippage.SweepEarnsMost | backend/src/utils/slippage.rs:31-49 | on descending levels no allocation of the same amount earns more |
| Slippage.SweepChargesLevels | backend/src/utils/slippage.rs:31-49 | on every book the notional is what each level charges for what the levels before it leave of the order |
| Slippage.SweepInParts | backend/src/utils/slippage.rs:31-49 | sweeping a + b is sweeping a and then b on what is left |
| Slippage.AverageIsMonotone | backend/src/utils/slippage.rs:51-55 | a larger order has no better average price |
| Slippage.SaleAverageFalls | backend/src/utils/slippage.rs:51-55 | on descending levels a larger sale has no better average |
| Slippage.AverageInRange | backend/src/utils/slippage.rs:51-55 | the average lies between the best and the worst touched price |
| Slippage.SlippageIsMonotone | backend/src/utils/slippage.rs:17-56 | against a positive reference at or below the best ask, slippage never falls as the order grows |
| Slippage.SaleSlippageIsMonotone | backend/src/utils/slippage.rs:17-56 | against a reference at or above the best bid, a sale's slippage never falls as it grows |
| Slippage.SlippageIsDistance | backend/src/utils/slippage.rs:17-26 | for every book and reference: slippage is the distance of the average from the reference, relative to the reference and without sign; zero if nothing fills or the reference is zero |
| Slippage.SimulateFill | backend/src/utils/slippage.rs:31-57 | the loop computes the sweep, skipping levels that do not parse or have no size |
| RateLimiter.AtMostTwicePerInterval | backend/src/auth/rate_limit.rs:78-113 | in any closed interval as long as a window, with other clients and clean-ups in between, a client gets at most twice the limit |
| RateLimiter.AtMostLimitPerWindow | backend/src/auth/rate_limit.rs:78-113 | within one window at most the limit passes |
| RateLimiter.SlidingWindowIff | backend/src/auth/rate_limit.rs:1-5 | over an interval shorter than a window the limit holds for all continuations exactly if the client's window at its start is over, covers the interval, or is used up |
| RateLimiter.TwiceIsReached | backend/src/auth/rate_limit.rs:89-93 | under every configuration twice the limit is reached in a closed interval of one window |
| RateLimiter.NthRequestOfWindow | backend/src/auth/rate_limit.rs:95-106 | the decision on the n-th request of a window: with n reduced to 32 bits, accepted within the limit with what is left, otherwise rejected, and in both cases the whole seconds to the window's end |
| RateLimiter.RetryAfterSuffices | backend/src/auth/rate_limit.rs:98-106 | a rejected client that waits for the time it was told is accepted again, whatever other clients and clean-ups do meanwhile |
| RateLimiter.CleanupIsInvisible | backend/src/auth/rate_limit.rs:61-73 | dropping expired entries at any moments changes no decision |
| RateLimiter.ClientsAreIndependent | backend/src/auth/rate_limit.rs:78-93 | one client's decisions do not depend on other clients' requests |
| RateLimiter.Limiter.CheckRateLimit | backend/src/auth/rate_limit.rs:78-113 | the check updates the shared map and decides as specified |
| RateLimiter.Limiter.CleanUp | backend/src/auth/rate_limit.rs:66-72 | one clean-up keeps the unexpired entries of its own copy and does not touch the shared map |
| OrderbookCache.NeverAMixture | backend/src/cache/orderbook_cache.rs:184-215 | at every moment of a write each side is the old one or holds only new levels |
| OrderbookCache.WriteReplaces | backend/src/cache/orderbook_cache.rs:184-215 | after a write a side is exactly the new non-zero levels, whatever was cached before |
| OrderbookCache.PartialWrite | backend/src/cache/orderbook_cache.rs:184-215 | during a write the cache holds exactly the non-zero levels written so far, bids first, in the order given |
| OrderbookCache.ReadAfterWrite | backend/src/cache/orderbook_cache.rs:82-98 | reading depth >= 1 then gives the best levels, best first, whatever the input order |
| OrderbookCache.ReadDuringWrite | backend/src/cache/orderbook_cache.rs:142-158 | a read during a write returns levels of the old side only or of the new side only |
| OrderbookCache.LimitZeroReadsAll | backend/src/cache/orderbook_cache.rs:82-86 | a limit of zero reads every level of the side, once each |
| OrderbookCache.NoBareMember | backend/src/cache/orderbook_cache.rs:52-79 | no sequence of commands ever makes a bare price a member |
| OrderbookCache.ZeroAmountRemovesNothing | backend/src/cache/orderbook_cache.rs:60-62 | in every cache that commands can produce, setting a level to zero on its own changes nothing |
| OrderbookCache.Books.SetOrderbook | backend/src/cache/orderbook_cache.rs:184-215 | the write succeeds exactly if no command fails, and leaves and passes through exactly the caches of the executed commands, one by one |
| Session.SessionIsSafe | backend/src/websocket/handler.rs:346-1260 | authenticated exactly when an address is held and never lost; only known channels, private ones only when authenticated; each private frame is about the address held at that step |
| Session.AddressIsVouched | backend/src/websocket/handler.rs:1021-1190 | the address of a session was vouched for by one of its messages |
| Session.StepVouched | backend/src/websocket/handler.rs:1182-1191 | an authenticated session changes identity only by an explicit login |
| Session.LoginIff | backend/src/websocket/handler.rs:1021-1190 | in every session a login takes the address of valid credentials and confirms it, and without them changes nothing |
| Session.SubscribeIff | backend/src/websocket/handler.rs:1192-1640 | in every session which subscriptions are confirmed, which error others get, and what changes; leaving is always confirmed |
| Session.OwnChannelsOnly | backend/src/websocket/handler.rs:1246-1260 | a channel that names an address is open exactly to the session of that address, in any case |
| Session.SubscriptionsAreHistory | backend/src/websocket/handler.rs:1192-1634 | subscribed are exactly the channels whose last confirmed subscription was not cancelled since |
| Session.LowerIff | backend/src/websocket/handler.rs:1246-1260 | addresses agree in lower case exactly if they differ in case only |
| Session.SubscribersAreServed | backend/src/websocket/handler.rs:559-1260 | a confirmed subscription serves until it is cancelled, through any messages: an event is pushed exactly if it is about the address held, and every tick pushes that address's positions, balance and orders |
| Session.BalanceUpdatesNeverPushed | backend/src/websocket/handler.rs:629-656 | the balance arm never sends anything |
| Session.NamesBrokenIff | backend/src/websocket/handler.rs:1246-1260 | channels that name an address name the session's own at every moment of a session exactly if no message changes the address while one is subscribed |
| Session.Connection.HandleClientMessage | backend/src/websocket/handler.rs:1007-1641 | the message handler updates the session's three variables exactly as specified |
| Candles.CandlesAreExact | backend/src/websocket/handler.rs:1823-1842 | each candle is first, highest, lowest and last price and summed amount of exactly its trades, and no other candle exists |
| Candles.VolumeIsConserved | backend/src/websocket/handler.rs:1823-1842 | the volumes of all candles add up to the traded amount |
| Candles.BucketsAreMinutesIff | backend/src/websocket/handler.rs:1823-1823 | candles sum up true minutes exactly when no trade has a negative time off a full minute |
| Candles.KlineStore.ProcessInternalTrade | backend/src/websocket/handler.rs:1751-1842 | validation, the two statements and the upsert keep the table equal to the fold of the recorded trades |
| Keyset.TopCongruence | backend/src/api/handlers/account.rs:749-875 | the first n of a union depend only on the first n of its parts |

## Left out

- HTTP extraction, JSON, SQL execution, connection pools, tracing, metrics, configuration and internationalisation.
- HMAC, Keccak, ECDSA recovery and JWT: arbitrary functions here. Log lines are taken to be written.
- Redis failures in which a command took effect but its reply was lost and it was retried.
- 64-bit overflow of `offset + limit + 1` and of the counters in responses; only the rate limiter's 32-bit counter wraps in the model.
- The columns a trade or order response derives from one row (side, fee, order id, fallback prices): each is read off a single row.
- Rounding of decimals and doubles, `NaN` and infinite prices of internal trades, and texts outside ASCII in WebSocket addresses.
- Order-book levels removed by price (`remove_bid`, `remove_ask`), spread and mid price, and the JSON snapshot; two writers of one symbol.
- Snapshots sent by tasks spawned at subscription time, public market-data arms, and lagging or closed broadcast channels.
- Authentication before signature checking (key lookup, IP whitelist, permissions), and the rate limiter's HTTP layer.
- A rate limiter with a window of zero seconds: its clean-up timer does not accept one.
- Matching, positions, liquidation, ADL, funding, the spot engine and the external proxies.
- VolumeCache.NoStaleAnswer: speaks of queries begun, not of the database snapshot each of them reads.
