# Key-value cache with TTL, and customer registration with KYC checks

A Dafny model of two parts of a small Go repository:

- **The redis-like cache** (`redis-cache/redis_cache.go`). It keeps two maps: `data` (key to value) and `ttl` (key to expiry instant). A SET stores the value and records an expiry only for a positive TTL. A GET returns the value unless the current instant is strictly after its expiry. A background sweep deletes every key whose expiry has passed from both maps.
- **The customer side**:
  - the in-memory customer repository, a map from email to customer (`infra/customer_repository.go`);
  - the registration and verification rules of the customer service (`application/customer_service.go`);
  - the KYC adapter, which maps a customer to an external-service request and decides the KYC status from the answers it gets (`infra/kyc_adapter.go`).

The model is sequential. The cache is the class `RedisCache.Cache` with the two map fields. Its methods `Set`, `Get` and `Sweep` take the current instant `now` as an integer; instants and durations are Go's nanoseconds (`RedisCache.Second`). Each method is proved against a function on the value-level `Store` (`Put`, `Lookup`, `Swept`), and the lemmas about those functions state the cache's promises:

- the invariant that every key with an expiry also has a value, kept in every state reachable by SETs, DELs and sweeps;
- the TTL boundary at exactly `now + d`;
- a SET without TTL keeps the earlier expiry;
- the sweep removes exactly the expired keys and is idempotent.

Two request kinds never reply as the code is written: the DEL request, and a GET of a stored key whose expiry has passed before a sweep removes it. The model states this (`RedisCache.DelNeverReplies`, `RedisCache.ExpiredGetNeverReplies`) and then uses the intended behaviour: `Cache.Get` replies nil, and `Cache.Del` removes the key (see Findings).

The customer is the class `Domain.Customer`, shared by reference as in Go. So once the verify flow approves the customer it found by email, the entry held in the repository is approved too. The KYC service seen by the customer service is the concrete `Kyc.KycAdapter`. The external service is left abstract:

- its `Validate` is a function-valued field of the adapter;
- the answers of the parallel `Verify` calls are a parameter `arrivals`, in the order they reach the adapter's channels.

The stub service of `external/kyc_service.go` supplies two facts, `External.StubValidate` (always "pending") and `External.StubVerify` (always "approved": the random status it draws is only logged).

Where the code differs from what a TTL cache is usually expected to do, the model follows the code:

- a SET with TTL 0 does not remove an expiry left from before, so the overwritten value still expires at the old instant (`RedisCache.LookupAfterUntimedPut`, `RedisCacheScenarios.StaleExpiryScenario`);
- expiry uses strict `After`, so a value is still returned at exactly its expiry instant, and the sweep keeps such a key (`RedisCache.LookupAfterTimedPut`, `RedisCache.SweptExactly`);
- the DEL branch and the lazy eviction in GET do not delete anything, and neither ever replies (see Findings);
- the only deletions the code performs are the sweep's.

## Model

| member | source | states |
|---|---|---|
| RedisCache.Cache.constructor | redis-cache/redis_cache.go:32-42 | a new cache has empty `data` and `ttl` and satisfies the invariant |
| RedisCache.Cache.Set | redis-cache/redis_cache.go:56-63 | `data[key]` becomes the value; `ttl[key]` becomes `now + d` only when `d > 0`, otherwise `ttl` is untouched; all other keys keep value and expiry; the invariant is kept |
| RedisCache.Cache.Get | redis-cache/redis_cache.go:65-79 | absent key gives None; a key without expiry or with `now <= expiry` gives its stored value; a key whose expiry `now` is strictly after gives None; no map changes |
| RedisCache.Cache.Sweep | redis-cache/redis_cache.go:122-129 | after visiting every key with an expiry, both maps have lost exactly the keys expired at `now` and nothing else; the invariant is kept |
| RedisCache.Cache.Del | redis-cache/redis_cache.go:109-117 | intended behaviour, not the source's: the key leaves both maps, nothing else changes, the invariant is kept |
| RedisCache.Put | redis-cache/redis_cache.go:57-62 | the key gets the value; it gets expiry `now + d` when `d > 0`, and `ttl` is untouched otherwise; SET keeps "every key in `ttl` is in `data`" |
| RedisCache.Lookup | redis-cache/redis_cache.go:65-79 | the intended GET reply: a value only for a stored key, and then the stored one; a key without expiry is always read back; a key whose expiry has passed gives nil |
| RedisCache.Swept | redis-cache/redis_cache.go:122-129 | the sweep only removes keys; no expiry that `now` is after remains; every stored unexpired key keeps its value; the invariant is kept |
| RedisCache.Removed | redis-cache/redis_cache.go:109-117 | intended DEL: the key is in neither map afterwards, every other entry stays as it was, and the invariant is kept |
| RedisCache.RunConsistent | redis-cache/redis_cache.go:33-62 | every state reached from a consistent one (such as the empty initial one) by any sequence of SETs, intended DELs and sweeps is consistent |
| RedisCache.LookupAfterTimedPut | redis-cache/redis_cache.go:57-75 | after SET with `d > 0` at `now`, GET at `t` returns the value iff `t <= now + d`, so the value is still returned at exactly the expiry instant |
| RedisCache.LookupAfterUntimedPut | redis-cache/redis_cache.go:59-75 | after SET with `d <= 0`, `ttl` is unchanged and GET returns the new value iff the key's earlier expiry (if any) has not passed |
| RedisCache.PutLeavesOtherKeys | redis-cache/redis_cache.go:57-62 | SET on one key leaves every other key's presence, value, expiry and GET reply unchanged |
| RedisCache.LookupLive | redis-cache/redis_cache.go:67-78 | GET returns a value exactly when the key is stored and not expired, and then it returns the stored value: never one whose expiry has passed |
| RedisCache.SweptExactly | redis-cache/redis_cache.go:122-129 | per key: after the sweep it is stored iff it was stored and not expired; it has an expiry iff it had one not yet passed; survivors keep value and expiry |
| RedisCache.SweptIdempotent | redis-cache/redis_cache.go:122-129 | a second sweep at the same instant changes nothing |
| RedisCache.SweptUnobservable | redis-cache/redis_cache.go:65-129 | with the intended GET reply, a sweep at `now` changes no GET reply at `now` or any later instant |
| RedisCache.SweptKeepsImmortal | redis-cache/redis_cache.go:59-61 | a key stored without an expiry survives a sweep at any instant and is still read back |
| RedisCache.ImmortalUntilTouched | redis-cache/redis_cache.go:57-128 | a key stored without an expiry keeps its value, still has no expiry, and is returned by GET at every instant, through any sequence of sweeps and of SETs and DELs of other keys |
| RedisCache.LookupAfterRemoved | redis-cache/redis_cache.go:109-117 | intended DEL: GET of the deleted key gives nil at every instant, and every other key reads as before |
| RedisCache.RemovedIdempotent | redis-cache/redis_cache.go:109-117 | intended DEL: a second DEL changes nothing, and a DEL of an absent key changes nothing |
| RedisCache.DelNeverReplies | redis-cache/redis_cache.go:81-117 | as written, a DEL request never gets its reply, whatever the number of free workers: each DEL handler sends another DEL and waits for it before it can reply, so the result is built into `DelReplies` and this lemma spells it out |
| RedisCache.ExpiredGetNeverReplies | redis-cache/redis_cache.go:67-71 | as written, a GET of a stored key whose expiry has passed, before a sweep removes it, never replies |
| RedisCache.GetAsWrittenElsewhere | redis-cache/redis_cache.go:65-79 | as written, a GET of any other key replies, with the intended reply |
| RedisCache.DelReplies | redis-cache/redis_cache.go:81-83 | the DEL branch as written, calling the public `Del` (lines 109-117): a reply needs at least one free worker to take the inner DEL; that it never replies at all is `RedisCache.DelNeverReplies` |
| RedisCache.GetAsWritten | redis-cache/redis_cache.go:65-79 | the GET branch as written: whenever it replies, the reply is the intended one (`Lookup`); that it never replies on a stored, expired, unswept key is `RedisCache.ExpiredGetNeverReplies`, and that it replies on every other key is `RedisCache.GetAsWrittenElsewhere` |
| RedisCache.SweepObservableAsWritten | redis-cache/redis_cache.go:67-129 | as written, the sweep is observable: a GET of an expired key sent before the sweep never replies and wedges the cache; a GET sent after the sweep instead, on a cache not yet wedged, replies nil |
| RedisCacheScenarios.ExpiryScenario | redis-cache/redis_cache_test.go:54-81 | "key100" set for one second is read back at one second and is gone after the sweep at two seconds; "key101" set with TTL 0 is still "value101" |
| RedisCacheScenarios.DelScenario | redis-cache/redis_cache.go:109-117 | intended DEL: "a" set without TTL reads "1", and after two DELs GET gives nil |
| RedisCacheScenarios.StaleExpiryScenario | redis-cache/redis_cache.go:56-61 | a key set for five seconds and overwritten with TTL 0 is still removed by a sweep after the old expiry |
| Domain.Customer.constructor | domain/customer.go:10-18 | a new customer has the given details and an empty KYC status |
| Repository.CustomerRepository.constructor | infra/customer_repository.go:17-22 | a new repository holds no customers |
| Repository.CustomerRepository.Save | infra/customer_repository.go:28-34 | the map gets the customer under its email, replacing any earlier entry, all other entries unchanged; the error is always nil |
| Repository.CustomerRepository.FindByEmail | infra/customer_repository.go:36-46 | a stored email gives that customer and no error; an absent one gives the "customer not found" error; nothing changes |
| Repository.SaveThenFind | infra/customer_repository.go:17-46 | a new repository finds nothing; after Save the saved customer is found under its email, and another email is still not found |
| Repository.SaveOverwrites | infra/customer_repository.go:32-33 | saving a second customer with the same email replaces the first |
| External.StubValidate | external/kyc_service.go:22-24 | the stub's Validate never fails and always answers "pending", whatever the request |
| External.StubVerify | external/kyc_service.go:26-39 | the stub's Verify never fails and always answers "approved", whatever the request and the random status it draws |
| Kyc.KycAdapter.constructor | infra/kyc_adapter.go:16-18 | the adapter calls the given external service |
| Kyc.RequestFor | infra/kyc_adapter.go:22-27 | email, phone and address are copied; the full name is the first name, one space, then the last name, and splits back at the first name's length |
| Kyc.ValidateOutcome | infra/kyc_adapter.go:30-42 | ValidateKYC returns nil iff the service answers "pending" without error; a service error is returned as is; any other status gives ErrKYCFailed |
| Kyc.KycAdapter.ValidateKYC | infra/kyc_adapter.go:20-43 | returns ValidateOutcome of the service's answer to the customer's request; the status becomes "pending" on nil and is otherwise untouched; other fields unchanged |
| Kyc.DrainResults | infra/kyc_adapter.go:79-86 | the status after ranging over the responses is "" when there are none and otherwise is decided by the last one alone |
| Kyc.DrainErrors | infra/kyc_adapter.go:88-92 | returns the first error in arrival order, or none when no Verify call failed |
| Kyc.Responses | infra/kyc_adapter.go:61-70 | what reaches the results channel: at most one response per Verify call, each the response of a successful call; `Kyc.ResponsesAppend` and `Kyc.OutcomesSplit` relate it to the calls |
| Kyc.Errors | infra/kyc_adapter.go:61-70 | what reaches the errors channel: at most one error per Verify call, each the error of a failed call; `Kyc.NoErrorsIffAllSucceed` and `Kyc.FirstErrorIsEarliestFailure` relate it to the calls |
| Kyc.FinalStatus | infra/kyc_adapter.go:79-86 | the status after draining the results: "" exactly when there were none, "approved" exactly when the last one was approved, and otherwise "rejected" |
| Kyc.VerifyOutcome | infra/kyc_adapter.go:79-99 | a Verify error makes the result the first such error; nil implies the last response drained was "approved"; with no error and no approval the result is "KYC validation failed" |
| Kyc.KycAdapter.VerifyCustomerKYC | infra/kyc_adapter.go:45-100 | returns VerifyOutcome of the arrivals; the status becomes "approved" on nil and is otherwise untouched; other fields unchanged |
| Kyc.OutcomesSplit | infra/kyc_adapter.go:61-70 | each Verify call's outcome goes to exactly one of the two channels |
| Kyc.NoErrorsIffAllSucceed | infra/kyc_adapter.go:64-69 | the errors channel receives nothing iff every Verify call succeeded |
| Kyc.FirstErrorIsEarliestFailure | infra/kyc_adapter.go:88-92 | the error returned is that of the earliest failed Verify call |
| Kyc.VerifySucceedsIff | infra/kyc_adapter.go:79-99 | verification returns nil iff no Verify call failed and the last response drained was "approved"; a single failure means an error, even if every response was an approval |
| Kyc.NoRequestsFails | infra/kyc_adapter.go:59-99 | with `numRequest == 0` there are no responses, the final status stays "" and "KYC validation failed" is returned |
| Kyc.StubVerifySucceeds | external/kyc_service.go:26-39 | against the stub, which always answers "approved", verification with `numRequest > 0` returns nil |
| Application.CustomerService.constructor | application/customer_service.go:24-29 | the service uses the given KYC service and repository |
| Application.CustomerService.RegisterCustomer | application/customer_service.go:31-48 | email already stored: ErrCustomerExists, ValidateKYC not called, nothing changed. Otherwise: status "pending" (kept even when validation fails), ValidateKYC's error returned, and the customer saved under its email only when validation returned nil |
| Application.CustomerService.VerifyRegisteredCustomer | application/customer_service.go:50-57 | returns exactly the KYC service's VerifyCustomerKYC result and changes only what it changes |
| Application.RegisterScenario | application/customer_service_test.go:15-36 | registering John Doe against the stub succeeds with status "pending", calls ValidateKYC, and the repository then finds that very customer under the email; a second registration with the same email gives ErrCustomerExists without calling ValidateKYC |
| Application.VerifyScenario | cmd/verify.go:22-41 | after registration, verifying the customer found by email against the stub succeeds, and the repository's entry (the same object) becomes "approved" |

## Findings

| source | as written | input that shows it | evidently intended | confidence | as-written member | corrected member |
|---|---|---|---|---|---|---|
| redis-cache/redis_cache.go:68-71 | GET of an expired key calls the public `Del` before replying; that DEL never completes, so the GET never replies and the workers it ties up stay blocked | `Set("k", "v", 1s)` at 0, then `Get("k")` at 2s before the sweep has run | reply nil (eviction not modelled) | not executed | RedisCache.ExpiredGetNeverReplies | RedisCache.Cache.Get |
| redis-cache/redis_cache.go:81-83 | the DEL branch calls the public `Del`, which sends a new DEL request and waits for it, so no DEL ever deletes or replies | `Del("a")` with any pool size | remove the key from both maps and reply | not executed | RedisCache.DelNeverReplies | RedisCache.Cache.Del |

## Left out

- The worker pool, the request channel, the per-request result channels and the read/write mutex (redis-cache/redis_cache.go:44-52, 87-117). This is concurrency plumbing, and it fixes no order across requests. SET, GET and the sweep are direct sequential methods, so the model does not capture interleavings of concurrent requests.
- RedisCache.Cache.Del: models DEL as intended, as the second Findings row says. As written (redis-cache/redis_cache.go:81-83, 109-117), the handler answers DEL by calling `Del`. That sends another DEL request and never reaches a `delete`. Each DEL in the chain holds a worker forever, so once all workers hold one, nothing receives the request channel: the cache wedges, and every later Set, Get and Del blocks. The model shows only that no DEL replies (`RedisCache.DelNeverReplies`), not the permanent wedge of the later requests.
- RedisCache.Cache.Get: gives the intended reply. On a stored key whose expiry has passed and that the sweep has not yet removed, the source never replies: line 70 calls `Del`, line 71 is never reached, and the cache wedges as above (`RedisCache.ExpiredGetNeverReplies`). The model's nil there is the intended reply, not what the source does. The lazy eviction that line 70 aims at is not modelled either: the maps are left unchanged.
- RedisCache.SweptUnobservable: holds for the intended GET reply only. In the source the sweep is observable. A GET of an expired key sent before the sweep never replies, and a later sweep does not unblock it: it stays blocked in `Del` (redis-cache/redis_cache.go:70, 115-116) and wedges the cache. A GET sent after the sweep instead, on a cache not yet wedged, replies nil (`RedisCache.SweepObservableAsWritten`).
- RedisCache.Cache.Sweep: uses one instant `now` for the whole pass, while the source reads the clock again for every key. The 1-second sleep loop and the goroutine that runs it become one `Sweep(now)` step that callers invoke.
- The wall clock (`time.Now`, `time.Sleep`): it is replaced by the explicit `now` parameter. Go's 64-bit time arithmetic, and its saturation on overflow, is not modelled; instants are unbounded integers.
- Values of type `interface{}`: the model uses a type parameter. Storing a nil value, which a GET could not tell apart from a miss, is not modelled.
- The mutex of the customer repository and the `context.Context` parameters: they are not modelled. Neither is `GetCustomers`, which only hands out the internal map; the model's clients read the `customers` field instead.
- Kyc.KycAdapter.VerifyCustomerKYC: requires `numRequest >= 0`. With a negative `numRequest`, `make(chan ..., numRequest)` at infra/kyc_adapter.go:54 panics at run time before any Verify call; the model does not represent that panic. `Application.CustomerService.VerifyRegisteredCustomer` carries the same requirement. Every caller in the repository passes the constant `NumberOfRoutines`, and the tests expect that call to end in approval, which needs at least one response.
- Kyc.KycAdapter.VerifyCustomerKYC: the goroutine fan-out and the two buffered channels are replaced by `arrivals`, the outcome of each Verify call in arrival order. The request built at lines 47-52 only feeds those calls, so the model does not connect the outcomes to the request. One arrival sequence covers every pair of orders on the two channels, since the results and the errors are each read in their own order.
- Answers of the external service: `Kyc.Outcome` is either a response or an error, so the external service is assumed never to return a nil response with a nil error. In Go that pair would make a nil-pointer panic, at infra/kyc_adapter.go:36 in `ValidateKYC` and at line 81 in the results drain; the model does not represent that panic. A response returned together with an error is treated as the error, and so is the model's `Failure`.
- The command-line front end (cmd/), the test double in mocks/, and the stub's random delay, random status and logging (external/kyc_service.go). These are I/O or test scaffolding. The mock's observable behaviour on registration (status "pending", its configured error) is that of the adapter with an external service answering "pending" or that error.
