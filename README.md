# GeoIP tiered lookup

A model of the lookup performed by the GeoIP HTTP handler (`GetGeoIP`).
Given an address, the handler first checks it with the address parser.
It then reads the in-memory repository, then the Redis repository, then the remote GeoIP API.
It answers with the first record found.
It also schedules background writes ("repairs") that warm the caches which missed:

- in-memory hit: check Redis, and save into Redis only when that check fails;
- Redis hit: save into the in-memory repository;
- remote answer: save into the in-memory repository and into Redis;
- remote failure: report the error and schedule nothing.

Files:

- `repos.dfy` (module `Repos`) defines the record, the three tiers and a snapshot of what they hold (`Stores`).
  It also defines the repository `Get` and `Save`, the two kinds of repair, and `Step`/`Settle`, which run repairs.
  Lemmas about running repairs sit beside them.
- `controllers.dfy` (module `Controllers`) defines the handler.
  `Resolve` is the lookup decision as a function: outcome, tiers read, repairs scheduled.
  `BaseHandler` holds the two caches as `map` fields, plus the remote API's answers and the address parser.
  Its `GetGeoIP` method walks the tiers and returns the decision without writing anything.
  Its `ApplyRepair` method runs one scheduled repair later, against the stores as they are then.
  The lemmas relate a lookup, its repairs run in any order, and the next lookup.

Modelling decisions:

- A `Get` that returns an error is a miss.
  A cache misses when the key is absent or when the cache is down (`inMemoryUp`/`redisUp` false).
  The source treats both the same.
- A `Save` on a cache that is down fails.
  The source only logs that failure, so the store stays as it was.
- The remote API is a partial map: a key it lacks is a failing call.
- The repository `Save` takes only the record.
  The model assumes the record is stored under the key that was looked up.
- The address parser (`net.ParseIP`) is a parameter of the handler.
  The check accepts whatever the parser accepts, which includes IPv6 text.
- The goroutines become the `repairs` list that `GetGeoIP` returns.
  They run later, one at a time and in any order: `ApplyRepair`, specified by `Step`, and `Settle` for a whole list.
  The lemmas quantify over every ordering (`IsOrdering`).

- The in-memory-hit repair reads Redis first and saves only when that read fails.
  If Redis already holds a different record for the key, that record stays (`InMemoryHitThenSettled`).

## Model

| member | source | states |
|---|---|---|
| Controllers.Resolve | internal/controllers/ip.go:31-131 | a rejected key reads no tier and schedules nothing; tiers are read in the fixed order in-memory, Redis, remote, a tier only after all faster ones missed; the answer is the record of the last tier read; failure happens exactly when every tier misses, and then all three tiers, the remote API included, were read and nothing is repaired; every repair carries the returned record and the lookup key; unconditional writes go only to caches that were read and missed, the conditional write only to a cache that was not read; each cache other than the answering one gets exactly one repair |
| Controllers.BaseHandler.GetGeoIP | internal/controllers/ip.go:24-131 | computes the decision of `Resolve` on the current stores without writing anything; per case: invalid key reads nothing; in-memory hit returns that record, reads only memory and schedules a Redis fill-if-missing; Redis hit returns the Redis record, never calls the remote API and schedules one in-memory save; remote answer schedules exactly two saves, in-memory and Redis; remote failure returns the lookup error with no repairs |
| Controllers.BaseHandler.ApplyRepair | internal/controllers/ip.go:79-130 | running one repair changes the stores exactly as `Step` says; a Save on a cache that is down leaves it unchanged; the Redis fill leaves Redis unchanged when Redis already holds the key; the remote API and availability are never changed |
| Controllers.BaseHandler.SaveTo | internal/controllers/ip.go:83-85 | the repository Save on one cache stores the record under the key when the cache is up and changes nothing otherwise |
| Controllers.BaseHandler.constructor | internal/controllers/handler.go:16-18 | the handler holds the two caches, the remote API and the parser it is given |
| Repos.Get | internal/controllers/ip.go:55-64 | a tier read hits with the record the tier holds for the key; it misses exactly when the key is absent or the tier is down, so a down cache misses every key |
| Repos.Save | internal/controllers/ip.go:93-95 | a Save on a cache that is up writes the record under the key and nothing else, and the key then reads back that record; a Save on a cache that is down fails and leaves every store exactly as it was; availability never changes |
| Repos.Step | internal/controllers/ip.go:119-130 | a repair touches only its own cache and key; it never changes the remote API or availability; the conditional fill changes nothing when its Get succeeds |
| Repos.Settle | internal/controllers/ip.go:46-50 | running any list of background repairs leaves the remote API and the caches' availability unchanged |
| Repos.SettleKeepsOtherKeys | internal/controllers/ip.go:79-130 | repairs scheduled for one key never change what any tier returns for another key |
| Repos.FailedRepairsChangeNothing | internal/controllers/ip.go:109-111 | when every Save fails (both caches down), running any repairs leaves the stores exactly as they were |
| Controllers.RepairsWriteOnlyTheAnswer | internal/controllers/ip.go:83-85 | whatever repairs succeed or fail, each tier afterwards returns what it returned before or the record the lookup returned |
| Controllers.RemoteHitThenSettled | internal/controllers/ip.go:63-96 | after a remote answer and its two saves in either order, the in-memory cache (and Redis when up) holds the record, and a second lookup returns the same record from memory without reading Redis or calling the remote API |
| Controllers.RedisHitThenSettled | internal/controllers/ip.go:59-113 | after a Redis answer and its save, the in-memory cache holds the record, Redis is unchanged, and a second lookup returns the same record from memory |
| Controllers.InMemoryHitThenSettled | internal/controllers/ip.go:114-131 | after an in-memory hit, the Redis fill leaves all stores unchanged when Redis held the key, writes the record into Redis when Redis lacked it and is up, and the next lookup decides exactly as the first |
| Controllers.NoAnswerNoWrites | internal/controllers/ip.go:31-72 | a rejected key or a failed lookup schedules no repair, so the stores after it are the stores before it |
| Controllers.RepeatedLookupsServedFromMemory | internal/controllers/ip.go:55-56 | once the in-memory cache holds a record, any number of further lookups with their repairs keep answering that record from memory alone |

## Left out

- HTTP transport: route parameters, status codes, headers and the JSON error envelope. The model returns a typed outcome instead.
- `json.Marshal` of the record and its error branch, including that branch's missing `return`. This is library and I/O code, not lookup logic.
- Logging and request ids. A failing Save is modelled as "no change", which is all the source does besides logging.
- Real concurrency and contexts. The model runs repairs one at a time, in any order, after the lookup has returned.
  Each repair is one atomic step, including the Redis fill's read and its save.
  In the source another goroutine's Save can land between that read and that save.
  Example: the fill reads a miss, then a remote answer's save of record B runs, then the fill saves record A, so Redis ends with A.
  The model can only reach B in that case.
  It does not model a repair from one lookup interleaving with another lookup's reads.
  It also does not model two concurrent lookups of one key that both reach the remote API.
- The internals of `net.ParseIP`. Address validity is whatever the parser parameter says.
- Controllers.IsIpv4: carries no contract of its own; it is, by definition, whatever the parser parameter returns. What the check implies for a lookup is stated on `Resolve`.
- The remote API's `Status` health probe and its error causes. A remote failure is only "no record".
  The source discards the cause as well and answers with a fixed message.
- Changes in cache availability. `inMemoryUp` and `redisUp` are plain fields that the environment may set between calls.
  No member of the handler changes them.
