# Verification of the order platform

Proofs about the order service, its cache, its database migrations, its credential rotation, and
the user service beside it. `dafny verify dfyconfig.toml` checks everything.

- `OrderModel` holds messages, table rows, cache entries, money, and what one statement does.
- `OrderSystem` is the order service as a transition system: any number of CreateOrder, GetOrder and
  CancelOrder calls, one action per statement, cache command or remote call, beside time, expiry,
  users coming and going, and crashes. Each command can fail, and an UPDATE or a COMMIT can also
  take effect while its reply is lost.
- `OrderInvariants` is what each action keeps; `OrderTimeline` relates the history that states carry
  to the actions of the run; `OrderStaleness` says when a cached order is stale
  and when that is over for good; `OrderTheorems` says what clients can rely on.
- `OrderCalls` describes calls that run alone, shows each to be a run of the system, and compares
  the repository with and without a cache. `OrderRepository` has the methods themselves.
- `Paging` is ListOrders and the clients that follow `has_more`.
- `Migrations` is the migration runner, alone and with any number of replicas.
- `PoolRotation` is the pool behind its mutex; `Leases` is the refresher that replaces it.
- `UserService` is user creation, update by field mask, and deletion.
- `Text` and `Sets` are helpers.

## Assumptions

- The database shows committed rows only, a transaction is all or nothing, a statement is atomic,
  and primary and unique keys are enforced. Redis is a map with expiry. A closed connection pool
  refuses acquires, and closing waits for the connections in use.
- Row iteration runs to its end: the code never looks at `rows.Err()`
  (`services/order-service/repository.go:191-199`, `242-261`), so a connection lost in the middle
  would shorten a result without an error.
- Identifiers are canonical lower-case UUID texts. The cache key is the caller's spelling
  (`services/order-service/cache.go:27-29`), while the database ignores case (section 3 of
  RFC 4122), so other spellings would have cache entries that no other spelling's cancel deletes.
- Writing an order to JSON and reading it back gives the same order.
- Orders have distinct creation times; `ORDER BY created_at DESC` has no tie-break.
- A credential fetch that succeeds takes no time, SetPool gets the lock at once when nobody reads
  the field, and every lease has the same length. Failed fetches, the building of pools and the
  wait for the old pool to close take any time.
- Postgres, Redis and Vault clocks agree.

## Where code and documentation differ

- `proto/common/v1/common.proto:11` and `docs/security.md:123` promise that page sizes are clamped
  to 100. The code serves 20 for every size above 100 and still computes `has_more` from the
  requested size; the model follows the code (`Paging.HasMoreAboveHundred`).
- After a rotation the health monitor watches the first pool, which is closed by then
  (`services/order-service/main.go:233`, `docs/runbook.md:131-136`). Nothing here is about it.

## Model

| member | source | states |
|---|---|---|
| `OrderStaleness.StaleExactly` | services/order-service/repository.go:264-285 | Over every interleaving of every number of calls, with failing Redis commands, expiry, lost replies and crashes: a cached order differs from the database if and only if its row was read before the first UPDATE, and either no DEL has succeeded (a cancel is between its UPDATE and its DEL, or a DEL was lost) or the fill wrote after the last DEL. |
| `OrderStaleness.OnlyStatusCanBeStale` | services/order-service/repository.go:120-143 | In every reachable state a cached order with its status replaced by the stored one is exactly what the database answers: user, total, creation time and the multiset of items are never stale. |
| `OrderStaleness.CancelSettlesExactly` | services/order-service/repository.go:280-284 | A successful DEL of a cancel makes the order coherent for the rest of every run if and only if no GetOrder that read the old row is still on its way to its SET. |
| `OrderStaleness.OldFillMakesStale` | services/order-service/repository.go:128-140 | For each such GetOrder, a schedule that leaves a stale entry after the DEL. |
| `OrderStaleness.SettledForever` | services/order-service/cache.go:56-60 | Once the row is cancelled, no old fill is in flight and no old entry is cached, no continuation of the run makes the entry stale. |
| `OrderInvariants.InvAfter` | services/order-service/repository.go:66-285 | Each single step of any call keeps the invariant that ties tables, cache entries, calls in flight and births of orders to the history of the run. |
| `OrderTheorems.GetIsBoundedlyStale` | services/order-service/cache.go:15-54 | Every answer of GetOrder is what the database said, row and items together, at one instant of the run: at the row query of this very call, or, when the cache answered, at the row query of the GetOrder of the same order that had filled it, which then lies back less than five minutes plus the time from that query to its SET. |
| `OrderTheorems.TablesChangeAtomically` | services/order-service/repository.go:66-118 | A step leaves the tables alone, adds one new order with exactly its items, or cancels one order; a transaction is never seen in part. |
| `OrderTheorems.CreateRepliesHonestly` | services/order-service/repository.go:104-117 | Over every run: a CreateOrder that answers with an order has stored it as requested; one that ends in an error committed nothing, unless its COMMIT took effect and the reply was lost. |
| `OrderTheorems.OrdersHaveHadUsers` | services/order-service/server.go:47-60 | Every stored order belongs to a user whom the user service had when the CreateOrder call that committed it, with that user and those items, asked for him: after its begin and before its COMMIT. |
| `OrderCalls.OrderCanOutliveItsUser` | db/migrations/000004_drop_order_user_fk.up.sql:1 | For every request whose order can be stored, a schedule after which the order is there and its user is not: the check is not a lock. |
| `OrderTheorems.CancellationIsAbsorbing` | services/order-service/repository.go:264-302 | Over all runs only PENDING and CANCELLED are stored, orders are never removed, and a cancelled order stays cancelled. |
| `OrderTheorems.CancelRepliesCancelled` | services/order-service/repository.go:268-284 | On any interleaving a Cancel whose UPDATE took effect on a row never ends in not-found, not-found means that the row was missing at its UPDATE, and one that answers with an order answers with the CANCELLED order its own row query found. |
| `OrderTheorems.RunsGrow` | services/order-service/repository.go:66-118 | Later tables of a run keep every order, its items and all fields but the status; this is what the walk of a growing store relies on. |
| `OrderTimeline.PastIsTheRun` | services/order-service/repository.go:120-285 | The recorded history is the run: entry `i` is the world the first `i` steps lead to. |
| `OrderTimeline.EveryRunIsTied` | services/order-service/repository.go:66-285 | Every index that calls, cache entries and orders carry is the index of the action it is named after, performed by the call it belongs to. |
| `OrderTimeline.HistoryIsTied` | services/order-service/repository.go:264-285 | The first UPDATE, the last DEL and the lost DELs that `StaleExactly` speaks of are those of the run. |
| `OrderTheorems.MoneyDrift` | services/order-service/repository.go:77-102 | In every reachable state a stored total differs from the value of the stored items by at most half a cent plus half a cent per unit, and not at all when the requested prices were whole cents. |
| `OrderModel.CommitKeepsTablesOk` | db/migrations/000003_create_order_items.up.sql:7 | Committing one order with its rows keeps the drift bound and the status set of every order and changes no other order. |
| `OrderTheorems.StatusSinceUpdate` | services/order-service/repository.go:268-272 | In every run a stored status is CANCELLED from the first UPDATE of the order that took effect on, and PENDING before. |
| `OrderTheorems.GetAnswersStatus` | services/order-service/repository.go:145-176 | A GetOrder that finds an order answers Cancelled if an UPDATE of it took effect before the row was read, and Pending otherwise. |
| `OrderTheorems.GetAgreesWithCreate` | services/order-service/repository.go:108-115 | With prices in whole cents every later GetOrder that finds the order gives the Pending reply of its CreateOrder, but for the order of the items, and Cancelled instead if an UPDATE took effect before the row was read. |
| `OrderModel.StatusOfName` | services/order-service/repository.go:287-302 | A stored text is read as a status exactly when it is the name of that status. |
| `OrderCalls.CacheRefinesDatabase` | services/order-service/repository.go:120-143 | Over any sequence of non-overlapping calls in which no DEL fails and no UPDATE reply is lost, the repository with a cache answers like the one without, whatever cache reads and writes fail or expire. |
| `OrderTheorems.CancelsAgree` | services/order/v1/order_grpc.pb.go:40 | On any interleaving all CancelOrder calls of one order that answer with it give the same answer, but for the order of the items. |
| `OrderTheorems.CancelledIsFinal` | services/order-service/repository.go:268-272 | Once cancelled, the row and the items of an order never change again. |
| `OrderCalls.CancelTwice` | services/order-service/repository.go:264-285 | Run alone, after a cancel that took effect, a second one changes no table however it fares, and answers the same when both reach the database. |
| `OrderCalls.GetIsARun` | services/order-service/repository.go:120-176 | GetOrder run alone is one uninterrupted run of the interleaved system, with the same reply and cache. |
| `OrderCalls.CancelIsARun` | services/order-service/repository.go:264-285 | CancelOrder run alone is one uninterrupted run of the interleaved system, with the same reply, tables and cache. |
| `OrderCalls.CreateIsARun` | services/order-service/repository.go:66-118 | The repository part of CreateOrder run alone is one uninterrupted run of the interleaved system, for every number of items and every failing step. |
| `OrderRepository.OrderRepository.Create` | services/order-service/repository.go:66-118 | The tables gain the order and all its items or nothing, whichever INSERT or commit fails; a lost commit reply is an error with the order stored. |
| `OrderRepository.OrderRepository.Get` | services/order-service/repository.go:120-143 | A live entry is the answer and nothing changes; otherwise the answer is that of the database, field by field, and a fill stores it for 300 seconds; cache errors are swallowed. |
| `OrderRepository.OrderRepository.GetFromDB` | services/order-service/repository.go:145-176 | Not-found, failure or the whole order in exactly these cases: the id, user, creation time, total in cents and status of its row, and its items. |
| `OrderRepository.OrderRepository.GetItems` | services/order-service/repository.go:178-200 | The loop over the rows returns the items of the order and of no other. |
| `OrderRepository.OrderRepository.Cancel` | services/order-service/repository.go:264-285 | The new rows and entries for each outcome of the UPDATE and of the DEL, and exactly when the answer is the order or not-found. |
| `OrderRepository.OrderRepository.List` | services/order-service/repository.go:202-262 | Clamps, wraps, counts and slices as the paging lemmas assume, with the count taken from one state of the orders and the page from another; a failing query is an error. |
| `OrderModel.LastCommandDecides` | services/order-service/cache.go:31-60 | After any sequence of successful SETs and DELs a lookup serves the order of the last command on its id, if that was a SET, at exactly the instants before five minutes have gone by, and nothing otherwise. |
| `OrderRepository.OrderServiceServer.CreateOrder` | services/order-service/server.go:26-65 | Without faults, for a known user and a new id, the answer is OK if and only if the user id is not blank, there are items, and every text and amount fits its column; then the reply and all the new rows are those of the request. Invalid requests name their first invalid item; they and unknown users change nothing. |
| `OrderRepository.StorableSucceeds` | db/migrations/000003_create_order_items.up.sql:4-7 | A valid request can be stored exactly when product ids have at most 100 and names at most 255 characters, and prices and total are below 99,999,999.995. |
| `OrderModel.LargestAmount` | db/migrations/000002_create_orders.up.sql:5 | NUMERIC(10,2) holds exactly the amounts below 99,999,999.995. |
| `OrderModel.RoundingDrift` | db/migrations/000002_create_orders.up.sql:5 | Amounts are rounded to the nearest cent, and from the middle away from zero. |
| `OrderCalls.CreateOrderIsARun` | services/order-service/server.go:26-65 | A whole CreateOrder run alone, from the request to the commit, is one uninterrupted run of the interleaved system. |
| `OrderRepository.OrderServiceServer.GetOrder` | services/order-service/server.go:67-82 | Never changes a table; a live entry, the stored order field by field, NotFound or Internal, each in exactly its cases. |
| `OrderRepository.OrderServiceServer.CancelOrder` | services/order-service/server.go:113-129 | OK, NotFound or Internal in exactly their cases; every OK response is the requested order as stored, CANCELLED; an empty id changes nothing. |
| `OrderRepository.OrderServiceServer.ListOrders` | services/order-service/server.go:84-111 | An answered page counts and holds stored orders of the user only, or of everybody when no user is given, field by field and newest first. Without pagination it holds the first 20, and has_more means more than 20. Counts and lists may be of different states; a failing query is an error. |
| `OrderRepository.FirstInvalid` | services/order-service/server.go:35-45 | The first item that fails a validation. |
| `Paging.MissingPagination` | services/order-service/server.go:85-94 | A missing page is answered like page 1 and a missing size like 20; with both missing the answer is the first 20 of the listing and has_more is whether the count is above 20. |
| `Paging.PageContents` | services/order-service/repository.go:202-209 | A page of the asked size, or of 20 when more than 100 are asked for, is exactly the part of the listing after the pages before it. |
| `Paging.PageHolds` | services/order-service/repository.go:225-259 | The orders of a page are stored, pass the user filter, carry the fields of their rows and no items, and come newest first. |
| `Paging.ListingHolds` | services/order-service/repository.go:215-233 | The listing holds the orders of the user, or all, and no others, each once. |
| `Paging.ListClamps` | services/order-service/repository.go:203-208 | Pages before the first count as the first, sizes outside 1 to 100 as 20. |
| `Paging.QuietWalkIsTheListing` | services/order-service/repository.go:202-262 | For page sizes 1 to 100 on an unchanging store, following has_more collects the whole filtered listing, newest first, in max(1, ceil(n / size)) calls. |
| `Paging.HasMoreExactly` | services/order-service/server.go:85-102 | For every page and size asked for, however large: has_more tells whether the next page has orders if and only if the number of orders does not lie between the start of that page and the product that has_more compares; a refused next page starts after everything. |
| `Paging.HasMoreIsNextPage` | services/order-service/server.go:96-102 | For page sizes 1 to 100, has_more tells whether the next page has orders if and only if its int32 product has not wrapped below zero. |
| `Paging.EmptyStoreHasMore` | services/order-service/server.go:102 | Page 42949673 of size 50, and page 2 of size 1500000000, of an empty store say that there is more. |
| `Paging.WalkWrapsExactlyAbove` | services/order-service/server.go:102 | The int32 products of a walk fit if and only if the total is at most the largest multiple of the page size in int32; above it the last page wrongly promises more. |
| `Paging.SafeBelow` | services/order-service/repository.go:209 | That multiple is above 2^31 - 1 - 100 for every size up to 100. |
| `Paging.HasMoreAboveHundred` | services/order-service/repository.go:203-205 | For sizes above 100 whose product fits, has_more is wrong exactly while the list goes on beyond the pages of 20 but not beyond the requested product. |
| `Paging.TornWalkSeesAllExactly` | services/order-service/repository.go:221-259 | A client walks the pages while others create and cancel orders, even between the count and the list of one call, until told that there is no more or refused. When nothing older than the stored orders gets inserted, it sees every order of its start if and only if its last listing ends within the pages it asked for. |
| `Paging.TornWalkSeesAllIfOldest` | services/order-service/repository.go:221-259 | With no assumption on what gets inserted, it sees every order of its start if and only if some call finds the oldest of them before the end of its page. |
| `Paging.TornWalkSeesAll` | services/order-service/repository.go:221-259 | A last listing that ends within the pages asked for is always enough: tears in earlier calls do no harm. |
| `Paging.TornWalkMissesTheOldest` | services/order-service/repository.go:221-259 | A last listing that goes on beyond them means that its oldest order, if there at the start, was on no page. |
| `Paging.GrowingWalkMissesNothing` | services/order-service/server.go:96-102 | So a client whose last call counts and lists the same orders has seen every order there was when it began. |
| `Paging.PositionsNeverDecrease` | services/order-service/repository.go:233 | An order only ever moves towards the end of the listing. |
| `Paging.PositionInListing` | services/order-service/repository.go:233 | An order stands at the position given by the number of newer matching ones. |
| `Paging.ListingIsUnique` | services/order-service/repository.go:233 | With distinct creation times the filter has one listing. |
| `Paging.TornCallMissesAnOrder` | services/order-service/repository.go:221-240 | The smallest walk that misses an order: it counts one and lists two, on pages of one. |
| `Migrations.AppliedIsAPrefix` | db/migrations/embed.go:37-74 | For any number of concurrent runners with failures, lost commit replies and deaths anywhere: the applied set is a prefix of the file list, each file was committed once and in order, the schema is the fold of that prefix, and no runner is ahead of it. |
| `Migrations.SuccessMeansComplete` | db/migrations/embed.go:39-76 | As soon as one `Up` has returned without error, record table and schema are complete and no further step of any runner changes them. |
| `Migrations.RunnersAfter` | db/migrations/embed.go:56-73 | A step of any runner keeps every runner within the applied prefix, and no two hold the record of one file at once. |
| `Migrations.MigrationDatabase.Up` | db/migrations/embed.go:20-77 | One call alone moves from one applied prefix to the one that its failures allow. |
| `Migrations.RetriesConverge` | db/migrations/embed.go:39-76 | After any series of failed calls one success leaves all files applied, as a clean run does, and one more call changes nothing. |
| `Migrations.CleanRunSucceeds` | db/migrations/embed.go:39-74 | Without failures of the environment `Up` succeeds exactly when the SQL of all files does, whatever prefix was applied before. |
| `Migrations.UpIsARun` | db/migrations/embed.go:20-77 | In any reachable state in which nobody is about to commit, a runner whose steps run with nothing between ends as the call alone does: with the same number of applied files, and successfully in the same cases, for all failures. |
| `Migrations.CleanUpSucceeds` | db/migrations/embed.go:71-76 | Without failures such a runner succeeds exactly when the SQL of all files does, and then everything is applied. |
| `PoolRotation.MethodsAreShaped` | services/order-service/repository.go:66-285 | Every method, Create with any number of items, gives back its connection before it asks for the lock again. |
| `PoolRotation.NoDeadlock` | services/order-service/repository.go:46-60 | In every state that keeps the invariant, with requests and SetPools in any number, somebody can go on while anything is left to do. |
| `PoolRotation.EveryScheduleCompletes` | services/order-service/repository.go:46-60 | In every schedule, with requests and SetPools joining on the way, there are no more steps than operations to do, and when no step is possible all have returned. |
| `PoolRotation.WaitOnlyShrinks` | services/order-service/repository.go:57-59 | While SetPool waits in Close no event adds a holder of the old pool, and each holder can go on. |
| `PoolRotation.HoldersLetSetPoolReturn` | services/order-service/repository.go:52-60 | A waiting SetPool needs steps of the holders of its old pool only; then it returns and the lock is free. |
| `PoolRotation.PoolOwnership` | services/order-service/main.go:195-206 | In every state of every schedule the repository's pool is open, a pool whose displacing SetPool has got past Close is closed, and nobody holds a connection of a closed pool. |
| `PoolRotation.RefusedOnlyAfterASwap` | services/order-service/repository.go:46-50 | A request meets a pool that is not open only if a swap fell between its getPool and its acquire. |
| `PoolRotation.AcquireExactly` | services/order-service/repository.go:70 | An acquire that returns has a connection of the pool read by getPool exactly if that pool is open, never more than the maximum, and otherwise ends the request. |
| `PoolRotation.RunKeepsOk` | services/order-service/repository.go:46-60 | Every schedule keeps the exclusion of readers and writers and the states of the pools. |
| `PoolRotation.AskingWhileHoldingDeadlocks` | services/order-service/repository.go:163-184 | The shape is needed: a schedule from the start after which a request that asks for the pool while holding a connection, a SetPool and any number of others can never step again. |
| `PoolRotation.PoolOwner.SetPool` | services/order-service/repository.go:52-60 | The new pool is in place at once and the displaced one refuses acquires; the lock is free again if and only if the holders give all its connections back. |
| `Leases.InLeaseExactlyWithinBudget` | internal/vault/client.go:98-130 | For every lease and every run of the loop: at every instant the pool runs on a credential within its lease, if and only if at each point the pauses for the failures since the last rotation, the time they took, the building of pools and the wait of SetPool for the old pool fit into one lease. |
| `Leases.LastingCoversInstants` | internal/vault/client.go:123-127 | When each credential lasts until its replacement, it covers every instant, those before the loop begins included. |
| `Leases.LongLeasesHold` | internal/vault/client.go:106-120 | Leases of a minute and more survive floor(L / 60 s) failed fetches in a row, if building and waiting stay within what half a lease leaves beyond them. |
| `Leases.WaitBeyondSlackLapses` | services/order-service/main.go:205 | After that many failures any time beyond it, such as the wait of SetPool, lapses the credential; leases in whole minutes leave none. |
| `Leases.OneMoreFailureLapses` | internal/vault/client.go:106-111 | One failure more lapses the credential, for every such lease. |
| `Leases.ShortLeasesLapse` | internal/vault/client.go:118-121 | Leases below 30 s have lapsed by every fetch after the first rotation. |
| `Leases.AtMostThreeAlive` | services/order-service/main.go:153-161 | At every instant at most three credentials are within their lease, the start-up one included. |
| `Leases.ThreeAreReached` | services/order-service/main.go:193-206 | Three is reached. |
| `Leases.Refresher.Run` | internal/vault/client.go:98-130 | The loop passes through the clock readings the lemmas are about. |
| `Leases.RoundByRound` | internal/vault/client.go:98-130 | What each round of the loop fetches and puts in place, and how long it is to the next one, in nanoseconds. |
| `UserService.UserServiceServer.UpdateUser` | services/user-service/server.go:65-109 | For a mask of any length, order and repetition, each answer in exactly its cases: the request is refused without touching the table, or the stored row of that id has the trimmed masked fields, the old other fields, the old created_at and the new updated_at, and is the reply. |
| `UserService.ValidUpdateMeans` | services/user-service/server.go:66-93 | A mask is accepted exactly when it is not empty, names only the two fields, and the masked values are a non-blank name and an email with an @. |
| `UserService.UserRepository.Update` | services/user-service/repository.go:105-160 | The growing SET list with its numbered arguments changes exactly the given fields and updated_at of that id, for each outcome of the statement. |
| `UserService.StatementMeansUpdate` | services/user-service/repository.go:110-132 | The numbered placeholders evaluate to the masked record update with all other fields kept. |
| `UserService.MeaningInFields` | services/user-service/repository.go:110-132 | Field by field and case by case what an update does and answers: values too long, an email taken by somebody else, a missing row. |
| `UserService.MaskIsASet` | services/user-service/server.go:76-93 | Order and repetition of paths make no difference. |
| `UserService.UserServiceServer.CreateUser` | services/user-service/server.go:24-46 | OK if and only if name and email are valid, fit their columns and the email is free; the row has the trimmed values and both times; AlreadyExists and InvalidArgument in exactly their cases. |
| `UserService.UserServiceServer.DeleteUser` | services/user-service/server.go:111-127 | Removes that user only; not-found and lost replies. |
| `UserService.UsersStayOk` | db/migrations/000001_create_users.up.sql:4 | Over any sequence of requests and outcomes, as the three methods of the server serve them, stored emails stay distinct and contain an @, and names stay non-empty and trimmed. |
| `Text.TrimSpaceKeepsTheMiddle` | services/user-service/server.go:25-26 | Trimming removes white space at the two ends and nothing else. |

## Left out

- Paging.HasMoreAboveHundred: stated for products that fit an int32; `Paging.HasMoreExactly` covers all others.
- Paging.TornWalkSeesAllExactly: stated for page sizes 1 to 100 and counts that fit an int32; a larger count is an error that ends the walk, and so is a failing query.
- Leases.LongLeasesHold: stated for loops that begin within half a lease and for pools that can be built; `Leases.InLeaseExactlyWithinBudget` covers the rest.
- OrderRepository.OrderRepository.List: what ORDER BY yields is a parameter, constrained to be the listing of the filter.
- Migrations.UpIsARun: stated for states in which no other transaction holds a record; a runner that meets one waits for it.
- OrderCalls.CancelTwice: two calls run alone; `OrderTheorems.CancelsAgree` is about any interleaving.
- OrderRepository.OrderRepository.Create: a method runs alone here; its steps among those of other calls are in `OrderSystem`. The same holds for `Get` and `Cancel`.
- UserService.UserRepository.Update: the statement is a list of assignments with argument numbers, not SQL text; lengths count characters as the columns do.
- PoolRotation.PoolOwner.SetPool: how many connections are given back during the wait is a parameter; who waits for whom is in the lemmas on schedules.
- PoolRotation.NoDeadlock: fairness between several SetPools, and between requests that wait for a connection, is not decided; any of them may go first.
- Migrations.AppliedIsAPrefix: what the SQL of a file does is a parameter; a lock conflict between two transactions counts as a failure, except that the INSERT of a record waits for another transaction that inserted the same one.
- Prices are real numbers: rounding of binary floating point, NaN and infinities are not modelled.
- Time limits of queries appear as failures, without durations.
- GetDBCreds parsing, GetSecret, RenewLease and the HTTP requests to Vault.
- The user service's GetUser beyond whether a user exists, and the order service's client connection.
- Texts of error messages and logs; status codes are modelled.
- gRPC, TLS, tracing, metrics, configuration, graceful shutdown, health checks, down-migrations and the load test.
- Envoy, Helm, Prometheus and other deployment files.
