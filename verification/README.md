# A verified model of the freight brokerage back end

The project models the back end of a freight brokerage: loads and vehicles are ingested from an exchange or
posted by users, a matcher pairs them with the help of a language model, matches become deals, deals move
through a transport lifecycle, delivered deals feed a pricing history, vehicles report GPS positions, and
companies register and earn a trust score.

It has three layers.

- **Code as methods.** Services and route handlers that work step by step are methods on a database session
  with committed, flushed and pending rows (`UnitOfWork.Session`): rows added to the session are invisible to
  queries until a flush, and constraints are checked at the flush. Each method is proved to do what a
  specification function on the database says, and to leave nothing behind when it raises. Loops are loops
  (slug search, shortlist, batch ingestion, pricing, GPS poll).
- **Specification functions.** One function per request on the database value `Tables.Db`, with the same
  branches, error codes and constants (`Lifecycle`, and the reference folds of `Ingestion`, `Matcher`,
  `Pricing`, `Gps`).
- **Runs.** `Lifecycle.Step` lists sixteen requests; `Lifecycle.Run` applies any sequence of them to the empty
  database. `Invariants` proves the facts that tie the tables together, `Evolution` what one state says about
  every later one, `Causes` which requests, and on whose behalf, can change what, `Requests` what one request
  does to another, and `Theorems`, `CarrierAccess`, `DealPaths`, `LateFixes`, `Accounting` and `Reingestion` the
  promises of the platform for all runs.

`Outcomes` says of the requests that write most what they leave behind and when they succeed, column by column in
terms of the rows and the request, without the specification functions; `Ingestion.VehiclesAddedByBatch`,
`Ingestion.LoadsAddedByBatch` and the contracts of the route methods do the same.

Self-contained algorithms have modules of their own: `Slug`, `Trust`, `Text` and `Ranking` ("the first k of a
stable sort", shared by the matcher's shortlist and the pricing window).

## Reading the model

- An id is the position of a row in its table. A deleted vehicle leaves a hole, so its id is not used again.
  Gaps that a rolled-back insert leaves in a sequence of ids are not modelled.
- A flush inserts pending rows in the order they were added. SQLAlchemy groups them by table first; within a
  table the order is the same, and no constraint of the model depends on the rest.
- Money and weights are whole numbers of the column's smallest unit. A positive price that rounds to zero is
  therefore a zero price here.
- Text is ASCII. `lower`, `upper`, `strip` and `isdigit` are the ASCII operations.
- What the outside world answers is a parameter of a step: the language model's reply (any list of items, with
  unknown or repeated vehicles and missing fields, or no reply), the two registries, the tracking server, the
  great-circle distance, the clock (one reading per request). A scored item without a reasoning counts as one
  with a missing score: both raise at the same place.
- A query without `ORDER BY` may answer in any order. The order is a parameter, and an order that is not an
  answer to the query is no run of the code. Ties of the pricing query are taken in table order.
- Each request is one atomic step. The matcher commits once per load, and its step keeps the loads committed
  before an exception.
- Exceptions carry the HTTP status; 500 stands for every exception that is not an HTTP one, among them
  violated constraints and a tracking server that refuses a device.
- Constraints are those of the tables in `app/db/models.py`. The migrations differ in two of them: positions are
  deleted with their vehicle (`migrations/versions/002_gps_and_platform_loads.py:94-98`) and a vehicle's carrier
  may not be NULL (`migrations/versions/001_initial_schema.py:87`). With the first, deleting a vehicle that only
  positions refer to succeeds and removes them: `Theorems.LatestFixNeverMovesBack` then holds for vehicles that
  still exist, which is what `Gps.LatestNeverMovesBack` asks for (it needs only the vehicle's own rows to be
  kept). With the second, a company's vehicle cannot be inserted at all.
- A deletion is a write like any other: the session holds it until the flush, where the foreign keys of matches,
  deals and positions decide.
- The pricing agent asks the model once per match, so its replies are keyed by match.
- All load columns without a role in any property (dates, volume, cargo, ADR class, owner) are one text
  `details`; the plate of a vehicle is kept in its payload, where the code keeps it too.

## Where the code and its documentation disagree

The model follows the code.

- `app/routes/deals.py:10-14` lets an administrator move a deal from any status to any other. The code has a
  table (`app/routes/deals.py:65-71`): in the run of `DealPaths.BookedIsNotPaid` a booked deal cannot be marked
  paid. `DealPaths.AdministratorStep` says for which statuses one request does it, and
  `DealPaths.AdministratorReach` for which some sequence of requests does.
- `app/routes/deals.py:16-17` closes the tracking window on delivery. `Theorems.WindowOpensAndCloses` says exactly
  which requests open and close it: cancelling a deal on the road closes it too.
- `app/services/access.py:135` and `app/routes/tracking.py:10` say that carriers see their own deals at any
  stage. `can_track_deal` gates every role but the administrator by the deal's status, and asks a carrier for
  nothing else; the relationship its comment names (`app/services/access.py:154-156`) does not exist, because a
  carrier row has no company (`app/db/models.py:115-137`). Taking "own" as "the vehicle is of the user's
  company", `CarrierAccess.CarrierPromise` says that no reachable deal is any carrier's own and that the promise
  is kept exactly while the deal is not on the road; `CarrierAccess.CarrierPromiseFails` is a run after which no
  carrier may track a booked deal, and one step later two carriers of different companies may.
- `app/services/gps_poll.py:17-18` says that only positions newer than the last one are inserted. The code only
  skips a fix time it already has: `LateFixes.OlderFixIsInserted` is a run whose last poll appends an older
  position, `Gps.PollInsertsOnlyNewer` says exactly which polls insert only newer ones, `LateFixes.StoredInOrder`
  exactly which runs store them in order, and `Theorems.LatestFixNeverMovesBack` that the latest position does
  not suffer.
- The fleet routes are for "your" vehicles (`app/routes/fleet.py:246`, `:292`, `:352`), which they take to be those
  with the user's company id. A user without a company and a vehicle without a company compare equal, so the
  vehicles of the exchange are in the fleet of every carrier or administrator who has no company:
  `CarrierAccess.ExchangeVehiclesAreOpen`. "Its own fleet" in `Causes.ByItsFleet` is to be read with this.
- `app/services/verification.py:14-15` says that the badge means a confirmation by an official registry.
  `Trust.BadgeFromEmailsAlone` is a history with the badge and without a confirmation;
  `Trust.BadgeWithoutRegistry` says exactly when that happens, and `Trust.BadgeMeansRegistry` that it does not
  happen in a history of at most two calls of the service. Histories are arbitrary sequences of calls: today
  only registration calls it, once (`app/routes/auth.py:168-171`), and no route confirms an email.
- A vehicle batch with a repeated new key is not always lost: `Ingestion.VehicleBatchOk` is the exact
  condition. The lookup of a proposal comes before the flush that its own new carrier causes, so only a carrier
  created strictly between the two occurrences makes the first one visible in time.
- `_slugify` is not idempotent: `Slug.SlugifyNotIdempotent` names a company, `Slug.SlugifyAgain` says for which
  names it is.

## Model

| member | source | states |
|---|---|---|
| Theorems.PriceSampleConservation | app/routes/deals.py:285-300 | In every reachable state there is one sample per ingested load with a non-zero price and a currency and one per deal that is delivered, invoiced or paid at a non-zero price, and no other; a deal has a sample iff it was delivered at a price |
| Theorems.FrozenProvenance | app/routes/deals.py:286-300 | A sample taken from a deal keeps agreeing with that deal and its load (route, weight, first body type, price, currency) in every later state, and the deal's vehicle still exists with the deal's carrier |
| Theorems.LoadLifecycle | app/routes/deals.py:225-228 | In every reachable state a load is BOOKED iff some deal refers to it, a MATCHED load has a match row, a NEW load has none, and NEGOTIATING and EXPIRED do not occur |
| Theorems.BookedForGood | app/routes/loads_platform.py:217-220 | Once a deal refers to a load, the load is BOOKED in every later state |
| Theorems.DealHasOneMatch | app/routes/vehicles.py:135-156 | Every deal has exactly one match row for its load and vehicle, in status PROMOTED or REJECTED |
| Theorems.MatchMovesForward | app/routes/loads_routes.py:155-204 | Along a run a match keeps its pair, its rank PROPOSED < REVIEWED < PROMOTED < REJECTED never drops, a suggested price stays, and a promoted match has a deal from then on |
| Theorems.ProposalSoundness | app/routes/vehicles.py:116-162 | In every reachable state, once the load's status passes, the lookup of an existing deal finds nothing; a proposal succeeds iff every check passes, the vehicle has a carrier and the pair has no match, which a NEW load never has; a failing one changes nothing |
| Theorems.TrackingWindow | app/services/access.py:127-158 | The steps of a run at which a given user, of any role, may track a given deal form one interval: the window never reopens |
| Theorems.WindowOpensAndCloses | app/routes/deals.py:16-17 | At every step of every run, for a carrier or the owner of the load: the window opens iff the step reports the cargo loaded, and closes iff it reports it delivered or cancels the deal on the road; no other request opens or closes it |
| CarrierAccess.CarrierPromise | app/routes/tracking.py:8-11 | In every reachable state no deal's vehicle is of any company, and the documented rule "a carrier tracks exactly their own deals" is met for a carrier and a deal iff the deal is not on the road |
| CarrierAccess.CarrierPromiseFails | app/services/access.py:152-156 | A run after which a booked deal is closed to carriers, and one more step after which carriers of two companies, neither of which owns the vehicle, may both track it |
| CarrierAccess.RunOneSided | app/routes/fleet.py:189-198 | In every reachable state a vehicle with a carrier has no company |
| CarrierAccess.ExchangeVehiclesAreOpen | app/routes/fleet.py:351-353 | In every reachable state a vehicle of the exchange can be edited, and deleted unless something refers to it, by exactly the carriers and administrators without a company |
| DealPaths.BookedIsNotPaid | app/routes/deals.py:265-271 | A run after which the administrator is refused, with 400, to mark the booked deal paid |
| DealPaths.AdministratorStep | app/routes/deals.py:65-71 | One request of an administrator moves a deal iff the target is the next phase, or a cancellation before delivery |
| DealPaths.AdministratorReach | app/routes/deals.py:10-14 | Some sequence of an administrator's requests brings a deal to a status iff the status is its own or lies ahead in the order of phases, cancellation only before delivery |
| DealPaths.CarrierStep | app/routes/deals.py:59-63 | One request of a carrier moves a deal iff the target is the next phase and not beyond delivery |
| DealPaths.CarrierReach | app/routes/deals.py:12 | Some sequence of a carrier's requests brings a deal to a status iff it is its own, or lies ahead and not beyond delivery |
| DealPaths.OnlookerStep | app/routes/deals.py:13-14 | Shippers and forwarders are refused with 403 |
| DealPaths.FiveChangesHappen | app/routes/deals.py:65-71 | A run in which a deal changes status exactly five times, so the bound of five is attained |
| DealPaths.EveryAdvanceCounts | app/routes/deals.py:282-283 | From any reachable state an administrator can take a deal along any path of permitted statuses, each entry being one more change |
| Theorems.AtMostFiveChanges | app/routes/deals.py:59-71 | Over any run the status of a deal changes at most five times; the changes made and the changes left never exceed five |
| Theorems.LatestPositionAgreement | app/routes/fleet.py:107-118 | In every reachable state the fleet page and the tracking page show the same latest row of a vehicle, for any answers their queries may give |
| Theorems.LatestFixNeverMovesBack | app/services/gps_poll.py:75-98 | Whatever is polled, relinked or deleted, a vehicle's latest fix time never moves back |
| Invariants.RunInv | app/db/session.py:46-51 | Every run of requests from the empty database keeps the joint invariant: references, load, match, deal, sample, key and position facts together |
| Invariants.StepInv | app/db/session.py:46-51 | Every single request, succeeding or raising, keeps the joint invariant |
| Invariants.UpsertLoadsInv | app/services/ingestion.py:58-119 | A batch of load upserts keeps the joint invariant, in particular the count of samples |
| Invariants.UpsertVehiclesInv | app/services/ingestion.py:121-173 | A batch of vehicle upserts keeps it, in particular unique keys and unique carriers, which the database does not enforce |
| Invariants.MatchAllInv | app/agents/matcher.py:57-104 | A matcher run keeps it for any replies, also when it stops half-way |
| Invariants.PriceMatchesInv | app/agents/pricing.py:53-77 | A pricing run keeps it |
| Invariants.PromoteMatchInv | app/routes/deals.py:202-230 | Promoting a match keeps it |
| Invariants.ProposeDealInv | app/routes/vehicles.py:116-162 | Proposing a deal keeps it |
| Invariants.AdvancedInv | app/routes/deals.py:264-302 | A permitted status change keeps it, with a sample exactly on delivery at a price |
| Invariants.DeleteVehicleInv | app/routes/fleet.py:292-310 | Deleting an unreferenced vehicle keeps it |
| Invariants.PollInv | app/services/gps_poll.py:49-104 | A GPS poll keeps it |
| Evolution.RunEvolves | app/db/session.py:46-51 | Between any two times of a run rows are only added, BOOKED is never left and NEW never re-entered, deleted vehicles stay deleted, matches and deals only move forward, and every other column of loads, matches, deals and samples is frozen |
| Evolution.StepEvolves | app/db/session.py:46-51 | The same for a single request |
| Causes.EveryChangeHasItsCause | app/routes/loads_platform.py:213-221 | At every step of every run: a load changes status only by the matcher (from NEW), by its owner's cancellation or proposal while it is open, or by an administrator's promotion; a match only by rejection, a first rating or promotion; a deal exactly when an administrator or carrier asks for a status its role's table allows; a vehicle only by carriers and administrators with the same company, or lack of one, except that ingestion refreshes payloads and a proposal books it |
| Causes.MatchAllOnlyMatched | app/agents/matcher.py:57-104 | Whatever the replies, a matcher run only adds matches and turns NEW loads into MATCHED ones |
| Ingestion.IngestionService.IngestLoads | app/services/ingestion.py:33-43 | A batch of loads commits iff no key new to the database occurs twice in it; then the database is the fold of single upserts, the count is the growth of the table and every added load and sample has the columns of a proposal, otherwise nothing changed |
| Ingestion.IngestionService.UpsertLoadRow | app/services/ingestion.py:58-119 | A known load is refreshed in the transaction, a new one and its sample are added to the pending rows; the result tells which |
| Ingestion.IngestionService.IngestVehicles | app/services/ingestion.py:45-54 | A batch of vehicles commits iff every repetition of a new key has a proposal with a new carrier strictly between it and the first occurrence; then the database is the fold of single upserts, the count is the growth, and every added vehicle and carrier has the columns of the first proposal for it, otherwise nothing changed |
| Ingestion.IngestionService.UpsertVehicleRow | app/services/ingestion.py:121-152 | A known vehicle is refreshed, a new one is added after its carrier; it raises iff the flush for the carrier fails, and then rolls back |
| Ingestion.IngestionService.GetOrCreateCarrier | app/services/ingestion.py:154-173 | A known carrier is returned without a flush; an unknown one is added and flushed together with everything pending |
| Ingestion.StageLoadStep | app/services/ingestion.py:37-39 | Flushing the staged rows gives the fold if the batch is good and fails otherwise, after every proposal |
| Ingestion.StageVehicleStep | app/services/ingestion.py:48-50 | The same for vehicles with their flushes in the middle of a batch: the transaction shows exactly the keys that the last carrier made visible |
| Ingestion.UpsertLoadsFinds | app/services/ingestion.py:60-62 | After the upserts a key is present iff it was before or a proposal has it, and a known row keeps its place |
| Ingestion.UpsertVehiclesCarriers | app/services/ingestion.py:160-171 | After the upserts a carrier exists iff it did before or the first proposal of some new vehicle names it |
| Ingestion.AdjacentRepeatFails | app/services/ingestion.py:122-131 | A new key repeated right after its first occurrence loses the batch, even if the repetition brings a new carrier itself |
| Ingestion.CarrierInBetweenSaves | app/services/ingestion.py:166-172 | A proposal with a new carrier between the two occurrences saves it |
| Ingestion.LoadsAddedByBatch | app/services/ingestion.py:68-117 | Every load a batch adds is NEW and has the source, id, route, weight, body types, price, currency and details of a proposal; every sample added has the id, route, price, currency, weight and first body type of a proposal with a non-zero price in a named currency, and the time of the request |
| Ingestion.VehiclesAddedByBatch | app/services/ingestion.py:131-173 | Every vehicle a batch adds is available, without company or device, and has source, id, route, body type and capacity of the first proposal with its key; its carrier is the one with the Lardi id the proposal names, none if it names none; every carrier added has that id, the phone and the name, or a name made from the id |
| Reingestion.PayloadsAfterBatch | app/services/ingestion.py:63-66 | A load that was there differs at most in its payload, and any load the batch has proposals for ends with the payload of the last of them |
| Reingestion.VehiclePayloadsAfterBatch | app/services/ingestion.py:127-129 | The same for vehicles |
| Reingestion.RowsAfterBatch | app/services/ingestion.py:63-66 | After a load batch every old row keeps all columns but the payload, which is that of the last proposal with its key; every new row is a proposal's |
| Reingestion.VehicleRowsAfterBatch | app/services/ingestion.py:127-152 | After a vehicle batch every old row keeps all columns but the payload; every new row is the first proposal with its key, linked to the carrier it names; both carry the last payload |
| Reingestion.ReingestionChangesNothing | app/services/ingestion.py:58-66 | In every reachable state, ingesting a committed load batch again commits and leaves the database exactly as it was, without a new load or sample |
| Reingestion.VehicleReingestionChangesNothing | app/services/ingestion.py:121-129 | The same for vehicle batches, including those whose repetitions were saved by a flush |
| UnitOfWork.Session.Flush | app/db/session.py:29-34 | Pending rows become visible all together, or a violated constraint rolls the transaction back |
| UnitOfWork.Session.Commit | app/db/session.py:37-51 | The committed database becomes what the transaction and the pending rows amount to, or stays as it was |
| UnitOfWork.FlushAppends | app/db/session.py:29-34 | A flush that succeeds leaves every existing row at its place with its value, except that a deleted vehicle leaves a hole |
| UnitOfWork.FlushPrefixFails | app/db/models.py:258 | Once a row violates a constraint, no later row can repair the flush |
| Matcher.ShortlistIsBestTen | app/agents/matcher.py:108-158 | Filter, stable sort and truncate give a list iff it is the best ten: vehicles that are available, not known to be too small or in another country, and of a fitting body type; none left out is closer than one kept, ties in query order, shorter only if all are kept |
| Matcher.MatcherAgent.PrefilterCandidates | app/agents/matcher.py:108-139 | The loop, the sort and the slice return the best ten in that sense |
| Matcher.ViableIsCandidate | app/agents/matcher.py:115-158 | A vehicle passes the filters iff it is available, has no known capacity below a known weight, no named country other than the load's, and, if the load names body types, a named one of which one occurs in the other, letter case aside |
| Matcher.HasCandidateMeans | app/agents/matcher.py:69-72 | The model is asked about a load iff some vehicle may carry it in that sense |
| Matcher.MatcherAgent.AddScored | app/agents/matcher.py:77-97 | One pending row per item whose pair was not matched before, in order; an item with a missing field raises |
| Matcher.MatcherAgent.MatchOne | app/agents/matcher.py:67-104 | A load's turn commits the new rows and the MATCHED status together or changes nothing, and returns the growth of the match table |
| Matcher.MatcherAgent.MatchAllNewLoads | app/agents/matcher.py:57-65 | The run over all NEW loads commits load by load, stops at the first exception and otherwise returns the sum |
| Matcher.FlushMatches | app/db/models.py:258 | Pending match rows can be flushed iff their loads and vehicles exist and no pair is repeated or present |
| Matcher.ContainsIsOccurrence | app/agents/matcher.py:151-152 | The substring test holds iff the text occurs at some position |
| Matcher.BodyFitsIgnoresCase | app/agents/matcher.py:151-152 | Letter case on either side and the order of the two types are irrelevant to whether body types fit |
| Ranking.ShortlistExactly | app/agents/matcher.py:137-139 | Taking the first k of a stable sort computes the declarative "best k", and nothing else satisfies it |
| Accounting.MatcherAccounting | app/agents/matcher.py:57-104 | For any replies in any reachable state: the run succeeds iff every NEW load with a candidate gets a usable reply; then the total is the growth of the match table and each NEW load gained one row per item, in order; a load becomes MATCHED iff it gained a row; no other load's rows change |
| Accounting.MatchLoadOutcome | app/agents/matcher.py:67-104 | A NEW load's turn succeeds iff it has no candidate or its reply names existing, different vehicles in complete items, and then adds one row per item in order |
| Accounting.LoopGives | app/agents/matcher.py:77-97 | For any load, matched before or not: the loop gives one row per item whose pair has no match, in order, and raises iff an item names no vehicle or, not being skipped, has no score |
| Accounting.FailureKeepsCommitted | app/agents/matcher.py:63-64 | A failed run keeps exactly what it had committed for the loads before the first one whose turn raises |
| Accounting.RetryCompletes | app/agents/matcher.py:59-65 | In every reachable state, after a run that failed anywhere, a second run over the loads still NEW, in any order and with usable replies (the same where the first could use them), succeeds and leaves every load with the status and the rows that one uninterrupted run would have given it |
| Pricing.WindowIsNewest | app/agents/pricing.py:93-117 | The samples sent to the model are from and to the load's countries, at most 90 days old and of its first body type if that is named; at most twenty, newest first, and no such sample left out is newer than one kept |
| Pricing.WindowIsEnough | app/agents/pricing.py:109-117 | The window of at most twenty has three samples iff the table has three comparable ones |
| Pricing.PricingAgent.SuggestPrice | app/agents/pricing.py:93-176 | A price comes out iff the table holds at least three samples of the load's lane and the answer is usable; it is the answer's price in at most three upper-case letters of its currency |
| Pricing.PricingAgent.PriceAllUnpricedMatches | app/agents/pricing.py:53-77 | Every open match without a price gets that of its own answer iff its load has three comparable samples; no other match and no other table changes, and the count is how many got one |
| Gps.PollKeepsUnique | app/services/gps_poll.py:70-98 | A poll keeps (vehicle, fix time) unique although the database does not enforce it |
| Gps.PollRecords | app/services/gps_poll.py:60-98 | After a poll the last reported fix of every device is stored under the last listed vehicle linked to it |
| Gps.PollAddsExactly | app/services/gps_poll.py:70-98 | A poll adds a row iff it is the last reported fix of a device, under the last listed vehicle linked to it, at a time that vehicle has no fix of |
| Gps.PollInsertsOnlyNewer | app/services/gps_poll.py:17-18 | A poll inserts only positions newer than what the vehicle has iff no device's last reported fix is both unknown and older than the latest stored time of its vehicle |
| LateFixes.OlderFixIsInserted | app/services/gps_poll.py:75-97 | A vehicle is registered, its device reports time 10 and then time 5: the second poll of this run appends the older position |
| LateFixes.StoredInOrder | app/services/gps_poll.py:17-18 | Over any run the positions of every vehicle are stored in order of time iff no poll of the run had a late fix |
| Gps.ByDeviceExactly | app/adapters/traccar.py:201-206 | The adapter's dictionary holds a fix iff it is the last one reported for its device |
| Gps.LastFixExists | app/adapters/traccar.py:201-206 | Every reported device has a last fix, so no device is lost |
| Gps.OwnersExactly | app/services/gps_poll.py:60-64 | The dictionary maps a device to a vehicle iff it is the last listed one linked to it |
| Gps.OwnerExists | app/services/gps_poll.py:60-64 | Every device of a listed vehicle has an owner |
| Gps.SecondPollAddsNothing | app/services/gps_poll.py:75-84 | An identical second poll changes nothing |
| Gps.GPSPollService.GetPositions | app/adapters/traccar.py:201-206 | The loop returns one fix per reported device, the last one |
| Gps.GPSPollService.DeviceOwners | app/services/gps_poll.py:60-64 | The loop maps each device of a listed vehicle to the last listed vehicle linked to it, and no other device |
| Gps.GPSPollService.PollInner | app/services/gps_poll.py:49-104 | The poll inserts exactly the new fixes of linked devices and returns the growth of the table |
| Gps.ByDeviceShape | app/adapters/traccar.py:201-206 | At most one fix per device survives, and it is one that was reported |
| Gps.FleetPositions | app/routes/fleet.py:109-118 | The loop fills the dictionary with the rows of the DISTINCT ON query |
| Gps.FleetPicksFirst | app/routes/fleet.py:111-118 | The dictionary has, for each vehicle with a row, the first of its rows in the query's order |
| Gps.PagesAgree | app/routes/tracking.py:52-59 | On a table with unique fixes both pages pick the same row |
| Gps.TiesCanDisagree | app/routes/tracking.py:52-59 | Two rows with the same vehicle and fix time are enough for the pages to differ |
| Gps.LatestNeverMovesBack | app/routes/tracking.py:52-59 | While a vehicle's own rows are kept its latest fix time never moves back |
| Routes.NewLoadSubmit | app/routes/loads_platform.py:85-171 | Succeeds iff the user may post and the form is complete; then the one new load has the form's route, amounts, body types, currency and texts, trimmed and upper-cased as the route does, and the user as owner |
| Routes.CancelLoadRoute | app/routes/loads_platform.py:204-222 | Succeeds iff the load exists, the user posted it or is an administrator, and it is neither booked nor cancelled; then only its status differs, otherwise nothing does, with 404 for a missing and 403 for a foreign load |
| Routes.RejectMatchRoute | app/routes/loads_routes.py:155-166 | Succeeds iff the match exists; then only its status differs, otherwise nothing does |
| Routes.MatchFeedback | app/routes/loads_routes.py:169-204 | Stores the operator's verdict under their own key and no other, and leaves the match as it was except that a proposed one is reviewed |
| Routes.CreateDealFromMatch | app/routes/deals.py:179-230 | Succeeds iff an administrator promotes an existing match that is not rejected and whose vehicle has a carrier; then one deal at the price and currency of the request, the promoted match and the booked load are committed together, and nothing else differs |
| Routes.UpdateDealStatus | app/routes/deals.py:254-302 | Succeeds iff an administrator asks for the next phase or an early cancellation, or a carrier for the next phase up to delivery; then the status, and on delivery at a price its sample, are committed together |
| Routes.VehicleProposeDeal | app/routes/vehicles.py:103-163 | A proposal that passes the checks redirects to an existing deal, or commits match, deal and both statuses together, or raises and changes nothing; which of them depends on the pair's deals and matches and the vehicle's carrier |
| Routes.BookProposal | app/routes/vehicles.py:135-162 | Its writing half: succeeds iff the pair is unmatched and the vehicle has a carrier |
| Routes.FleetNewSubmit | app/routes/fleet.py:159-231 | Succeeds iff a carrier or administrator with a company names a plate; then one available vehicle with the form's columns is added, with a device iff the tracking server took it |
| Routes.FleetLinkTraccar | app/routes/fleet.py:238-279 | Succeeds iff the vehicle is of the user's fleet and company and the server assigns a device; then the vehicle is linked to that device and nothing else differs |
| Routes.FleetEditSubmit | app/routes/fleet.py:340-376 | Succeeds iff the vehicle is of the user's fleet and the plate is not blank; then body type, capacity, status and plate are the new ones, every other column, payload entry, row and table the old ones |
| Routes.FleetDeleteVehicle | app/routes/fleet.py:286-311 | The handler only marks the vehicle; the commit takes it away iff no match, deal or position refers to it, and otherwise nothing changes |
| Outcomes.PostOutcome | app/routes/loads_platform.py:85-168 | When posting succeeds, what the new load's columns are, and the code otherwise |
| Outcomes.PromoteOutcome | app/routes/deals.py:198-230 | When promotion succeeds, and the one deal, match and load it writes |
| Outcomes.ProposeOutcome | app/routes/vehicles.py:113-162 | When a proposal passes the checks, and the one deal, match, load and vehicle it writes |
| Outcomes.AdvanceOutcome | app/routes/deals.py:264-300 | Who may move a deal where, what it writes, and the code otherwise |
| Outcomes.RegisterOutcome | app/routes/fleet.py:169-200 | When registration succeeds, and the columns of the new vehicle |
| Outcomes.PromotionBooks | app/routes/deals.py:202-230 | In every reachable state, promotion by an administrator books exactly one deal at the price of the request iff the match is not rejected and its vehicle has a carrier; otherwise nothing happens |
| Outcomes.ProposalBooks | app/routes/vehicles.py:116-162 | In every reachable state, a proposal that passes the checks books exactly one deal iff the vehicle has a carrier and the pair has no match; otherwise nothing happens |
| Outcomes.StepTakesEffect | app/db/session.py:46-51 | Every request of a run, of any of the sixteen kinds, has the effect its rows and columns say, or leaves the state as it was, exactly when its conditions say so |
| Requests.CancelledUntilPromoted | app/routes/deals.py:225-228 | Along any run a cancelled load stays cancelled until an administrator promotes one of its matches, which books it; nothing else takes it out of that status |
| Requests.RejectedForGood | app/routes/deals.py:202-203 | A rejected match stays rejected over any further requests: promotion is refused and rating does not revive it |
| Requests.ChangeOfMind | app/routes/loads_routes.py:176-197 | Of two ratings by one operator only the second counts |
| Requests.OperatorsAreIndependent | app/routes/loads_routes.py:189-196 | Ratings by two operators give the same state in either order |
| Requests.LastEditWins | app/routes/fleet.py:368-373 | Of two edits of a vehicle the second counts, and the first leaves no trace |
| Requests.LinkedDeviceReports | app/services/gps_poll.py:51-98 | After linking, the next poll that lists the vehicle stores the device's last fix under it, unless a vehicle listed later has the same device |
| Requests.RegistrationUndone | app/routes/fleet.py:286-311 | In every reachable state a vehicle just registered can be deleted by its fleet, which leaves nothing but the used id; a second deletion finds none |
| Requests.ReferencedForGood | app/routes/fleet.py:309-310 | A vehicle that a match, deal or position refers to exists in every later state, and every attempt to delete it is refused |
| Slug.FindFreeSlug | app/routes/auth.py:132-143 | The search stops after at most one probe more than there are companies, on the base if it is free and on base-k for the least free k otherwise |
| Slug.LeastFree | app/routes/auth.py:136-143 | A free candidate exists within the number of companies, and the least one is found |
| Slug.Pigeonhole | app/routes/auth.py:142-143 | If the first n candidates are taken there are at least n companies |
| Slug.CandidatesDiffer | app/routes/auth.py:142 | Candidates with different numbers are different texts |
| Slug.Registry.RegisterSubmit | app/routes/auth.py:94-173 | Succeeds iff the form is valid, the trimmed name has two characters and the email is new; then one user and one company are added, its slug the first free one among the name's slug and its numbered variants |
| Slug.SlugsStayDistinct | app/routes/auth.py:132-155 | Over any sequence of registrations slugs and email addresses stay pairwise distinct |
| Slug.SlugifyIsSlug | app/routes/auth.py:269-277 | Every name gives 1 to 80 characters a-z, 0-9 and hyphen that do not start with a hyphen |
| Slug.SlugOfWords | app/routes/auth.py:274-277 | A name of words separated by runs of white space and underscores is slugged, before truncation, as the lower-case words joined by one hyphen each |
| Slug.OthersLeaveNoTrace | app/routes/auth.py:275 | A character that is no letter, digit, hyphen, white space or underscore leaves no trace in the slug |
| Slug.DefaultSlug | app/routes/auth.py:277 | Nothing is left of a name iff it has no letter and no digit, and then the slug is "company"; otherwise it is what is left, cut at 80; it is "company" in no other case than a name that spells it |
| Slug.SlugifyOfSlug | app/routes/auth.py:277 | On a slug the normaliser only strips trailing hyphens |
| Slug.SlugifyAgain | app/routes/auth.py:277 | The third application equals the second; the second equals the first iff truncation did not stop on a hyphen |
| Slug.SlugifyNotIdempotent | app/routes/auth.py:277 | A name for which the second application changes the slug |
| Trust.ScoreIsCappedSum | app/services/verification.py:190-194 | From zero the score is min(100, sum of all deltas), the badge is held iff the score is at least 35, and iff it was stamped |
| Trust.OrderDoesNotMatter | app/services/verification.py:190-191 | Histories with the same events in any order give the same score and badge |
| Trust.StampedOnce | app/services/verification.py:192-194 | The event that first reaches the threshold stamps the badge; badge, stamp, check rows and legal name are never taken back |
| Trust.BadgeWithoutRegistry | app/services/verification.py:14-15 | Without a passed registry check the badge is held iff the email bonus was granted at least three times |
| Trust.BadgeFromEmailsAlone | app/services/verification.py:75-87 | A history with the badge and no registry confirmation |
| Trust.BadgeMeansRegistry | app/services/verification.py:14-15 | On histories of at most two events the badge implies a passed registry check |
| Trust.DeltaOfRunAll | app/services/verification.py:53-71 | A full check is worth 35 points iff the Ukrainian registry confirms an active company, 30 iff VIES confirms the VAT number and 15 iff the email is verified |
| Trust.Company.RunAllChecks | app/services/verification.py:47-73 | A full check appends one row per registry that applies, passed with its points, failed, or left to a person; it fills an empty legal name once and adds 35, 30 and 15 points for what was confirmed, up to 100 |
| Trust.Company.UpdateEmailVerified | app/services/verification.py:75-87 | An email confirmation appends its row and applies 15 points |
| Trust.Company.Score | app/services/verification.py:190-194 | The score grows by the delta or stops at 100; the badge is held iff it was or the score has reached 35, and only a new badge is stamped |
| Text.ParseCountriesJoin | app/routes/loads_routes.py:209-212 | Parsing undoes comma-joining on every list of trimmed, upper-case, non-empty, comma-free codes |
| Text.ParseCountriesNormalises | app/routes/loads_routes.py:209-212 | Whatever is parsed, the result consists of such codes, and parsing its comma-joined form changes nothing |
| Text.ParseCountriesParts | app/routes/loads_routes.py:209-212 | Commas separate, a blank part gives nothing, any other part its trimmed upper-case text |
| Text.StripRecovers | app/routes/loads_platform.py:88-92 | Stripping takes white space away at both ends and nothing more |
| Text.LetterCase | app/routes/loads_platform.py:88-90 | Each of the 26 letters changes into its partner of the other case |
| Text.CaselessStay | app/agents/matcher.py:151-152 | No other character changes |
| Text.ExtractJsonRecovers | app/agents/matcher.py:249-256 | A {...} block wrapped in a prefix without an opening brace and a suffix without a closing one is recovered |
| Text.ExtractJsonIdempotent | app/agents/matcher.py:249-256 | Any text gives a block, and extracting again returns it |
| Text.SplitJoin | app/routes/loads_routes.py:212 | Splitting undoes joining on separator-free parts |
| Text.DecimalRoundTrip | app/services/ingestion.py:159 | Reading a number's decimal text gives the number back |
| Text.DecimalDigits | app/routes/auth.py:142 | A number is written as its tens followed by the digit of its units |
| Text.DigitsDenote | app/services/ingestion.py:156-159 | A text reads as a number iff it is a numeral of it, leading zeros allowed |

## Left out

- Matcher.MatcherAgent.MatchOne: requests that run while the matcher awaits a reply are not interleaved with it, because no row is locked and the invariants are claimed for serial steps; reasoning and deadhead of a match are not stored.
- Matcher.ShortlistIsBestTen: the great-circle formula and its rounding are not modelled; any distance function will do.
- Pricing.PricingAgent.SuggestPrice: the prompt and the parsing of the answer are not modelled; `price_match`, which prices one match without committing, has no caller in the model.
- Gps.GPSPollService.PollInner: speed, heading and address of a position are not stored; a failed call to the tracking server is an empty reply.
- Ingestion.IngestionService.IngestLoads: the adapter's search and its parsing of the exchange's records are not modelled; a batch of proposals is the input.
- Slug.SlugifyIsSlug: the Unicode normalisation before the ASCII text is not modelled.
- Slug.Registry.RegisterSubmit: the checks on role, email format, passwords and tax number are one flag; the verification run inside the same transaction is modelled in `Trust` on its own.
- Trust.Company.RunAllChecks: the address filled in from the registry and the details kept with a check row are not stored.
- Routes.FleetLinkTraccar: company accounts and groups on the tracking server are reduced to "the user has a company and the server assigned a device".
- Routes.UpdateDealStatus: a status text outside the enumeration is not an input; the code refuses each of them.
- Routes.FleetDeleteVehicle: the best-effort removal of the device on the tracking server is not modelled.
- Column widths and numeric overflow, which make an insert raise, are not modelled.
- Role guards, cookies, tokens and password hashing are not modelled beyond the role of the user of a request.
- The negotiation tables, dashboards, administration counters, search page, chatbot, seed script and migrations are left out: no request of the model reads or writes them, or they only report.
- Two deals for one load, or for one pair, are possible in the code (promotion does not look for a deal), so no uniqueness of deals is claimed; nor that a cancelled load stays cancelled, which promotion undoes.
