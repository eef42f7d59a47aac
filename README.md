# BikeTracker fuel log, modelled in Dafny

BikeTracker is an Android app that keeps a log of refuelling events (fills) for a motorbike.
Each fill records an instant, an odometer reading and a quantity, and is either a full tank
or a partial fill. The app derives a mileage for each full tank:

- the cycle of a full tank runs from the previous full tank to this one;
- its mileage is the distance driven over all the fuel bought in the cycle.

This project models the data layer and the repository of the app:

- the `FuelEntry` record, the `FuelCycle` value and the company-to-fuel-type catalogue;
- the Room DAO over the `fuel_entries` table, with its unique index on `dateTime` and its
  auto-incremented primary key;
- the repository's `validateOdometer`, `buildFuelCycle`, `recalculateMileageFrom`,
  `insertFuelEntry`, `updateAndRecalculateMileage` and `deleteFuelEntry`.

## How the model is built

- **The table.** The table is an unordered `seq<FuelEntry>`. `class FuelDao` holds it,
  together with the AUTOINCREMENT counter `lastId`.
- **DAO queries.** Each query is a function of the rows. A `Where` datatype stands for the
  query's `WHERE` clause. `ORDER BY … LIMIT 1` is specified as "a matching row, with no
  matching row earlier or later".
- **DAO mutations.** Each mutation is a method proved against a function of the old table:
  - `Inserted`, `Updated` and `Deleted` for insert, update and delete;
  - `WithMileage` for `updateMileage`.
- **The repository.** `class FuelRepository` holds the DAO.
  - Its methods fail where the Kotlin code throws. A failure is a `Response` value with the
    reason, and the table is left unchanged.
  - `RecalculateMileageFrom` keeps the source's `while` loop. It is proved to leave
    `Recalculated(rows, changedEntry)`: every full tank from the anchor onwards gets the
    mileage of its cycle, and every other row is kept.
  - The insert, update and delete methods are proved to leave `Recalculated` applied to the
    DAO's new table.
- **Properties, proved as lemmas on those functions:**
  - validation is exactly the check against every stored entry, for new entries and for
    edits that keep their instant, on tables whose odometer increases with time;
  - the sweep is idempotent;
  - insert, delete and instant-keeping edits keep a consistent table consistent, so every
    full tank holds its cycle's mileage. Insert and edit need a new first full tank to carry
    no mileage;
  - editing a partial fill rewrites only the next full tank;
  - every scenario of the repository's unit tests holds with its numbers, the edits included.

Where the code and its comments or design notes disagree, the model follows the code:

- **Anchor.** The comment at `recalculateMileageFrom` says the sweep always starts at the
  changed full tank itself. The code starts at the full tank after the previous full tank.
  With no earlier full tank, it starts at the first full tank strictly *after* the changed
  instant. So a full tank with no full tank before it is skipped by the sweep after its own
  insert or edit, and keeps the mileage it was stored with. A later change *before* it does
  sweep it, and then its mileage is rewritten. `Anchor` and `AnchorWhere` state this, and
  `NotRevisitedLiesBefore` states which full tanks a sweep skips.
- **Update anchor.** An update sweeps from the new entry only, never from the old one. The
  old entry is ignored (`oldEntry` is unused).
- **Validation order.** Validation checks, in order:
  1. the nearest earlier row;
  2. the nearest later row;
  3. a row at the same instant.

  A neighbour with the candidate's own id is dropped (`takeIf`). It is not replaced by the
  next row further out. `MovedUpdateSkipsOwnNeighbour` shows the consequence: an update that
  moves an entry past its old instant can leave the odometer out of time order.
- **Partial fills.** Only full tanks are written by the sweep. A partial fill keeps whatever
  mileage it carries.
- **Update in the tests.** The repository's tests call `updateFuelEntry(oldEntry, newEntry)`.
  The repository itself defines `updateAndRecalculateMileage(oldEntry, newEntry)`. The
  scenarios model the tests' updates with the latter.
- **Failures.**
  - `require(currentFull.isFullTank)` in `buildFuelCycle` becomes a precondition. Every
    caller in the repository passes a full tank.
  - A constraint violation raised by the update's `@Update` becomes `StorageFailure`. The
    update method is proved never to return it after validation passes.
- **Numbers.**
  - Doubles are exact `real`s.
  - Instants and ids are unbounded `int`s.
  - Id 0 stands for "not stored yet", since Room binds it as `NULL` and AUTOINCREMENT picks a
    fresh id.

## Model

| member | source | states |
|---|---|---|
| Entity.NewEntry | app/src/main/java/com/soumya/biketracker/data/entity/FuelEntry.kt:12-26 | A new entry has the default id 0 and no mileage, and keeps the given instant, odometer, quantity, price per litre, total cost, kind, company, fuel type and notes. |
| FuelRules.AllowedFuelTypes | app/src/main/java/com/soumya/biketracker/domain/FuelRule.kt:33-34 | The lookup returns the company's list from the constant map, never the empty fallback. The list is non-empty, starts with NORMAL and has no repetitions. |
| FuelRules.EveryCompanyListed | app/src/main/java/com/soumya/biketracker/domain/FuelRule.kt:5-31 | Every company is a key of the map, with a non-empty list. |
| FuelRules.CatalogEntries | app/src/main/java/com/soumya/biketracker/domain/FuelRule.kt:5-31 | The five lists, element by element and in order. |
| FuelRules.OnlyNormalIsShared | app/src/main/java/com/soumya/biketracker/domain/FuelRule.kt:5-31 | NORMAL is the only fuel type sold by two different companies. |
| Cycle.BuildFuelCycle | app/src/main/java/com/soumya/biketracker/repository/FuelRepository.kt:41-78 | With no full tank before, the cycle has no previous full, zero fuel and distance, and no mileage. Otherwise the previous full is the latest full tank before, the fuel bought in between counts with the current quantity, and the distance is the odometer difference. A mileage exists exactly when distance and fuel are positive, and then it times the fuel gives the distance. |
| Cycle.FuelConsumedOverClosedWindow | app/src/main/java/com/soumya/biketracker/repository/FuelRepository.kt:57-63 | For a stored full tank, the cycle's fuel is the sum of the quantities after the previous full tank, up to and including the current one. |
| Cycle.CycleAgrees | app/src/main/java/com/soumya/biketracker/repository/FuelRepository.kt:41-78 | Two tables whose rows agree in instant, in which rows are earlier full tanks and in their odometers give the same cycle, on equal fuel sums. |
| Cycle.CycleFromItsFigures | app/src/main/java/com/soumya/biketracker/repository/FuelRepository.kt:63-69 | The cycle's figures depend only on the previous full tank's instant and odometer and on the fuel sum. |
| Cycle.CycleIgnoresMileages | app/src/main/java/com/soumya/biketracker/repository/FuelRepository.kt:41-78 | Tables that differ only in mileages give every full tank the same cycle mileage. |
| Cycle.CycleIgnoresAppended | app/src/main/java/com/soumya/biketracker/repository/FuelRepository.kt:41-78 | A row at or after the closing instant does not change the cycle. |
| Cycle.CycleFromItsQueries | app/src/main/java/com/soumya/biketracker/repository/FuelRepository.kt:47-61 | The cycle is determined by the answers of getPreviousFullTank and getFuelConsumedBetween. |
| Cycle.CycleIgnoresDeleted | app/src/main/java/com/soumya/biketracker/repository/FuelRepository.kt:41-78 | Deleting a row at or after the closing instant does not change the cycle. |
| Cycle.FuelConsumedIgnoresDeleted | app/src/main/java/com/soumya/biketracker/data/dao/FuelDao.kt:53-62 | Deleting a row at or after the window's end leaves the fuel sum unchanged. |
| Cycle.PreviousFullTankIgnoresDeleted | app/src/main/java/com/soumya/biketracker/data/dao/FuelDao.kt:34-41 | Deleting a row at or after the instant leaves the previous full tank unchanged. |
| Dao.LatestIndex | app/src/main/java/com/soumya/biketracker/data/dao/FuelDao.kt:34-41 | The position found matches the filter and is not earlier than any matching row. There is none exactly when no row matches. |
| Dao.EarliestIndex | app/src/main/java/com/soumya/biketracker/data/dao/FuelDao.kt:64-71 | The position found matches the filter and is not later than any matching row. There is none exactly when no row matches. |
| Dao.Latest | app/src/main/java/com/soumya/biketracker/data/dao/FuelDao.kt:34-41 | `ORDER BY dateTime DESC LIMIT 1` gives a latest matching row, or null exactly when none matches. |
| Dao.Earliest | app/src/main/java/com/soumya/biketracker/data/dao/FuelDao.kt:64-71 | `ORDER BY dateTime ASC LIMIT 1` gives an earliest matching row, or null exactly when none matches. |
| Dao.SumQuantity | app/src/main/java/com/soumya/biketracker/data/dao/FuelDao.kt:53-62 | `IFNULL(SUM(quantity), 0)` is 0 when no row matches. |
| Dao.Select | app/src/main/java/com/soumya/biketracker/data/dao/FuelDao.kt:43-51 | A row is selected exactly when it is stored and matches the filter. |
| Dao.SortByTime | app/src/main/java/com/soumya/biketracker/data/dao/FuelDao.kt:28-29 | The result is in ascending instant order and is a permutation of the rows. |
| Dao.Reverse | app/src/main/java/com/soumya/biketracker/data/dao/FuelDao.kt:17-18 | The result holds the rows back to front, as a permutation. |
| Dao.GetAllOnce | app/src/main/java/com/soumya/biketracker/data/dao/FuelDao.kt:28-29 | All rows, in ascending instant order, as a permutation of the table. |
| Dao.GetAllFuelEntries | app/src/main/java/com/soumya/biketracker/data/dao/FuelDao.kt:17-18 | All rows, in descending instant order, as a permutation of the table. |
| Dao.GetPreviousFullTank | app/src/main/java/com/soumya/biketracker/data/dao/FuelDao.kt:34-41 | The latest stored full tank strictly before the instant, or null exactly when there is none. |
| Dao.GetNextFullTank | app/src/main/java/com/soumya/biketracker/data/dao/FuelDao.kt:64-71 | The earliest stored full tank strictly after the instant, or null exactly when there is none. |
| Dao.GetFuelConsumedBetween | app/src/main/java/com/soumya/biketracker/data/dao/FuelDao.kt:53-62 | The sum over the open window is 0 when no row lies strictly between the bounds. |
| Dao.GetEntriesBetween | app/src/main/java/com/soumya/biketracker/data/dao/FuelDao.kt:43-51 | A row is listed exactly when it is stored and lies in the window open at the start and closed at the end. |
| Dao.GetEntryBefore | app/src/main/java/com/soumya/biketracker/data/dao/FuelDao.kt:101-107 | The nearest stored row strictly before the instant, or null exactly when there is none. |
| Dao.GetEntryAfter | app/src/main/java/com/soumya/biketracker/data/dao/FuelDao.kt:109-115 | The nearest stored row strictly after the instant, or null exactly when there is none. |
| Dao.GetEntryAtTime | app/src/main/java/com/soumya/biketracker/data/dao/FuelDao.kt:117-122 | A stored row at exactly the instant, or null exactly when there is none. |
| Dao.Inserted | app/src/main/java/com/soumya/biketracker/data/dao/FuelDao.kt:14-15 | The old rows are kept, and one row is added carrying the entry with its assigned id. |
| Dao.Updated | app/src/main/java/com/soumya/biketracker/data/dao/FuelDao.kt:83-84 | The row with the entry's id is replaced by the entry, and every other row is kept. |
| Dao.Deleted | app/src/main/java/com/soumya/biketracker/data/dao/FuelDao.kt:86-87 | Exactly the rows with another id remain. |
| Dao.WithMileage | app/src/main/java/com/soumya/biketracker/data/dao/FuelDao.kt:73-81 | The row with the id gets the mileage. Nothing else changes, in that row or in any other. |
| Dao.FuelDao.constructor | app/src/main/java/com/soumya/biketracker/data/entity/FuelEntry.kt:8-11 | An empty, well-formed table whose id counter is 0. |
| Dao.FuelDao.InsertFuelEntry | app/src/main/java/com/soumya/biketracker/data/dao/FuelDao.kt:14-15 | The insert succeeds exactly when neither the id nor the instant is taken. On success, the table and the counter advance. On failure, nothing changes. The table stays well-formed. |
| Dao.FuelDao.UpdateFuelEntry | app/src/main/java/com/soumya/biketracker/data/dao/FuelDao.kt:83-84 | The update succeeds when no row has the id, and then changes nothing, or when no other row holds the instant, and then the row with the id is replaced. Otherwise it fails and nothing changes. |
| Dao.FuelDao.DeleteFuelEntry | app/src/main/java/com/soumya/biketracker/data/dao/FuelDao.kt:86-87 | The new table is the old one with the entry's id deleted. |
| Dao.FuelDao.UpdateMileage | app/src/main/java/com/soumya/biketracker/data/dao/FuelDao.kt:73-81 | The new table is the old one with that row's mileage set. |
| Dao.DeletedKeepsWellFormed | app/src/main/java/com/soumya/biketracker/data/dao/FuelDao.kt:86-87 | Deleting keeps both the unique instants and the unique ids. |
| DaoFacts.LatestOfSameRows | app/src/main/java/com/soumya/biketracker/data/dao/FuelDao.kt:34-41 | Tables with the same matching rows give the same latest row. |
| DaoFacts.EarliestOfSameRows | app/src/main/java/com/soumya/biketracker/data/dao/FuelDao.kt:64-71 | Tables with the same matching rows give the same earliest row. |
| DaoFacts.SumThroughSplits | app/src/main/java/com/soumya/biketracker/repository/FuelRepository.kt:57-63 | The sum over the half-open window is the sum over the open window plus the sum at the closing instant. |
| DaoFacts.SumAtRow | app/src/main/java/com/soumya/biketracker/data/entity/FuelEntry.kt:8-11 | With unique instants, the sum at a row's instant is that row's quantity. |
| DaoFacts.OrderedTableIsItsListing | app/src/main/java/com/soumya/biketracker/data/dao/FuelDao.kt:28-29 | A table already in instant order is exactly what getAllOnce lists. |
| DaoFacts.AscendingPermutationsAgree | app/src/main/java/com/soumya/biketracker/data/dao/FuelDao.kt:28-29 | The ordered listing is unique: two ascending permutations of rows with unique instants are equal. |
| Repository.ValidateOdometer | app/src/main/java/com/soumya/biketracker/repository/FuelRepository.kt:81-110 | Each refusal names its witness: a nearest earlier row of another id, not below, with its odometer; a nearest later row of another id, not above, with its odometer; or another row at the same instant. |
| Repository.Anchor | app/src/main/java/com/soumya/biketracker/repository/FuelRepository.kt:148-162 | The sweep starts at the earliest full tank at or after the changed instant when a full tank lies before it. Otherwise it starts at the earliest full tank strictly after it, and there is none exactly when no such full tank exists. |
| Repository.Swept | app/src/main/java/com/soumya/biketracker/repository/FuelRepository.kt:164-174 | Only mileages change. Each visited full tank gets its cycle's mileage, and every other row is kept. |
| Repository.FuelRepository.constructor | app/src/main/java/com/soumya/biketracker/repository/FuelRepository.kt:12 | The repository wraps the given DAO. |
| Repository.FuelRepository.RecalculateMileageFrom | app/src/main/java/com/soumya/biketracker/repository/FuelRepository.kt:143-175 | The loop leaves exactly `Recalculated(old table, changedEntry)`. It visits, in strictly increasing instant order, exactly the full tanks from the anchor onwards, and keeps the id counter. |
| Repository.FuelRepository.InsertFuelEntry | app/src/main/java/com/soumya/biketracker/repository/FuelRepository.kt:23-35 | A validation failure is rejected with its reason. A taken id or instant is rejected as "an entry already exists for this date and time". Either way nothing changes. Otherwise the call succeeds, leaving the inserted table swept from the entry. |
| Repository.FuelRepository.UpdateAndRecalculateMileage | app/src/main/java/com/soumya/biketracker/repository/FuelRepository.kt:112-121 | A validation failure is rejected and changes nothing. Otherwise the call succeeds, leaving the updated table swept from the new entry; the store never refuses. |
| Repository.FuelRepository.DeleteFuelEntry | app/src/main/java/com/soumya/biketracker/repository/FuelRepository.kt:123-126 | The call leaves the table with the entry deleted, swept from the entry. |
| Repository.PassedValidationAllowsUpdate | app/src/main/java/com/soumya/biketracker/repository/FuelRepository.kt:101-118 | An entry that passes validation cannot break the unique instant index on update. |
| Consistency.RecalculatedMileageIsFinal | app/src/main/java/com/soumya/biketracker/repository/FuelRepository.kt:164-174 | Each visited full tank holds its cycle's mileage in the final table, not only in the table the sweep started from. |
| Consistency.AnchorTimeAgrees | app/src/main/java/com/soumya/biketracker/repository/FuelRepository.kt:148-162 | Tables that differ only in mileages have anchors at the same instant. |
| Consistency.RecalculateIsIdempotent | app/src/main/java/com/soumya/biketracker/repository/FuelRepository.kt:143-175 | Sweeping twice from the same entry gives what sweeping once gives. |
| Consistency.NotRevisitedLiesBefore | app/src/main/java/com/soumya/biketracker/repository/FuelRepository.kt:148-162 | A full tank the sweep skips lies before the changed instant, or at it when no full tank precedes. |
| Consistency.SweepRestoresConsistency | app/src/main/java/com/soumya/biketracker/repository/FuelRepository.kt:143-175 | When the full tanks the sweep skips are settled, every full tank holds its cycle's mileage afterwards. |
| Consistency.InsertKeepsConsistent | app/src/main/java/com/soumya/biketracker/repository/FuelRepository.kt:23-35 | Insert then sweep keeps a consistent table consistent. A new first full tank must carry no mileage. |
| Consistency.DeleteKeepsConsistent | app/src/main/java/com/soumya/biketracker/repository/FuelRepository.kt:123-126 | Delete then sweep keeps a consistent table consistent. |
| Consistency.CycleIgnoresLaterEdit | app/src/main/java/com/soumya/biketracker/repository/FuelRepository.kt:41-78 | An edit that keeps its instant leaves the cycles of full tanks at or before that instant alone. |
| Consistency.EditKeepsConsistent | app/src/main/java/com/soumya/biketracker/repository/FuelRepository.kt:112-121 | Update then sweep keeps a consistent table consistent, for edits that keep their instant. |
| Consistency.CycleIgnoresEarlierPartialEdit | app/src/main/java/com/soumya/biketracker/repository/FuelRepository.kt:41-78 | A partial fill's edit does not reach cycles that close after the next full tank. |
| Consistency.PartialEditTouchesOnlyNextFullTank | app/src/main/java/com/soumya/biketracker/repository/FuelRepository.kt:112-121 | Editing a partial fill replaces it and rewrites only the next full tank's mileage. Every other row is kept. |
| Consistency.AppendingNewestEntry | app/src/main/java/com/soumya/biketracker/repository/FuelRepository.kt:23-35 | Inserting an entry later than all others appends it with its id. It gets its cycle's mileage when it is a full tank, and none when partial. No other row changes. |
| Consistency.NewestAnchor | app/src/main/java/com/soumya/biketracker/repository/FuelRepository.kt:148-162 | After appending the newest entry, the sweep visits the new row exactly when it is a full tank with a full tank before it. |
| ValidationFacts.ValidationOrder | app/src/main/java/com/soumya/biketracker/repository/FuelRepository.kt:81-110 | The previous-odometer reason wins over the next-odometer one, and both win over the instant. An entry passes exactly when none of the three applies. |
| ValidationFacts.ValidationIsExact | app/src/main/java/com/soumya/biketracker/repository/FuelRepository.kt:81-110 | On a table whose odometer increases with time, an entry that keeps its instant passes exactly when it has its own instant and its odometer fits in time order against every other stored row. |
| ValidationFacts.ValidatedInsertKeepsOrder | app/src/main/java/com/soumya/biketracker/repository/FuelRepository.kt:23-35 | An insert with a fresh id that passes validation is accepted by the store and keeps the odometer increasing with time. |
| ValidationFacts.ValidatedEditKeepsOrder | app/src/main/java/com/soumya/biketracker/repository/FuelRepository.kt:112-121 | An edit that keeps its instant and passes validation is accepted by the store and keeps the odometer increasing with time. |
| ValidationFacts.ValidatedFreshInsertIsStored | app/src/main/java/com/soumya/biketracker/repository/FuelRepository.kt:26-32 | With a fresh id, the constraint-violation branch of the insert is never taken after validation passes. |
| ValidationFacts.MovedUpdateSkipsOwnNeighbour | app/src/main/java/com/soumya/biketracker/repository/FuelRepository.kt:83-87 | A concrete ordered table where moving an entry past its own old instant passes validation yet breaks odometer order. |
| Scenarios.NewestFillIsLogged | app/src/main/java/com/soumya/biketracker/repository/FuelRepository.kt:23-35 | A fill later and further than every row is accepted. It is appended with the next id and its cycle's mileage, and the table stays ordered and consistent. |
| Scenarios.FirstFillIsLogged | app/src/main/java/com/soumya/biketracker/repository/FuelRepository.kt:23-35 | Into an empty table, a fill is stored with id 1 and no mileage. |
| Scenarios.ListedAsStored | app/src/main/java/com/soumya/biketracker/data/dao/FuelDao.kt:28-29 | A table in instant order is what getAllOnce lists. |
| Scenarios.CycleFromPrevious | app/src/main/java/com/soumya/biketracker/repository/FuelRepository.kt:57-69 | Once the previous full tank is known, the mileage is the distance from it over the fuel bought after it. |
| Scenarios.EditedTable | app/src/main/java/com/soumya/biketracker/repository/FuelRepository.kt:112-121 | After an edit that keeps its instant, the row is replaced in place and the table stays in order. Every full tank carries its cycle's mileage in the edited table. |
| Scenarios.FirstFullTankHasNoMileage | app/src/test/java/com/soumya/biketracker/repository/FuelRepositoryTest.kt:42-51 | The first full tank is stored with no mileage and listed alone. |
| Scenarios.TwoFullTanksGiveTheirMileage | app/src/test/java/com/soumya/biketracker/repository/FuelRepositoryTest.kt:54-68 | Two full tanks 100 km and 5 litres apart give the second a mileage of 20. |
| Scenarios.PartialTanksAreCounted | app/src/test/java/com/soumya/biketracker/repository/FuelRepositoryTest.kt:71-95 | Partial fills of 3 and 2 litres between full tanks count: 100 km over 10 litres gives 10. |
| Scenarios.SmallerOdometerIsRejected | app/src/test/java/com/soumya/biketracker/repository/FuelRepositoryTest.kt:162-174 | A second fill with a smaller odometer is refused, naming the previous odometer, 200. |
| Scenarios.FourFullTanksAreLogged | app/src/test/java/com/soumya/biketracker/repository/FuelRepositoryTest.kt:176-206 | Four full tanks 100 km and 5 litres apart each get 20 after the first. |
| Scenarios.FullPartialFullIsLogged | app/src/test/java/com/soumya/biketracker/repository/FuelRepositoryTest.kt:99-105 | The table the partial-edit test builds, with its mileages. |
| Scenarios.FullPartialFullFullIsLogged | app/src/test/java/com/soumya/biketracker/repository/FuelRepositoryTest.kt:289-319 | The table the partial-update test builds, with mileages 10 and 20. |
| Scenarios.EditedCycleAfterFull | app/src/test/java/com/soumya/biketracker/repository/FuelRepositoryTest.kt:142-160 | After an in-place edit, a full tank right after a full tank gets the new distance over its own fill. |
| Scenarios.EditedCycleAfterPartial | app/src/test/java/com/soumya/biketracker/repository/FuelRepositoryTest.kt:99-118 | After an in-place edit, a full tank after one partial fill gets the distance over both fills. |
| Scenarios.EditedKeepsRow | app/src/test/java/com/soumya/biketracker/repository/FuelRepositoryTest.kt:289-348 | After an in-place edit, a full tank whose cycle does not reach the edited row keeps its row, mileage included. |
| Scenarios.InPlaceEditPasses | app/src/main/java/com/soumya/biketracker/repository/FuelRepository.kt:81-110 | An edit that keeps its instant, with an odometer between its neighbours', passes validation. |
| EditScenarios.PartialEditRecalculatesNextFullTank | app/src/test/java/com/soumya/biketracker/repository/FuelRepositoryTest.kt:99-118 | Raising the partial fill to 5 litres passes validation, and the swept table, read back in order, gives the last full tank 10. |
| EditScenarios.PreviousQuantityEditKeepsMileage | app/src/test/java/com/soumya/biketracker/repository/FuelRepositoryTest.kt:121-139 | Doubling the first full tank's quantity passes validation and leaves the second full tank at 20. |
| EditScenarios.PreviousOdometerEditChangesMileage | app/src/test/java/com/soumya/biketracker/repository/FuelRepositoryTest.kt:142-160 | Moving the first full tank's odometer to 120 passes validation and gives the second full tank 16. |
| EditScenarios.ThirdQuantityEditChangesOnlyThird | app/src/test/java/com/soumya/biketracker/repository/FuelRepositoryTest.kt:176-228 | Raising F3 to 10 litres passes validation, gives F3 10 and leaves F4 at 20. |
| EditScenarios.SecondOdometerEditChangesSecondAndThird | app/src/test/java/com/soumya/biketracker/repository/FuelRepositoryTest.kt:230-286 | Moving F2's odometer to 250 passes validation, gives F2 30 and F3 10, and leaves the F4 row unchanged at 20. |
| EditScenarios.PartialEditChangesOnlyNextFullTank | app/src/test/java/com/soumya/biketracker/repository/FuelRepositoryTest.kt:289-348 | Raising P1 to 10 litres passes validation, gives F2 exactly 20/3, and leaves the F3 row unchanged at 20. |

## Left out

- The UI, the view model, the database wiring and the type converters are not modelled. They are not part of the data layer.
- Dao.GetAllFuelEntries: models one snapshot of the `Flow`. Updates pushed to observers are not modelled, because there is no notion of time or subscription here. `getAllFuelEntries` of the repository forwards the same stream (`FuelRepository.kt:19-21`).
- Transactions are not modelled. `@Transaction` on the sweep and on the update, and the rollback on an exception, are left out. Each call runs alone, from start to end. Concurrency and coroutine suspension are left out for the same reason.
- Floating point is not modelled. Doubles become exact reals, so rounding in the mileage division, and the tests' tolerance of 0.01, are absent. The 6.666 of the partial-update test is stated as the exact quotient 20/3 (`EditScenarios.PartialEditChangesOnlyNextFullTank`).
- 64-bit overflow of `Long` instants and rowids is not modelled. The AUTOINCREMENT failure once the rowid space is exhausted is left out.
- `clearAll` (`FuelRepository.kt:37-39`, `FuelDao.kt:31-32`) is not modelled: no core operation or property depends on it.
- `dumpFuelTable` (`FuelRepository.kt:128-140`) and `debugEntriesBetween` (`FuelDao.kt:89-99`) are not modelled. They are debug-only printing and a debug query.
- `getPreviousEntry` (`FuelDao.kt:20-26`) is not modelled: no core code calls it. It is the same query as `getEntryBefore`, which is modelled.
- The `Log` calls and the `DEBUG_MILEAGE` switch are not modelled: they have no effect on the data.
- Repository.FuelRepository.UpdateAndRecalculateMileage: the consistency of the table after the call is proved only for edits that keep the entry's instant (`EditKeepsConsistent`). For an edit that moves the entry in time, the model states the resulting table exactly, but proves no property of it. `MovedUpdateSkipsOwnNeighbour` shows such an edit can break odometer order.
- The unit-test harness is not modelled. The in-memory database setup and teardown are replaced by the empty table with counter 0.
