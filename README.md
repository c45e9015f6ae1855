# Fish report: a verified model of its core

This project models four sequential pieces of the fish-report application in
Dafny and proves properties about them.

- **The Aurora DSQL connection service** (`connection_service.dfy`, module
  `AuroraDsqlConnection`). The service caches one IAM authentication token and
  its expiry. It reuses the token while the clock is strictly before the expiry
  minus five minutes. Otherwise it takes the refresh lock, re-checks the cache,
  asks the token issuer and stores the new token with an expiry sixty minutes
  after it was stored. It then writes the endpoint, database, username and token
  into a fixed `key=value;` connection string.
  - The class `ConnectionService` holds the fields `cachedToken` and
    `tokenExpiry`, plus a ghost flag for the semaphore.
  - Its methods are proved against the pure function `GetOrRefresh`. The timing
    properties are lemmas about that function.
- **The generic repository** (`generic_repository.dfy`, module
  `CommonRepository`). The class `GenericRepository<T>` holds a table of rows
  keyed by an `Id`, plus the changes staged since the last save.
  - `Create` fills a zero `Id` with the largest persisted key plus one, using
    C# `int` arithmetic.
  - `Update` and `Delete` report whether the key exists. They mark the entity
    in the change tracker, which holds one mark per tracked entity: marking an
    entity again replaces its earlier mark.
  - `SaveChanges` applies every staged change through the pure function
    `Commit`, or none of them.
- **The market–species inventory** (`fish_market_repository.dfy`, module
  `FishMarketRepository`). The class holds the inventory rows and the keys of
  the existing markets and species. Adding a link and removing a link each
  commit at once. The rows never hold a duplicate pair, and every row links an
  existing market to an existing species.
- **The fish-image resolver** (`fish_image_table.dfy`, `js_string.dfy` and
  `fish_image_map.dfy`).
  - `FishImageTable` holds the 34-entry table in declaration order.
  - `JsString` models `toLowerCase`, `trim` and `includes`.
  - `FishImageMap` holds `getFishImage`: normalise the name, try the exact key,
    then the first key that contains the name or is contained in it, and fall
    back to the tuna image.

`wrappers.dfy` holds the shared `Option`, `Result` and `Outcome` types.

The comparison at `AuroraDsqlConnectionService.cs:63` is strict. A token
stored at minute 0 is therefore still used at minute 54 and at any tick before
minute 55, and the refresh first happens at minute 55. `RefreshBoundary` proves
this.

Time is a count of DateTime ticks (100 ns each), with `DateTime.MinValue` as
tick 0. Each call to the cache is given its three clock readings and the
issuer it would ask as a parameter of type `Call`.

## Model

| member | source | states |
|---|---|---|
| AuroraDsqlConnection.GetOrRefresh | fishReport_api/Services/AuroraDsqlConnectionService.cs:60-92 | The issuer is asked exactly when neither the lock-free check nor the re-check finds a token usable before expiry minus 5 minutes. Otherwise the cached token is returned and the state is unchanged. A failed generation returns the error and keeps the old token and expiry. A successful one returns the token and stores it with an expiry 60 minutes after the store time. |
| AuroraDsqlConnection.Region | fishReport_api/Services/AuroraDsqlConnectionService.cs:34 | The configured region, or "us-east-1" when the key is not configured. |
| AuroraDsqlConnection.Database | fishReport_api/Services/AuroraDsqlConnectionService.cs:35 | The configured database, or "postgres" when the key is not configured. |
| AuroraDsqlConnection.Username | fishReport_api/Services/AuroraDsqlConnectionService.cs:36 | The configured username, or "admin" when the key is not configured. |
| AuroraDsqlConnection.Initial | fishReport_api/Services/AuroraDsqlConnectionService.cs:15-16 | The state of a new service: no cached token and an expiry of DateTime.MinValue. A constant with no contract of its own; `FirstCallCallsIssuer` states what it means for the first call. |
| AuroraDsqlConnection.Usable | fishReport_api/Services/AuroraDsqlConnectionService.cs:63-76 | The test made before and after taking the lock: a token is cached and the clock is strictly before its expiry minus 5 minutes. It has no contract of its own; `GetOrRefresh` and `CachedToken` state their results through it. |
| AuroraDsqlConnection.FirstCallCallsIssuer | fishReport_api/Services/AuroraDsqlConnectionService.cs:15-16 | A new service, with no token and an expiry of DateTime.MinValue, asks the issuer on its first call at any clock value. |
| AuroraDsqlConnection.RefreshBoundary | fishReport_api/Services/AuroraDsqlConnectionService.cs:63 | A token stored at t0 is reused at minute 54 and at the last tick before minute 55. It is refreshed at minute 55. |
| AuroraDsqlConnection.NoIssuerCallsWhileUsable | fishReport_api/Services/AuroraDsqlConnectionService.cs:63-76 | While a cached token outlives a window, no call that checks within the window asks the issuer. |
| AuroraDsqlConnection.AtMostOneRefreshPerWindow | fishReport_api/Services/AuroraDsqlConnectionService.cs:60-92 | Any sequence of calls that check within one usable lifetime asks the issuer at most once, provided the issuer does not fail. |
| AuroraDsqlConnection.ConnectionSettings | fishReport_api/Services/AuroraDsqlConnectionService.cs:40-50 | The nine settings in the order they are appended. No key holds `;` or `=`, and no value holds `;` when no ingredient does. |
| AuroraDsqlConnection.Render | fishReport_api/Services/AuroraDsqlConnectionService.cs:40-50 | Each setting written as `key=value;`, one after the other. It has no contract of its own; `ConnectionStringShape` and `RenderParses` state what it produces. |
| AuroraDsqlConnection.Entry | fishReport_api/Services/AuroraDsqlConnectionService.cs:41-49 | One `Append($"{key}={value};")`. It has no contract of its own; `ParseEntry` proves that it reads back as its setting. |
| AuroraDsqlConnection.ConnectionString | fishReport_api/Services/AuroraDsqlConnectionService.cs:40-50 | When no ingredient holds `;`, the connection string reads back as exactly its nine settings in order. |
| AuroraDsqlConnection.ConnectionStringShape | fishReport_api/Services/AuroraDsqlConnectionService.cs:40-50 | The connection string is exactly `Host=E;Port=5432;Database=D;Username=U;Password=T;SSL Mode=Require;Trust Server Certificate=true;Timeout=30;Command Timeout=30;`. |
| AuroraDsqlConnection.ParseEntry | fishReport_api/Services/AuroraDsqlConnectionService.cs:40-50 | One `key=value;` entry in front of more text reads back as that setting, followed by whatever the rest reads as. |
| AuroraDsqlConnection.RenderParses | fishReport_api/Services/AuroraDsqlConnectionService.cs:40-50 | Settings whose keys hold no `;` or `=` and whose values hold no `;` read back from their rendering as written. |
| AuroraDsqlConnection.ConnectionService.constructor | fishReport_api/Services/AuroraDsqlConnectionService.cs:13-25 | A new service holds no token, an expiry of DateTime.MinValue and a free lock. |
| AuroraDsqlConnection.ConnectionService.CachedToken | fishReport_api/Services/AuroraDsqlConnectionService.cs:63-67 | The lock-free check yields the cached token exactly when it is usable at that clock value. |
| AuroraDsqlConnection.ConnectionService.AcquireLock | fishReport_api/Services/AuroraDsqlConnectionService.cs:69 | Waiting on the semaphore: a caller holding no lock comes out holding it. |
| AuroraDsqlConnection.ConnectionService.GenerateAuthToken | fishReport_api/Services/AuroraDsqlConnectionService.cs:97-119 | Asked only under the lock, the issuer yields the token, or its failure becomes the single token-generation error. The issuer count grows by one. |
| AuroraDsqlConnection.ConnectionService.RefreshUnderLock | fishReport_api/Services/AuroraDsqlConnectionService.cs:69-91 | A usable token at the re-check is returned with nothing changed. Otherwise a failure leaves the state as it was, and a success stores the token with expiry = store time + 60 minutes. The lock is free on every exit, and the invariant linking expiry to refresh time holds. |
| AuroraDsqlConnection.ConnectionService.GetOrRefreshToken | fishReport_api/Services/AuroraDsqlConnectionService.cs:60-92 | The result, the new token and expiry, and the number of issuer calls are those `GetOrRefresh` gives. The lock is free again afterwards. |
| AuroraDsqlConnection.ConnectionService.GetConnectionString | fishReport_api/Services/AuroraDsqlConnectionService.cs:30-55 | A missing endpoint fails before any token work, with nothing changed. Otherwise region, database and username default to us-east-1, postgres and admin. A token failure is passed on, and a success yields the connection string around the token. |
| AuroraDsqlConnection.TwoCallersOneRefresh | fishReport_api/Services/AuroraDsqlConnectionService.cs:69-82 | Two callers that both found the cache empty ask the issuer once: the second finds the first's token at its re-check, and both get that token. |
| CommonRepository.Wrap32 | fishReport_api/Repositories/CommonRepository.cs:45 | The result is congruent to the input modulo 2^32 and lies in the C# `int` range. It equals the input whenever the input is in range. |
| CommonRepository.FindById | fishReport_api/Repositories/CommonRepository.cs:24-27 | The result is none exactly when no row has the key. Otherwise it is the first row with that key. |
| CommonRepository.MaxId | fishReport_api/Repositories/CommonRepository.cs:41-43 | On a non-empty table, the result is the key of some row and at least every row's key. |
| CommonRepository.NextId | fishReport_api/Repositories/CommonRepository.cs:41-45 | An empty table gives key 1. While no persisted key is `int.MaxValue`, the new key is above every persisted key. |
| CommonRepository.NextIdAboveAll | fishReport_api/Repositories/CommonRepository.cs:41-45 | While no key is `int.MaxValue`, the new key is the largest key plus one, so no persisted row has it. |
| CommonRepository.NextIdWrapsAtMax | fishReport_api/Repositories/CommonRepository.cs:45 | A persisted key of `int.MaxValue` makes the new key wrap to `int.MinValue`. |
| CommonRepository.Replace | fishReport_api/Repositories/CommonRepository.cs:58 | Saving a modified entity replaces every row with its key and keeps every other row. Read back by key, the table then gives the entity for its key when that key was present, and what it gave before for every other key. |
| CommonRepository.Without | fishReport_api/Repositories/CommonRepository.cs:67 | Saving a removal keeps exactly the rows without that key. |
| CommonRepository.Apply | fishReport_api/Repositories/CommonRepository.cs:71-74 | One staged change written by the save. An insert succeeds exactly when its key is absent, an update or delete exactly when it is present. Afterwards the key is present unless the change removed it, and the primary-key constraint still holds. |
| CommonRepository.Commit | fishReport_api/Repositories/CommonRepository.cs:71-74 | All staged changes in order, refused as a whole at the first refused change. A successful save never breaks the primary-key constraint. |
| CommonRepository.Track | fishReport_api/Repositories/CommonRepository.cs:53-69 | Marking a persisted entity modified or removed. An entity marked already takes the new mark in place; otherwise the mark is appended. |
| CommonRepository.TrackKeepsOneMarkPerKey | fishReport_api/Repositories/CommonRepository.cs:53-69 | Marking an entity keeps the tracker at one modified-or-removed mark per key. |
| CommonRepository.AddKeepsOneMarkPerKey | fishReport_api/Repositories/CommonRepository.cs:49 | Staging an insert leaves the marks of the tracker alone. |
| CommonRepository.DeleteTwiceSaves | fishReport_api/Repositories/CommonRepository.cs:62-74 | Deleting the same entity twice before saving leaves one removal mark, and the save deletes the entity. |
| CommonRepository.UpdateAfterDeleteSaves | fishReport_api/Repositories/CommonRepository.cs:53-74 | Updating an entity deleted earlier in the same unit of work turns the removal into an update, and the save applies the update. |
| CommonRepository.CreateThenSave | fishReport_api/Repositories/CommonRepository.cs:34-51 | Creating a key-less entity and saving it appends that entity under the next key. |
| CommonRepository.RacingAllocationsConflict | fishReport_api/Repositories/CommonRepository.cs:41-49 | Two entities given their key from the same snapshot get the same key. Saved together, or one after the other, the second is refused. |
| CommonRepository.GenericRepository.constructor | fishReport_api/Repositories/CommonRepository.cs:13-17 | A new repository holds the given table with nothing staged. |
| CommonRepository.GenericRepository.GetById | fishReport_api/Repositories/CommonRepository.cs:24-27 | The result is a persisted entity with that key, or none exactly when there is none. |
| CommonRepository.GenericRepository.Create | fishReport_api/Repositories/CommonRepository.cs:34-51 | A zero key becomes the next key, computed from persisted rows only. A non-zero key and the data are kept. The entity is staged for insertion and returned, nothing is persisted, and the repository invariant is kept. |
| CommonRepository.GenericRepository.Update | fishReport_api/Repositories/CommonRepository.cs:53-60 | Reports whether a persisted row has the key. Only then is the entity marked modified, replacing an earlier mark of that key; otherwise nothing is staged. The repository invariant is kept. |
| CommonRepository.GenericRepository.Delete | fishReport_api/Repositories/CommonRepository.cs:62-69 | Reports whether a persisted row has the key. Only then is that row marked removed, replacing an earlier mark of that key; otherwise nothing changes. The repository invariant is kept. |
| CommonRepository.GenericRepository.SaveChanges | fishReport_api/Repositories/CommonRepository.cs:71-74 | Either every staged change is written and the staging emptied, or the save is refused with table and staging unchanged. Keys stay unique either way. |
| CommonRepository.TwoCreatesBeforeSave | fishReport_api/Repositories/CommonRepository.cs:38-49 | Two creates in one unit of work get the same key, because staged inserts do not count towards the maximum. The save is then refused. |
| CommonRepository.DeleteTwiceBeforeSave | fishReport_api/Repositories/CommonRepository.cs:62-74 | Two deletes of the same persisted key before a save both report true. The save succeeds, the key is gone, and every other row stays. |
| FishMarketRepository.SpeciesOf | fishReport_api/Repositories/FishMarketRepository.cs:25-31 | The species listed for a market are exactly those linked to it in the inventory. |
| FishMarketRepository.RemoveFirst | fishReport_api/Repositories/FishMarketRepository.cs:90 | Removing a present row takes exactly one copy of it out of the multiset of rows. An absent row leaves the inventory as it is. |
| FishMarketRepository.RemoveFirstFromDistinct | fishReport_api/Repositories/FishMarketRepository.cs:80-96 | On an inventory without duplicate pairs, removal leaves none of the pair and no duplicates. |
| FishMarketRepository.AppendKeepsDistinct | fishReport_api/Repositories/FishMarketRepository.cs:47-60 | Appending a pair not yet present keeps the inventory free of duplicates. |
| FishMarketRepository.AddThenRemoveRestores | fishReport_api/Repositories/FishMarketRepository.cs:33-104 | Adding an absent pair and then removing it restores the inventory exactly. |
| FishMarketRepository.FishMarketRepository.constructor | fishReport_api/Repositories/FishMarketRepository.cs:12-15 | A repository over a duplicate-free inventory of existing markets and species. |
| FishMarketRepository.FishMarketRepository.GetById | fishReport_api/Repositories/FishMarketRepository.cs:25-31 | A market view exists exactly for an existing market. It carries the key and exactly the species linked to that market. |
| FishMarketRepository.FishMarketRepository.AddSpeciesToMarket | fishReport_api/Repositories/FishMarketRepository.cs:33-74 | An unknown market or species, or an existing link, gives false with nothing changed. Otherwise a successful commit appends exactly that pair and gives true, and a failed commit passes the error on with nothing changed. No duplicate pairs either way. |
| FishMarketRepository.FishMarketRepository.RemoveSpeciesFromMarket | fishReport_api/Repositories/FishMarketRepository.cs:76-104 | An absent pair gives false with nothing changed. Otherwise a successful commit removes exactly that pair and gives true, and a failed commit passes the error on with nothing changed. |
| FishMarketRepository.AddThenRemove | fishReport_api/Repositories/FishMarketRepository.cs:33-104 | An add of a new link followed by its removal both succeed and leave the inventory as it was. |
| JsString.ToLower | fishReport_frontend/src/assets/fishImageMap.js:51 | Same length; each character is lower-cased on its own, and no upper-case letter is left. |
| JsString.TrimStart | fishReport_frontend/src/assets/fishImageMap.js:51 | The result is a suffix of the input. What precedes it is all white space, and the result does not start with white space. |
| JsString.TrimEnd | fishReport_frontend/src/assets/fishImageMap.js:51 | The result is a prefix of the input. What follows it is all white space, and the result does not end with white space. |
| JsString.Includes | fishReport_frontend/src/assets/fishImageMap.js:58 | True exactly when the needle occurs at some position of the haystack. |
| JsString.Trim | fishReport_frontend/src/assets/fishImageMap.js:51 | The result is a slice of the input, and only white space lies before and after that slice. It is no longer than the input and has no white space at either end. |
| JsString.TrimKeeps | fishReport_frontend/src/assets/fishImageMap.js:51 | A string without white space at either end is its own trimmed form. |
| JsString.TrimIgnoresPadding | fishReport_frontend/src/assets/fishImageMap.js:51 | White space added at either end does not change the trimmed string. |
| JsString.TrimIdempotent | fishReport_frontend/src/assets/fishImageMap.js:51 | Trimming twice is trimming once. |
| FishImageTable.Image | fishReport_frontend/src/assets/fishImageMap.js:2-47 | Every image address is `BASE_URL`, a slash, then the file name, which can be read back from it. |
| FishImageTable.BaseUrl | fishReport_frontend/src/assets/fishImageMap.js:2 | The image store address `BASE_URL`. A constant; `Image` and `InStore` state how every address is built on it. |
| FishImageTable.TunaVarieties | fishReport_frontend/src/assets/fishImageMap.js:5-11 | The six tuna entries in declaration order, each key with its file name. |
| FishImageTable.SalmonVarieties | fishReport_frontend/src/assets/fishImageMap.js:13-18 | The five salmon entries in declaration order, each key with its file name. |
| FishImageTable.MackerelVarieties | fishReport_frontend/src/assets/fishImageMap.js:20-24 | The four mackerel entries in declaration order, each key with its file name. |
| FishImageTable.Billfish | fishReport_frontend/src/assets/fishImageMap.js:26-29 | The three billfish entries in declaration order, each key with its file name. |
| FishImageTable.ReefAndCoastalFish | fishReport_frontend/src/assets/fishImageMap.js:31-47 | The sixteen reef and coastal entries in declaration order, each key with its file name. |
| FishImageTable.Entries | fishReport_frontend/src/assets/fishImageMap.js:4-48 | The `fishImageMap` object: the 34 properties in declaration order, the order `Object.entries` yields, each key with its file name. A constant; `KeysDistinct` and `NamesShort` state its properties. |
| FishImageTable.DefaultUrl | fishReport_frontend/src/assets/fishImageMap.js:63 | The fallback `${BASE_URL}/tuna.jpg`. A constant; `NoMatchIsTuna` states when it is returned. |
| FishImageTable.KeysDistinct | fishReport_frontend/src/assets/fishImageMap.js:4-48 | The 34 keys of the table are pairwise distinct, as the keys of an object literal are. |
| FishImageTable.NamesShort | fishReport_frontend/src/assets/fishImageMap.js:4-48 | Every key has between 1 and 17 characters. |
| FishImageMap.Normalize | fishReport_frontend/src/assets/fishImageMap.js:51 | The normalised name has no upper-case letter and no white space at either end. |
| FishImageMap.Matches | fishReport_frontend/src/assets/fishImageMap.js:58 | The loop's test, either name containing the other. A key matches itself, and the empty name matches every key. |
| FishImageMap.Resolve | fishReport_frontend/src/assets/fishImageMap.js:50-64 | The resolver over any table: exact key, then first match, then tuna. Every result is an address in the image store. |
| FishImageMap.GetFishImage | fishReport_frontend/src/assets/fishImageMap.js:50-64 | `getFishImage` over the 34-entry table. It is total on strings, and every result is `BASE_URL` followed by `/` and a file name. |
| FishImageMap.Lookup | fishReport_frontend/src/assets/fishImageMap.js:53-55 | The result is none exactly when no entry has that key. Otherwise it is an entry with that key. |
| FishImageMap.FirstMatch | fishReport_frontend/src/assets/fishImageMap.js:57-61 | The result is none exactly when no key matches either way. Otherwise it is the matching entry that comes first in declaration order. |
| FishImageMap.ResultFromTable | fishReport_frontend/src/assets/fishImageMap.js:2-63 | Every result is the URL of some table entry or the default tuna URL. The resolver is total on strings. |
| FishImageMap.ExactKeyWins | fishReport_frontend/src/assets/fishImageMap.js:53-55 | With distinct keys, a name that normalises to a key gets that key's URL. |
| FishImageMap.FirstContainmentWins | fishReport_frontend/src/assets/fishImageMap.js:57-61 | A name that is no key gets the URL of the first entry whose key contains it or is contained in it. |
| FishImageMap.NoMatchIsTuna | fishReport_frontend/src/assets/fishImageMap.js:63 | A name matching no key either way gets `BASE_URL/tuna.jpg`. |
| FishImageMap.GetFishImageResolution | fishReport_frontend/src/assets/fishImageMap.js:50-64 | The three resolution cases, and the result-from-table property, for the 34-entry table itself. |
| FishImageMap.NormalizeIdempotent | fishReport_frontend/src/assets/fishImageMap.js:51 | Normalising twice is normalising once. |
| FishImageMap.NormalizeKeeps | fishReport_frontend/src/assets/fishImageMap.js:51 | A name without upper-case letters and without white space at its ends is its own normal form. |
| FishImageMap.PaddingIgnored | fishReport_frontend/src/assets/fishImageMap.js:51 | White space around the name does not change the result. |
| FishImageMap.CaseIgnored | fishReport_frontend/src/assets/fishImageMap.js:51 | Names that differ only in the case of ASCII letters resolve alike. |
| FishImageMap.SameNormalFormResolvesAlike | fishReport_frontend/src/assets/fishImageMap.js:51-63 | Two names with the same normal form resolve alike. |
| FishImageMap.NormalizedNameResolvesAlike | fishReport_frontend/src/assets/fishImageMap.js:51 | The result depends only on the normalised name. |
| FishImageMap.YellowfinTuna | fishReport_frontend/src/assets/fishImageMap.js:8 | "Yellowfin Tuna", capitals and all, normalises to the key "yellowfin tuna" and gets `yfintuna.jpg` by exact key. |
| FishImageMap.FallsToTuna | fishReport_frontend/src/assets/fishImageMap.js:6 | A name that is no key and contains "tuna" gets `tuna.jpg`, because "tuna" is the first entry. |
| FishImageMap.LongNameIsNoKey | fishReport_frontend/src/assets/fishImageMap.js:4-48 | A name longer than 17 characters is no key of the table. |
| FishImageMap.LongTunaName | fishReport_frontend/src/assets/fishImageMap.js:53-61 | A name whose normal form is longer than every key and holds "tuna" gets `tuna.jpg`. |
| FishImageMap.YellowfinTunaSteak | fishReport_frontend/src/assets/fishImageMap.js:57-61 | "yellowfin tuna steak" gets `tuna.jpg`, because "tuna" comes before "yellowfin tuna". |
| FishImageMap.BlankName | fishReport_frontend/src/assets/fishImageMap.js:57-59 | An empty or all-white-space name is contained in every key, so it gets the first entry, `tuna.jpg`. |

## Left out

- Concurrency of the refresh semaphore. The lock is a sequential ghost flag that must be free on every exit. An interleaving of two callers is written out by hand in `TwoCallersOneRefresh`, not explored in general.
- `DateTime.UtcNow`. The three clock readings of a call are parameters, and the clock is not assumed to be monotonic. DateTime range overflow in `AddHours(1)` is not modelled: time is an unbounded integer.
- AWS SDK token generation. The region endpoint, the credential lookup and `DSQLAuthTokenGenerator` are one issuer function that yields a token or fails. The inner exception's details are not kept.
- Configuration is read into a `Config` value once, when the service is built, instead of on every call. An empty-string endpoint passes the null check in the code and also in the model.
- All `ILogger` and `Console.WriteLine` output.
- Connection-string quoting. The builder writes values as they are, and so does the model. `ConnectionString` therefore promises its round trip only when no ingredient holds `;`.
- Entity Framework change tracking is a list of staged changes with one modified-or-removed mark per key; a later mark replaces an earlier one. Inserts are always appended. `AddAsync` would throw at once on a key already tracked; here the duplicate key is refused at `SaveChanges` instead. A delete of an entity that is only staged for insertion, which EF would detach, is likewise left to the save. Database-generated failures other than key conflicts are not modelled.
- Entity aliasing. `CreateAsync` overwrites the caller's entity's `Id` in place and returns that same object. Here `Create` returns the updated row as a value.
- `CommonRepository.GenericRepository.Update`: staging `Modified` is modelled as a change the save applies to every row with that key. EF's attach conflicts between tracked instances are out.
- `GetAllAsync` and `FindAsync` of the generic repository, and `GetAllAsync` of the market repository. They are plain queries with no logic beyond returning the table; LINQ predicates and `Include`/`ThenInclude` loading are left out.
- `FishMarketRepository`: a failed commit is a boolean parameter `saved`, and it passes through as an error. The repository's in-memory change tracker after a failed commit is not modelled. The species row itself, loaded by `ThenInclude`, is represented by its key only.
- `JsString.ToLower`: only ASCII letters are lower-cased. Full Unicode `toLowerCase` is not modelled. `trim` does use JavaScript's full set of white-space and line-terminator characters.
- Property lookups inherited from `Object.prototype`, for example the name "constructor", are not modelled. The table is only its own 34 entries.
- A `null` or `undefined` name, on which `toLowerCase` throws. The resolver takes a string.
