# User management core, modelled in Dafny

This project models the core of a small user-administration web application
(ASP.NET MVC over an Entity Framework in-memory store) and proves properties
of that model. It covers three layers.

- **Data context** (`data_context.dfy`, module `Data`). The user table is a
  sequence of `User` records keyed by `id`. It is seeded with eleven users.
  Beside it sit the append-only audit log (`_logs`) and the log id counter
  (`_nextLogId`, starting at 1). `Create`, `Update`, `Delete` and `CreateLog`
  are methods of the class `DataContext` that change these fields. The
  invariant `Valid()` says that keys are unique and never 0, that log ids
  are 1, 2, 3, … in append order, and that the counter is one past the last
  log id.
- **User service** (`user_service.dfy`, module `Services`). The class
  `UserService` holds the data context. Its queries are functions: filter
  by the active flag, get all users, and look up by id. A lookup that finds
  nothing fails with `UserNotFound` and the message
  "User with ID {id} not found.". Its commands are methods. Each successful
  create, update or delete writes exactly one audit entry, after the store
  change. A failing call changes nothing and logs nothing.
- **Users controller** (`users_controller.dfy`, module `Web`). Each action
  returns an `ActionResult` value: a view with its model and form errors, a
  redirect carrying a notice, or "not found". The list filter is matched
  case-insensitively. A list row is a field-by-field copy of a user. Service
  failures are mapped to the error view, the redisplayed form or the error
  notice. `ModelState.IsValid` is a boolean input.

Supporting modules: `Linq` (`Where`, `Select` and `FirstOrDefault`, evaluated
eagerly, with their characterising lemmas), `Strings` (ASCII `ToLower` and
decimal rendering of ids), `Models` (`User`, `Log`, `DateTime`) and
`Wrappers` (`Option`, `Result`, `Outcome`, which stand for `null` and for
exceptions).

Clock readings (`DateTime.Now`, `DateTime.UtcNow`) are parameters. The
store's key generator is a parameter `generatedKey`, assumed unused and
non-zero.

EF failures are modelled as `StoreError`:
- adding an entity whose explicit key is already stored gives `DuplicateKey`;
- updating or removing a key the table does not hold gives `MissingKey`.

The in-memory provider throws in these cases. The store keeps no partial
change, so the service writes no log entry.

## Model

| member | source | states |
|---|---|---|
| `Linq.Where` | UserManagement.Services/Implementations/UserService.cs:23 | the result holds exactly the elements satisfying the predicate, each as often as in the input (multiset equality), and no others |
| `Linq.WhereIsSubsequence` | UserManagement.Data/DataContext.cs:68 | filtering keeps the relative order of the kept elements (insertion order for logs, table order for users) |
| `Linq.WhereComplement` | UserManagement.Services/Implementations/UserService.cs:23 | filtering by a predicate and by its negation gives disjoint parts whose multisets and lengths add up to the input |
| `Linq.Select` | UserManagement.Web/Controllers/UsersController.cs:36-44 | the projection has one result per element, in order, each the function applied to the element at the same index |
| `Linq.FirstOrDefault` | UserManagement.Services/Implementations/UserService.cs:30 | `None` exactly when no element matches; otherwise the value at the first matching index |
| `Strings.ToLowerMatches` | UserManagement.Web/Controllers/UsersController.cs:22 | `ToLower(s) == t` for a lower-case word `t` holds exactly when `s` spells `t` with each letter in either case |
| `Strings.ParseIntToString` | UserManagement.Services/Implementations/UserService.cs:33 | the decimal text of an id reads back as the same id |
| `Strings.IntToStringInjective` | UserManagement.Services/Implementations/UserService.cs:33 | different ids are rendered as different texts |
| `Data.SeedPopulation` | UserManagement.Data/DataContext.cs:20-33 | the seed has 11 users with ids 1..11 in order and unique, none with key 0; users 3, 7, 8, 9 are inactive and the rest active |
| `Data.ReplaceByKey` | UserManagement.Data/DataContext.cs:46-50 | an update replaces the row with the entity's key by the entity, leaves every other row, keeps the length, the key set and key uniqueness |
| `Data.RemoveByKey` | UserManagement.Data/DataContext.cs:52-56 | a delete removes exactly the rows with that key, keeps the other rows in order, and keeps keys unique |
| `Data.FilterKeepsKeysUnique` | UserManagement.Data/DataContext.cs:52-56 | filtering a table with unique keys leaves unique keys |
| `Data.FilterKeepsLogOrder` | UserManagement.Data/DataContext.cs:66-69 | filtering a log whose ids increase leaves ids increasing |
| `Data.DataContext.constructor` | UserManagement.Data/DataContext.cs:12-14 | a new context holds the seed, no log entries and the counter at 1, and satisfies the invariant |
| `Data.DataContext.GetAll` | UserManagement.Data/DataContext.cs:37-38 | in a valid context the live rows have unique, assigned keys; the service's queries read the table through it |
| `Data.DataContext.Create` | UserManagement.Data/DataContext.cs:40-44 | an entity without a key gets the generated key, one with a free key keeps it, and it is appended to the table; an explicit key already present is refused with nothing changed; the log is untouched and the invariant kept |
| `Data.DataContext.Update` | UserManagement.Data/DataContext.cs:46-50 | succeeds exactly when the key is present, and the row with that key then equals the entity; otherwise `MissingKey` with nothing changed |
| `Data.DataContext.Delete` | UserManagement.Data/DataContext.cs:52-56 | succeeds exactly when the key is present, and that row is then gone; the log is never touched |
| `Data.DataContext.CreateLog` | UserManagement.Data/DataContext.cs:59-64 | the entry gets id = the old counter and the context's clock as timestamp (the caller's is overwritten); it is appended once at the end; the counter goes up by one; the users are unchanged |
| `Data.DataContext.GetLogsForUser` | UserManagement.Data/DataContext.cs:66-69 | exactly the entries with that user id, as a subsequence of the log, with increasing ids; empty when none match |
| `Data.DataContext.GetAllLogs` | UserManagement.Data/DataContext.cs:71-74 | the whole log in append order, its ids 1 to counter − 1 |
| `Services.NotFoundMessageNamesId` | UserManagement.Services/Implementations/UserService.cs:33 | the not-found message determines the id it was raised for |
| `Services.NotFoundMessageForOne` | UserManagement.Services.Tests/UserServiceTests.cs:170-181 | the message for id 1 is "User with ID 1 not found." |
| `Services.UserService.FilterByActive` | UserManagement.Services/Implementations/UserService.cs:21-24 | exactly the users whose active flag equals the argument, in table order |
| `Services.UserService.GetAll` | UserManagement.Services/Implementations/UserService.cs:26 | the table as the data context holds it, keys unique under the invariant |
| `Services.UserService.GetById` | UserManagement.Services/Implementations/UserService.cs:28-36 | fails exactly when no row has the id, with `UserNotFound(id, "User with ID {id} not found.")`; otherwise returns the first row with that id |
| `Services.UserService.Create` | UserManagement.Services/Implementations/UserService.cs:37-42 | the user is stored under its assigned key, then exactly one "Created" entry for that key is appended; a refused store write throws with nothing changed or logged |
| `Services.UserService.Update` | UserManagement.Services/Implementations/UserService.cs:44-48 | the row is replaced, then exactly one "Updated" entry is appended; an unknown key throws with nothing changed or logged |
| `Services.UserService.Delete` | UserManagement.Services/Implementations/UserService.cs:50-58 | a present id is removed and exactly one "Deleted" entry is appended; an absent id fails with `UserNotFound`, with the table and the log unchanged |
| `Services.UserService.CreateLog` | UserManagement.Services/Implementations/UserService.cs:60-70 | exactly one entry is appended carrying the given user id, action and details; the users are unchanged |
| `Services.UserService.GetLogsForUser` | UserManagement.Services/Implementations/UserService.cs:72-75 | exactly the entries about the user, ids increasing |
| `Services.UserService.GetAllLogs` | UserManagement.Services/Implementations/UserService.cs:77-80 | every entry, numbered 1, 2, 3, … in append order |
| `Services.FilterByActivePartition` | UserManagement.Services/Implementations/UserService.cs:21-26 | the active and the inactive users are disjoint and together make up the whole table (multisets and counts) |
| `Services.MixedUsersScenario` | UserManagement.Services.Tests/UserServiceTests.cs:26-41 | over two active users around an inactive one, the active filter gives the two active users and the inactive filter the one inactive user, each in table order |
| `Services.NoActiveUsers` | UserManagement.Services.Tests/UserServiceTests.cs:43-55 | when every user is inactive, the active filter is empty |
| `Web.ChooseQuery` | UserManagement.Web/Controllers/UsersController.cs:22-34 | "active" in any case selects the active users, "inactive" in any case the inactive users, anything else all users |
| `Web.ListView` | UserManagement.Web/Controllers/UsersController.cs:19-57 | any service exception gives the "Error" view; otherwise one row per user in order, copying id, names, email, active flag and birth date; the label is the caller's own text for active/inactive and "all" otherwise |
| `Web.ApplyForm` | UserManagement.Web/Controllers/UsersController.cs:131-135 | the edited user keeps its id and takes exactly the five form fields |
| `Web.ApplyPrefilledForm` | UserManagement.Web/Controllers/UsersController.cs:101-108 | posting back an unchanged prefilled form leaves the user as it was |
| `Web.UsersController.List` | UserManagement.Web/Controllers/UsersController.cs:17-58 | over the live service, the rows are the projection of `FilterByActive(true)`, `FilterByActive(false)` or `GetAll()` as the filter selects, labelled as `ListView` says |
| `Web.UsersController.CreateGet` | UserManagement.Web/Controllers/UsersController.cs:60-64 | the default view with a blank form and no errors: empty text fields, not active, date of birth `DateTime.MinValue` |
| `Web.UsersController.CreatePost` | UserManagement.Web/Controllers/UsersController.cs:66-93 | an invalid form is redisplayed and the service is not called (store unchanged); a valid one appends the user under the generated key, logs one "Created" entry and redirects with "User created successfully." |
| `Web.UsersController.EditGet` | UserManagement.Web/Controllers/UsersController.cs:95-115 | "not found" exactly when the id is absent; otherwise the form prefilled from the stored user with that id |
| `Web.UsersController.EditPost` | UserManagement.Web/Controllers/UsersController.cs:117-147 | invalid form: redisplay, nothing changed; absent id: redisplay with the update error, nothing saved or logged; present id: the row becomes the stored user with the five form fields, one "Updated" entry, redirect with "User updated successfully." |
| `Web.UsersController.View` | UserManagement.Web/Controllers/UsersController.cs:149-169 | `UserNotFound` propagates when the id is absent; otherwise the details of the user with that id |
| `Web.UsersController.Delete` | UserManagement.Web/Controllers/UsersController.cs:171-181 | `UserNotFound` propagates when the id is absent; otherwise the confirmation page for that user |
| `Web.UsersController.DeleteConfirmed` | UserManagement.Web/Controllers/UsersController.cs:183-197 | always redirects to List; a present user is removed and logged once with the success notice, an absent one changes nothing and carries the error notice |
| `Web.InactiveOfFour` | UserManagement.Services/Implementations/UserService.cs:21-24 | filtering two active and two inactive users for inactive keeps the two inactive ones, in order |
| `Web.ListInactiveScenario` | UserManagement.Web/Controllers/UsersController.cs:22-50 | with a store of two active and two inactive users read through the real service, listing "inactive" gives exactly the two inactive rows in table order, labelled "inactive" |
| `Web.ListUnknownFilterScenario` | UserManagement.Web.Tests/UserControllerTests.cs:48-63 | an unrecognised filter lists all users labelled "all" |

## Left out

- Entity Framework mechanics (`UseInMemoryDatabase`, `EnsureCreated`,
  `HasData`, `DbSet`, change tracking, `SaveChanges`) are not modelled. The
  user table is a plain sequence. Key generation is the `generatedKey`
  parameter, assumed unused and non-zero, not a verified rule. The unused
  `_users` list is dropped.
- Aliasing of tracked entities is not modelled. In the source, the edit post
  changes the tracked `User` object in place before calling `Update`. The
  model works on values: the new row is `ApplyForm(user, form)`.
- `Data.DataContext.Update`: an entity whose key is still 0 is treated as
  absent. Entity Framework would insert such an entity under a generated key.
  The controller never does this.
- `Data.DataContext.Delete` removes by key. It does not model EF's refusal to
  remove a detached copy of a tracked row. The service always passes the
  stored row.
- `Data.DataContext.Create` does not model an entity left tracked after a
  failed save.
- Laziness of `IQueryable`/`IEnumerable` is not modelled. Every query returns
  a snapshot sequence.
- Clock values are parameters. The service stamps a log entry with its own
  clock, and the data context then overwrites that stamp with its clock. Both
  readings are the one `now` parameter.
- `DateTime` keeps the date and an uninterpreted time-of-day. `AddYears`
  clamps 29 February and ignores the .NET year range 1–9999.
- Data.DataContext.constructor: models one context on its own. The source
  opens a named in-memory database shared by every context in the process,
  so only the first context starts from the seed, while the log list and its
  counter start fresh in each instance.
- 64-bit `long` ids and the `long` counter are unbounded integers. Overflow
  at 2^63 − 1 is not modelled.
- `string.ToLower` is modelled on ASCII letters only. Culture-specific
  Unicode casing (for example the Turkish dotted and dotless i) is not.
- A `null` filter string is not modelled. The filter is always a string, and
  a missing one defaults to "all".
- Validation attributes (`[Required]`, `[EmailAddress]`) are not modelled.
  Their verdict is the `modelStateIsValid` input. Form fields are non-null
  strings.
- Web.UsersController.CreateGet: the blank form's text fields are `""`, where
  `new UserCreateViewModel()` leaves them `null`, because the model has no
  `null` strings.
- Exceptions other than `UserNotFound` and store refusals are not modelled.
  Examples are database faults and the mocked failure in the controller
  tests. They cannot arise in the model's services. Their handling is
  modelled by `ListView` and `AfterSave`, which take the failure as input.
- The `user == null` branches in the edit post, `View` and `Delete` (GET)
  actions, and in the service's `Delete`, are dead code. `GetById` throws
  instead of returning `null`, so the model leaves them out. `View` and
  `Delete` (GET) propagate `UserNotFound`, as the source does.
- The `Log.User` and `User.Logs` navigation properties are not modelled. Logs
  refer to users by id only. Deleting a user keeps its log entries.
- `UserLogsViewModel`, the interfaces, anti-forgery tokens, routing and view
  rendering have no behaviour to verify and are not modelled.
