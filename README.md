# Employee store of the RESTful sample service, in Dafny

This project models the server side of a small ASP.NET Core sample service. The service keeps employees in memory and exposes them over HTTP under `/api/employees`. It also models two formatting functions of the web client's view models.

The server keeps a process-wide list of employee records and an integer counter `MaximumId`. Both are static fields of `EmployeesController`, and the counter starts at 1001. A new controller is constructed for every request. Each construction re-seeds employees 1001 to 1003 through `AddEmployee`, which rejects a number that is already stored. The actions work as follows:

- `GET` lists the store.
- `GET {id}` finds the first record with that number, or answers 400.
- `POST` numbers the body `MaximumId + 1` and appends it.
- `PUT {id}` answers 400 when the path and body numbers differ. Otherwise it appends the body or overwrites the name and address of the existing record.
- `DELETE` is a stub that answers `false`.

Files:

- `csharp_runtime.dfy` (`CSharpRuntime`): C# null references (`Nullable`), string concatenation where null counts as `""`, and `Int32.ToString` (`DecimalString`) with its inverse `ParseInt`.
- `webapi_models.dfy` (`WebApiModels`): the server's `WebApiAddress` and `WebApiEmployee` records, as datatypes.
- `store_model.dfy` (`StoreModel`): the store as a value `Store(employees, maximumId)`. It has one function per action giving the new state and the HTTP result (`BadRequest | Ok | Created(location, n) | NoContent`), a `Serve` function for "one request = construct a controller, then run the action", and the lemmas.
- `controllers.dfy` (`Controllers`): the imperative model. `StaticStore` holds the two static fields. `EmployeesController` is the controller: its constructor seeds, and its methods are the actions, written with the source's `foreach`/flag/`break` loops. Each method is proved to change the store exactly as the matching `StoreModel` function says.
- `client_models.dfy` (`ClientModels`): `ClientAddress.ToString` and `ClientEmployee.AddressSummary`.

Two behaviours are modelled as the code has them, not as one might expect:

- **PUT-create does not raise the counter.** `PUT` appends a new record without touching `MaximumId` (`EmployeesController.cs:156`). So the invariant "every stored number ≤ `MaximumId`" can break, and `POST` relies on that invariant for fresh numbers. The model does not claim global uniqueness. It proves:
  - `POST` keeps numbers distinct when the invariant holds.
  - Every action except a PUT-create above the counter keeps the invariant.
  - `PutCreateThenPostDuplicates`: a `PUT` of 1004 on the seeded store, followed by a `POST`, stores 1004 twice.
- **`DELETE` returns `false` and changes nothing**, as written.

Because PUT-create leaves `MaximumId` alone, a number that POST allocates need not exceed every stored number.

## Model

| member | source | states |
|---|---|---|
| CSharpRuntime.DecimalString | DotNetRestful/Controllers/EmployeesController.cs:139 | the rendering of an int is the canonical numeral: non-empty, '-' first exactly for negative numbers, otherwise decimal digits, and no leading zero except for 0 itself |
| CSharpRuntime.DecimalRoundTrip | DotNetRestful/Controllers/EmployeesController.cs:139 | reading back the decimal rendering of any integer yields that integer |
| CSharpRuntime.DecimalStringInjective | DotNetRestful/Controllers/EmployeesController.cs:139 | two integers render the same exactly when they are equal, so distinct numbers get distinct Location paths |
| StoreModel.FindIndex | DotNetRestful/Controllers/EmployeesController.cs:153 | the search result is -1 exactly when no record has the number, and otherwise the index of the first record with it |
| StoreModel.AddEmployeeOutcome | DotNetRestful/Controllers/EmployeesController.cs:77-99 | AddEmployee returns true exactly when no stored record has the number; on true the record is appended and the counter becomes max(counter, number); on false nothing changes |
| StoreModel.AddEmployeeKeepsInvariant | DotNetRestful/Controllers/EmployeesController.cs:89-96 | AddEmployee preserves distinct numbers, preserves "every number ≤ counter" and never lowers the counter |
| StoreModel.AddEmployeeThenGet | DotNetRestful/Controllers/EmployeesController.cs:89-91 | after a successful add, looking up the number returns the added record |
| StoreModel.AddEmployeeKeepsNumbers | DotNetRestful/Controllers/EmployeesController.cs:80-91 | a number stored before an add is still stored after it |
| StoreModel.AddEmployeeHasNumber | DotNetRestful/Controllers/EmployeesController.cs:80-91 | after an add, accepted or rejected, the record's number is stored |
| StoreModel.SeedEstablishesSeeded | DotNetRestful/Controllers/EmployeesController.cs:26-69 | after any constructor run, numbers 1001, 1002 and 1003 are all stored |
| StoreModel.SeedOnSeededIsNoOp | DotNetRestful/Controllers/EmployeesController.cs:26-69 | a constructor run on a store holding 1001-1003 leaves list and counter unchanged |
| StoreModel.SeedIdempotent | DotNetRestful/Controllers/EmployeesController.cs:26-69 | running the constructor twice has the same effect as running it once, from any state |
| StoreModel.SeedFromInitial | DotNetRestful/Controllers/EmployeesController.cs:19-69 | from the empty list with counter 1001, one constructor run yields exactly the records 1001, 1002, 1003 in order and counter 1003 |
| StoreModel.SeedKeepsInvariant | DotNetRestful/Controllers/EmployeesController.cs:26-69 | seeding preserves distinct numbers and "every number ≤ counter" and never lowers the counter |
| StoreModel.GetByIdOutcome | DotNetRestful/Controllers/EmployeesController.cs:110-129 | Get(id) is 400 exactly when no record has the number, and otherwise Ok with the first such record |
| StoreModel.GetByIdUnique | DotNetRestful/Controllers/EmployeesController.cs:114-128 | in a store with distinct numbers, Get of a stored record's number returns that record |
| StoreModel.PostOutcome | DotNetRestful/Controllers/EmployeesController.cs:133-140 | Post numbers the record old counter + 1, raises the counter by exactly one, appends it after the unchanged earlier records and returns Created("/api/employees/{n}", n) |
| StoreModel.PostKeepsInvariant | DotNetRestful/Controllers/EmployeesController.cs:133-140 | if numbers are distinct and all ≤ counter, the allocated number is new, and both properties still hold afterwards |
| StoreModel.PostThenGet | DotNetRestful/Controllers/EmployeesController.cs:133-140 | if all numbers are ≤ counter, Get of the number Post returned yields the body with that number |
| StoreModel.PutMismatch | DotNetRestful/Controllers/EmployeesController.cs:148-151 | a path id different from the body number gives BadRequest and leaves list and counter unchanged |
| StoreModel.PutCreate | DotNetRestful/Controllers/EmployeesController.cs:153-159 | with no record of that number, Put appends the body, keeps the counter and returns Created("/api/employees/{id}", id) |
| StoreModel.PutUpdate | DotNetRestful/Controllers/EmployeesController.cs:160-166 | with a record of that number, Put replaces name and address of the first match only, keeps its number, the other records, the length and the counter, and returns NoContent |
| StoreModel.PutKeepsUnique | DotNetRestful/Controllers/EmployeesController.cs:146-167 | Put preserves distinct numbers in every case |
| StoreModel.PutBoundedIff | DotNetRestful/Controllers/EmployeesController.cs:153-159 | on a store with all numbers ≤ counter, Put keeps that property exactly unless it creates a record above the counter; Put never changes the counter |
| StoreModel.PutCreateThenPostDuplicates | DotNetRestful/Controllers/EmployeesController.cs:156 | PUT of 1004 on the seeded store breaks "every number ≤ counter", and a following POST allocates 1004 again, so two records share a number |
| StoreModel.ServeMonotone | DotNetRestful/Controllers/EmployeesController.cs:92-95 | no request, seeding included, lowers the counter |
| StoreModel.ServeAllMonotone | DotNetRestful/Controllers/EmployeesController.cs:135 | across any sequence of requests the counter never decreases |
| StoreModel.ServeKeepsInvariant | DotNetRestful/Controllers/EmployeesController.cs:133-167 | with distinct numbers all ≤ counter, any single request keeps both properties unless it is a PUT with matching numbers above the counter left by seeding |
| StoreModel.ServeAllKeepsInvariant | DotNetRestful/Controllers/EmployeesController.cs:133-174 | with distinct numbers all ≤ counter, any request sequence whose matching PUTs stay at or below the starting counter keeps numbers distinct and ≤ counter |
| StoreModel.PostKeepsNumbers | DotNetRestful/Controllers/EmployeesController.cs:137 | every number stored before a POST is still stored after it |
| StoreModel.PutKeepsNumbers | DotNetRestful/Controllers/EmployeesController.cs:153-166 | every number stored before a PUT is still stored after it |
| StoreModel.ServeSeeded | DotNetRestful/Controllers/EmployeesController.cs:26-69 | after any request, seeding included, numbers 1001, 1002 and 1003 are stored |
| StoreModel.ServeAllReseedIsNoOp | DotNetRestful/Controllers/EmployeesController.cs:26-69 | after at least one request, the seeding run of every later controller changes neither list nor counter |
| StoreModel.ServedPutThenPostDuplicates | DotNetRestful/Controllers/EmployeesController.cs:156 | serving PUT 1004 and then POST on a fresh process, seeding included, leaves two records numbered 1004 |
| StoreModel.SeededGet | DotNetRestful/Controllers/EmployeesController.cs:28-40 | on the seeded store Get(1001) is Ada King-Noel's record and Get(9999) is 400 |
| StoreModel.SeededPost | DotNetRestful/Controllers/EmployeesController.cs:133-140 | on the seeded store a POST answers Created("/api/employees/1004", 1004), and Get(1004) then returns the posted record |
| Controllers.StaticStore.constructor | DotNetRestful/Controllers/EmployeesController.cs:19-21 | the static state starts as the empty list with MaximumId 1001 |
| Controllers.EmployeesController.constructor | DotNetRestful/Controllers/EmployeesController.cs:26-69 | constructing a controller changes the shared store exactly as the three seeding adds do |
| Controllers.EmployeesController.AddEmployee | DotNetRestful/Controllers/EmployeesController.cs:77-99 | the search loop with flag and break yields the new list, counter and boolean of StoreModel.AddEmployee |
| Controllers.EmployeesController.GetAll | DotNetRestful/Controllers/EmployeesController.cs:103-106 | returns the stored list in insertion order and changes nothing |
| Controllers.EmployeesController.Get | DotNetRestful/Controllers/EmployeesController.cs:110-129 | the foreach search returns Ok with the first record of that number, or BadRequest, and changes nothing |
| Controllers.EmployeesController.Post | DotNetRestful/Controllers/EmployeesController.cs:133-140 | the new list, counter and result are those of StoreModel.Post |
| Controllers.EmployeesController.Put | DotNetRestful/Controllers/EmployeesController.cs:146-167 | the new list, counter and result are those of StoreModel.Put |
| Controllers.EmployeesController.Delete | DotNetRestful/Controllers/EmployeesController.cs:171-174 | always returns false and modifies nothing |
| Controllers.TwoRequests | DotNetRestful/Controllers/EmployeesController.cs:26-69 | two controllers constructed in turn over fresh static state leave the same three records and counter 1003 |
| ClientModels.ToStringLength | DotNetRestfulWebClient/Models/ClientAddress.cs:21 | the text's length is the lengths of the number's digits, street, city and post code plus 5 |
| ClientModels.ToStringLeadingNumber | DotNetRestfulWebClient/Models/ClientAddress.cs:21 | the text starts with the decimal number, ended by the first space, and reading that prefix back gives the number |
| ClientModels.ToStringParts | DotNetRestfulWebClient/Models/ClientAddress.cs:21 | street, ", ", city, ", " and post code follow the number and space, in that order, up to the end |
| ClientModels.ToStringNullIsEmpty | DotNetRestfulWebClient/Models/ClientAddress.cs:19-22 | a null street, city or post code renders exactly as an empty one |
| ClientModels.DefaultAddressToString | DotNetRestfulTests/ClientAddressTests.cs:12-16 | the default address renders as "0 , , " |
| ClientModels.AddressSummaryCases | DotNetRestfulWebClient/Models/ClientEmployee.cs:20-27 | with a null address the summary is "No Address Specified"; otherwise it is the address's ToString |
| ClientModels.AddressSummaryIsMessageIff | DotNetRestfulWebClient/Models/ClientEmployee.cs:16-30 | the summary equals "No Address Specified" exactly when the address is null |
| ClientModels.AddressSummaryIgnoresIdentity | DotNetRestfulWebClient/Models/ClientEmployee.cs:16-30 | the summary does not depend on the employee's number or name |
| ClientModels.DefaultEmployeeSummary | DotNetRestfulTests/ClientEmployeeTests.cs:12-16 | a default employee summarises as "No Address Specified" |

## Left out

- The web client's HTTP service (`RestfulClientService`, `IRestfulClientService`) is not part of this model. It is asynchronous network I/O and JSON (de)serialisation through library calls. Its PUT and DELETE paths use the literal text "/api/employees/{id}" without interpolation (RestfulClientService.cs:58, 112). That is a client defect outside this model.
- The MVC controllers of the web client (`EmployeeController`, `EmployeeWithInjectionController`), `Program` and the test stubs are not modelled. They are presentation, form binding, logging and host start-up.
- Concurrency: the static list and counter have no locking. The model covers requests handled one at a time.
- 32-bit arithmetic: numbers and `MaximumId` are unbounded integers. The wrap-around of `++MaximumId` at `Int32.MaxValue` is not modelled.
- Object identity and aliasing: records are values here, not C# objects. The model does not capture three aliasing effects:
  - `Post` also renumbers the caller's body object.
  - A PUT-update shares the body's `Address` object with the stored record.
  - `Get()` hands out the live list rather than a copy.
- Null request bodies: `Post` and `Put` dereference the body and would throw. The model takes an already-bound, non-null record. A stored record is therefore never null, which is why `Get(id)` tests only `found == null`.
- Routing and binding attributes (`[Route]`, `[HttpGet]`, `[FromBody]`) are dropped. Each action takes its arguments already bound.
- `DecimalString` assumes a culture whose negative sign is '-'.
