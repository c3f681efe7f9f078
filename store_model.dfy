/** The employee store of the web service as a value: the process-wide list
    of employees and the `MaximumId` counter, with one function per
    controller action giving the state afterwards and the HTTP result.
    The class in `Controllers` implements these functions step by step. */
module StoreModel {
  import opened CSharpRuntime
  import opened WebApiModels

  /** The static list of employees, in insertion order, and the counter. */
  datatype Store = Store(employees: seq<WebApiEmployee>, maximumId: int)

  /** The results the controller's actions return. */
  datatype ActionResult =
    | BadRequest                              // 400, empty body
    | Ok(employee: WebApiEmployee)            // 200 with the record
    | Created(location: string, number: int)  // 201, Location header and body
    | NoContent                               // 204

  const InitialMaximumId: int := 1001

  /** The state before any controller has been constructed. */
  function Initial(): Store {
    Store([], InitialMaximumId)
  }

  // ----- Predicates over the store -----

  predicate HasNumber(s: seq<WebApiEmployee>, n: int) {
    exists i :: 0 <= i < |s| && s[i].number == n
  }

  /** No two stored employees share a number. */
  predicate Unique(s: seq<WebApiEmployee>) {
    forall i, j :: 0 <= i < j < |s| ==> s[i].number != s[j].number
  }

  /** Every stored number is at most the counter: what makes the counter's
      next value a fresh number. */
  predicate Bounded(st: Store) {
    forall i :: 0 <= i < |st.employees| ==> st.employees[i].number <= st.maximumId
  }

  function Numbers(s: seq<WebApiEmployee>): (r: seq<int>)
    ensures |r| == |s|
    ensures forall i :: 0 <= i < |s| ==> r[i] == s[i].number
  {
    if s == [] then [] else Numbers(s[..|s| - 1]) + [s[|s| - 1].number]
  }

  /** The index of the first employee with number `n`, or -1 when there is
      none (the search of `List.Find` and of the `foreach` loops). */
  function FindIndex(s: seq<WebApiEmployee>, n: int): (r: int)
    ensures -1 <= r < |s|
    ensures r >= 0 <==> HasNumber(s, n)
    ensures r >= 0 ==> s[r].number == n && forall j :: 0 <= j < r ==> s[j].number != n
  {
    if s == [] then -1
    else if s[0].number == n then 0
    else
      var k := FindIndex(s[1..], n);
      if k < 0 then -1 else k + 1
  }

  /** The `Location` header of a created employee. */
  function LocationOf(n: int): string {
    "/api/employees/" + DecimalString(n)
  }

  // ----- The actions -----

  /** `AddEmployee`: appends the record only if its number is new, and
      raises the counter to that number when it is larger. */
  function AddEmployee(st: Store, e: WebApiEmployee): (Store, bool) {
    if FindIndex(st.employees, e.number) >= 0 then (st, false)
    else
      var max := if e.number > st.maximumId then e.number else st.maximumId;
      (Store(st.employees + [e], max), true)
  }

  const Ada: WebApiEmployee := WebApiEmployee(1001, NonNull("Augusta Ada King-Noel"),
    NonNull(WebApiAddress(101, NonNull("Countess Road"), NonNull("London"), NonNull("W1 4CL"))))
  const Turing: WebApiEmployee := WebApiEmployee(1002, NonNull("Alan Turing"),
    NonNull(WebApiAddress(10, NonNull("Imitation Street"), NonNull("Manchester"), NonNull("M1 4IG"))))
  const Hopper: WebApiEmployee := WebApiEmployee(1003, NonNull("Grace Hopper"),
    NonNull(WebApiAddress(111, NonNull("Debugging Street"), NonNull("New York"), NonNull("90510"))))

  /** The controller's constructor: tries to add the three seed records. */
  function Seed(st: Store): Store {
    AddEmployee(AddEmployee(AddEmployee(st, Ada).0, Turing).0, Hopper).0
  }

  /** `Get(id)`: the first employee with that number, or 400. */
  function GetById(s: seq<WebApiEmployee>, id: int): ActionResult {
    var k := FindIndex(s, id);
    if k < 0 then BadRequest else Ok(s[k])
  }

  /** `Post`: numbers the record `MaximumId + 1`, bumps the counter and
      appends it without any search. */
  function Post(st: Store, value: WebApiEmployee): (Store, ActionResult) {
    var n := st.maximumId + 1;
    (Store(st.employees + [value.(number := n)], n), Created(LocationOf(n), n))
  }

  /** `Put(id, value)`: 400 on a mismatch; otherwise appends the record when
      the number is absent (leaving the counter alone), or overwrites the
      name and address of the first record with that number. */
  function Put(st: Store, id: int, value: WebApiEmployee): (Store, ActionResult) {
    if id != value.number then (st, BadRequest)
    else
      var k := FindIndex(st.employees, id);
      if k < 0 then
        (Store(st.employees + [value], st.maximumId), Created(LocationOf(value.number), value.number))
      else
        var existing := st.employees[k];
        (Store(st.employees[k := existing.(name := value.name, address := value.address)], st.maximumId), NoContent)
  }

  // ----- Requests -----

  /** One HTTP request, with its arguments already bound. */
  datatype Request =
    | GetAllRequest
    | GetRequest(id: int)
    | PostRequest(body: WebApiEmployee)
    | PutRequest(id: int, body: WebApiEmployee)
    | DeleteRequest(id: int)

  /** The store after one request: a fresh controller is constructed for
      every request, so the seeding runs first, then the action. */
  function Serve(st: Store, req: Request): Store {
    var seeded := Seed(st);
    match req
    case GetAllRequest => seeded
    case GetRequest(_) => seeded
    case PostRequest(body) => Post(seeded, body).0
    case PutRequest(id, body) => Put(seeded, id, body).0
    case DeleteRequest(_) => seeded
  }

  /** The store after a sequence of requests handled one at a time. */
  function ServeAll(st: Store, reqs: seq<Request>): Store
    decreases |reqs|
  {
    if reqs == [] then st else ServeAll(Serve(st, reqs[0]), reqs[1..])
  }

  // ----- AddEmployee -----

  /** The record is appended exactly when no stored record has its number,
      and the result says which happened; the counter becomes the larger of
      itself and the new number, and a rejected add changes nothing. */
  lemma AddEmployeeOutcome(st: Store, e: WebApiEmployee)
    ensures AddEmployee(st, e).1 <==> forall i :: 0 <= i < |st.employees| ==> st.employees[i].number != e.number
    ensures AddEmployee(st, e).1 ==>
      AddEmployee(st, e).0 == Store(st.employees + [e], if e.number > st.maximumId then e.number else st.maximumId)
    ensures !AddEmployee(st, e).1 ==> AddEmployee(st, e).0 == st
  {
  }

  /** Adding keeps the numbers distinct and keeps them within the counter. */
  lemma AddEmployeeKeepsInvariant(st: Store, e: WebApiEmployee)
    ensures Unique(st.employees) ==> Unique(AddEmployee(st, e).0.employees)
    ensures Bounded(st) ==> Bounded(AddEmployee(st, e).0)
    ensures AddEmployee(st, e).0.maximumId >= st.maximumId
  {
  }

  /** After a successful add the record can be looked up by its number. */
  lemma AddEmployeeThenGet(st: Store, e: WebApiEmployee)
    requires AddEmployee(st, e).1
    ensures GetById(AddEmployee(st, e).0.employees, e.number) == Ok(e)
  {
    var s := AddEmployee(st, e).0.employees;
    assert s[|s| - 1].number == e.number;
  }

  // ----- Seeding -----

  predicate Seeded(s: seq<WebApiEmployee>) {
    HasNumber(s, 1001) && HasNumber(s, 1002) && HasNumber(s, 1003)
  }

  lemma {:induction false} AddEmployeeKeepsNumbers(st: Store, e: WebApiEmployee, n: int)
    requires HasNumber(st.employees, n)
    ensures HasNumber(AddEmployee(st, e).0.employees, n)
  {
    if AddEmployee(st, e).1 {
      var i :| 0 <= i < |st.employees| && st.employees[i].number == n;
      assert AddEmployee(st, e).0.employees[i].number == n;
    }
  }

  lemma AddEmployeeHasNumber(st: Store, e: WebApiEmployee)
    ensures HasNumber(AddEmployee(st, e).0.employees, e.number)
  {
    if AddEmployee(st, e).1 {
      var s := AddEmployee(st, e).0.employees;
      assert s[|s| - 1].number == e.number;
    }
  }

  /** After a constructor run the three seed numbers are always present. */
  lemma SeedEstablishesSeeded(st: Store)
    ensures Seeded(Seed(st).employees)
  {
    var s1 := AddEmployee(st, Ada).0;
    var s2 := AddEmployee(s1, Turing).0;
    AddEmployeeHasNumber(st, Ada);
    AddEmployeeKeepsNumbers(s1, Turing, 1001);
    AddEmployeeHasNumber(s1, Turing);
    AddEmployeeKeepsNumbers(s2, Hopper, 1001);
    AddEmployeeKeepsNumbers(s2, Hopper, 1002);
    AddEmployeeHasNumber(s2, Hopper);
  }

  /** A constructor run on a store that holds the three seed numbers (in
      whatever records) changes neither the list nor the counter. */
  lemma SeedOnSeededIsNoOp(st: Store)
    requires Seeded(st.employees)
    ensures Seed(st) == st
  {
  }

  /** Seeding is idempotent: any further constructor run changes nothing. */
  lemma SeedIdempotent(st: Store)
    ensures Seed(Seed(st)) == Seed(st)
  {
    SeedEstablishesSeeded(st);
    SeedOnSeededIsNoOp(Seed(st));
  }

  /** The first constructor run installs exactly the three seed records, in
      order, and leaves the counter at 1003. */
  lemma SeedFromInitial()
    ensures Seed(Initial()).employees == [Ada, Turing, Hopper]
    ensures Numbers(Seed(Initial()).employees) == [1001, 1002, 1003]
    ensures Seed(Initial()).maximumId == 1003
  {
  }

  /** Seeding keeps the numbers distinct and within the counter, and never
      lowers the counter. */
  lemma SeedKeepsInvariant(st: Store)
    ensures Unique(st.employees) ==> Unique(Seed(st).employees)
    ensures Bounded(st) ==> Bounded(Seed(st))
    ensures Seed(st).maximumId >= st.maximumId
  {
  }

  // ----- Get(id) -----

  /** `Get(id)` answers with the first record numbered `id`, and with 400
      exactly when there is none. */
  lemma GetByIdOutcome(s: seq<WebApiEmployee>, id: int)
    ensures GetById(s, id) == BadRequest <==> !HasNumber(s, id)
    ensures GetById(s, id).Ok? ==>
      exists k :: 0 <= k < |s| && GetById(s, id).employee == s[k] && s[k].number == id &&
        forall j :: 0 <= j < k ==> s[j].number != id
    ensures GetById(s, id).BadRequest? || GetById(s, id).Ok?
  {
  }

  /** In a store whose numbers are distinct, `Get(id)` finds THE record. */
  lemma GetByIdUnique(s: seq<WebApiEmployee>, k: int)
    requires Unique(s)
    requires 0 <= k < |s|
    ensures GetById(s, s[k].number) == Ok(s[k])
  {
  }

  // ----- Post -----

  /** `Post` numbers the record with the old counter plus one, raises the
      counter by exactly one, appends the record after the unchanged earlier
      ones, and answers 201 with that number and its location. */
  lemma PostOutcome(st: Store, value: WebApiEmployee)
    ensures var (st', r) := Post(st, value);
      var n := st.maximumId + 1;
      st'.maximumId == n &&
      |st'.employees| == |st.employees| + 1 &&
      st'.employees[..|st.employees|] == st.employees &&
      st'.employees[|st.employees|] == value.(number := n) &&
      r == Created("/api/employees/" + DecimalString(n), n)
  {
  }

  /** When every stored number is within the counter, `Post` allocates a
      number above all stored ones, so it keeps the numbers distinct; and it
      keeps them within the counter. */
  lemma PostKeepsInvariant(st: Store, value: WebApiEmployee)
    requires Unique(st.employees) && Bounded(st)
    ensures !HasNumber(st.employees, Post(st, value).1.number)
    ensures Unique(Post(st, value).0.employees)
    ensures Bounded(Post(st, value).0)
  {
  }

  /** A record created by `Post` is what `Get` then returns for its number,
      identical to the body except for the number. */
  lemma PostThenGet(st: Store, value: WebApiEmployee)
    requires Bounded(st)
    ensures var (st', r) := Post(st, value);
      GetById(st'.employees, r.number) == Ok(value.(number := r.number))
  {
    var st' := Post(st, value).0;
    var n := st.maximumId + 1;
    assert !HasNumber(st.employees, n);
    assert st'.employees[|st.employees|].number == n;
  }

  // ----- Put -----

  /** A path number that differs from the body's number is refused with 400
      and changes nothing. */
  lemma PutMismatch(st: Store, id: int, value: WebApiEmployee)
    requires id != value.number
    ensures Put(st, id, value) == (st, BadRequest)
  {
  }

  /** With no record of that number, `Put` appends the body as it is and
      answers 201; the counter is NOT raised. */
  lemma PutCreate(st: Store, id: int, value: WebApiEmployee)
    requires id == value.number && !HasNumber(st.employees, id)
    ensures Put(st, id, value).0 == Store(st.employees + [value], st.maximumId)
    ensures Put(st, id, value).1 == Created("/api/employees/" + DecimalString(id), id)
  {
  }

  /** With a record of that number, `Put` replaces the name and address of
      the first such record only, keeps its number, every other record and
      the length, answers 204 and leaves the counter alone. */
  lemma PutUpdate(st: Store, id: int, value: WebApiEmployee)
    requires id == value.number && HasNumber(st.employees, id)
    ensures var (st', r) := Put(st, id, value);
      var k := FindIndex(st.employees, id);
      r == NoContent &&
      st'.maximumId == st.maximumId &&
      |st'.employees| == |st.employees| &&
      (forall j :: 0 <= j < k ==> st.employees[j].number != id) &&
      st'.employees[k] == WebApiEmployee(id, value.name, value.address) &&
      forall j :: 0 <= j < |st.employees| && j != k ==> st'.employees[j] == st.employees[j]
  {
  }

  /** `Put` never makes two numbers equal: it appends only an absent number
      and never changes a stored number. */
  lemma PutKeepsUnique(st: Store, id: int, value: WebApiEmployee)
    requires Unique(st.employees)
    ensures Unique(Put(st, id, value).0.employees)
  {
  }

  /** In a bounded store, `Put` keeps every number within the counter
      exactly unless it creates a record numbered above the counter. */
  lemma PutBoundedIff(st: Store, id: int, value: WebApiEmployee)
    requires Bounded(st)
    ensures Bounded(Put(st, id, value).0) <==>
      !(id == value.number && !HasNumber(st.employees, id) && id > st.maximumId)
    ensures Put(st, id, value).0.maximumId == st.maximumId
  {
    var st' := Put(st, id, value).0;
    if id == value.number && !HasNumber(st.employees, id) && id > st.maximumId {
      assert st'.employees[|st.employees|].number == id;
    } else if id == value.number && HasNumber(st.employees, id) {
      var k := FindIndex(st.employees, id);
      assert forall j :: 0 <= j < |st'.employees| ==> st'.employees[j].number == st.employees[j].number;
    }
  }

  /** Because PUT-create leaves the counter alone, a PUT of number 1004 on the
      freshly seeded store followed by a POST stores 1004 twice. */
  lemma PutCreateThenPostDuplicates(x: WebApiEmployee, y: WebApiEmployee)
    requires x.number == 1004
    ensures var st1 := Seed(Initial());
      var st2 := Put(st1, 1004, x).0;
      var st3 := Post(st2, y).0;
      Put(st1, 1004, x).1.Created? && Bounded(st1) && !Bounded(st2) &&
      Post(st2, y).1.number == 1004 && !Unique(st3.employees)
  {
    SeedFromInitial();
    var st1 := Seed(Initial());
    assert FindIndex(st1.employees, 1004) < 0;
    var st2 := Put(st1, 1004, x).0;
    assert st2.employees[3].number == 1004;
    var st3 := Post(st2, y).0;
    assert st3.employees[3].number == 1004 == st3.employees[4].number;
  }

  // ----- Sequences of requests -----

  /** No request lowers the counter. */
  lemma ServeMonotone(st: Store, req: Request)
    ensures Serve(st, req).maximumId >= st.maximumId
  {
  }

  /** Across any sequence of requests the counter never decreases. */
  lemma {:induction false} ServeAllMonotone(st: Store, reqs: seq<Request>)
    ensures ServeAll(st, reqs).maximumId >= st.maximumId
    decreases |reqs|
  {
    if reqs != [] {
      ServeMonotone(st, reqs[0]);
      ServeAllMonotone(Serve(st, reqs[0]), reqs[1..]);
    }
  }

  /** One request keeps distinct numbers within the counter, unless it is a
      PUT, with matching path and body numbers, above the counter as the
      seeding leaves it. */
  lemma ServeKeepsInvariant(st: Store, req: Request)
    requires Unique(st.employees) && Bounded(st)
    requires req.PutRequest? && req.id == req.body.number ==> req.id <= Seed(st).maximumId
    ensures Unique(Serve(st, req).employees) && Bounded(Serve(st, req))
  {
    SeedKeepsInvariant(st);
    var seeded := Seed(st);
    match req
    case PostRequest(body) => PostKeepsInvariant(seeded, body);
    case PutRequest(id, body) =>
      PutKeepsUnique(seeded, id, body);
      PutBoundedIff(seeded, id, body);
    case _ =>
  }

  /** Starting from distinct numbers within the counter, every sequence of
      requests whose matching PUTs name numbers no larger than the starting
      counter keeps the numbers distinct: the guarantee POST relies on holds as long
      as no PUT creates a record above the counter. */
  lemma {:induction false} ServeAllKeepsInvariant(st: Store, reqs: seq<Request>)
    requires Unique(st.employees) && Bounded(st)
    requires forall i :: 0 <= i < |reqs| && reqs[i].PutRequest? && reqs[i].id == reqs[i].body.number ==>
      reqs[i].id <= st.maximumId
    ensures Unique(ServeAll(st, reqs).employees) && Bounded(ServeAll(st, reqs))
    decreases |reqs|
  {
    if reqs != [] {
      SeedKeepsInvariant(st);
      ServeKeepsInvariant(st, reqs[0]);
      ServeMonotone(st, reqs[0]);
      var next := Serve(st, reqs[0]);
      assert forall i :: 0 <= i < |reqs[1..]| ==> reqs[1..][i] == reqs[i + 1];
      ServeAllKeepsInvariant(next, reqs[1..]);
    }
  }

  // ----- Seeding across requests -----

  /** `Post` only appends, so every number stored before is still stored. */
  lemma PostKeepsNumbers(st: Store, value: WebApiEmployee, n: int)
    requires HasNumber(st.employees, n)
    ensures HasNumber(Post(st, value).0.employees, n)
  {
    var i :| 0 <= i < |st.employees| && st.employees[i].number == n;
    assert Post(st, value).0.employees[i].number == n;
  }

  /** `Put` appends or rewrites a name and an address, so every number
      stored before is still stored. */
  lemma PutKeepsNumbers(st: Store, id: int, value: WebApiEmployee, n: int)
    requires HasNumber(st.employees, n)
    ensures HasNumber(Put(st, id, value).0.employees, n)
  {
    var i :| 0 <= i < |st.employees| && st.employees[i].number == n;
    assert Put(st, id, value).0.employees[i].number == n;
  }

  /** After any request the three seed numbers are stored. */
  lemma ServeSeeded(st: Store, req: Request)
    ensures Seeded(Serve(st, req).employees)
  {
    var seeded := Seed(st);
    SeedEstablishesSeeded(st);
    match req
    case PostRequest(body) =>
      PostKeepsNumbers(seeded, body, 1001);
      PostKeepsNumbers(seeded, body, 1002);
      PostKeepsNumbers(seeded, body, 1003);
    case PutRequest(id, body) =>
      PutKeepsNumbers(seeded, id, body, 1001);
      PutKeepsNumbers(seeded, id, body, 1002);
      PutKeepsNumbers(seeded, id, body, 1003);
    case _ =>
  }

  /** Once one request has been served, the seeding that opens every later
      request changes neither the list nor the counter. */
  lemma {:induction false} ServeAllReseedIsNoOp(st: Store, reqs: seq<Request>)
    requires reqs != []
    ensures Seed(ServeAll(st, reqs)) == ServeAll(st, reqs)
    decreases |reqs|
  {
    if |reqs| == 1 {
      assert ServeAll(st, reqs) == ServeAll(Serve(st, reqs[0]), []);
      ServeSeeded(st, reqs[0]);
      SeedOnSeededIsNoOp(Serve(st, reqs[0]));
    } else {
      ServeAllReseedIsNoOp(Serve(st, reqs[0]), reqs[1..]);
    }
  }

  /** The duplicate arises end to end: serving a PUT of 1004 and then a POST
      on a fresh process stores two records numbered 1004. */
  lemma ServedPutThenPostDuplicates(x: WebApiEmployee, y: WebApiEmployee)
    requires x.number == 1004
    ensures !Unique(ServeAll(Initial(), [PutRequest(1004, x), PostRequest(y)]).employees)
  {
    PutCreateThenPostDuplicates(x, y);
    var st1 := Seed(Initial());
    var st2 := Put(st1, 1004, x).0;
    assert Serve(Initial(), PutRequest(1004, x)) == st2;
    ServeSeeded(Initial(), PutRequest(1004, x));
    SeedOnSeededIsNoOp(st2);
    assert Serve(st2, PostRequest(y)) == Post(st2, y).0;
    var reqs := [PutRequest(1004, x), PostRequest(y)];
    assert reqs[0] == PutRequest(1004, x) && reqs[1..] == [PostRequest(y)];
    assert ServeAll(Initial(), reqs) == ServeAll(st2, [PostRequest(y)]);
    assert [PostRequest(y)][1..] == [];
    assert ServeAll(st2, [PostRequest(y)]) == ServeAll(Post(st2, y).0, []);
  }

  // ----- The seeded scenario -----

  /** On the seeded store, 1001 is Ada King-Noel's record and 9999 is a 400. */
  lemma SeededGet()
    ensures GetById(Seed(Initial()).employees, 1001) == Ok(Ada)
    ensures GetById(Seed(Initial()).employees, 9999) == BadRequest
  {
  }

  /** On the seeded store a POST is numbered 1004 at "/api/employees/1004"
      and can then be read back under that number. */
  lemma SeededPost(x: WebApiEmployee)
    ensures Post(Seed(Initial()), x).1 == Created("/api/employees/1004", 1004)
    ensures GetById(Post(Seed(Initial()), x).0.employees, 1004) == Ok(x.(number := 1004))
  {
    SeedFromInitial();
    var st := Seed(Initial());
    assert st.maximumId == 1003;
    assert Bounded(st);
    assert DecimalString(1004) == "1004";
    PostThenGet(st, x);
  }
}
