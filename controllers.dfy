/** The web service's `EmployeesController`. The employee list and the
    `MaximumId` counter are static in the service, shared by every
    controller instance; here they are the fields of one `StaticStore`
    object that every controller refers to. Each action is proved to move
    the store exactly as the matching function of `StoreModel` says. */
module Controllers {
  import opened CSharpRuntime
  import opened WebApiModels
  import StoreModel

  /** The two static fields of the controller class. */
  class StaticStore {
    var employees: seq<WebApiEmployee>
    var maximumId: int

    function State(): StoreModel.Store
      reads this
    {
      StoreModel.Store(employees, maximumId)
    }

    /** The static initialisers: an empty list and `MaximumId = 1001`. */
    constructor ()
      ensures State() == StoreModel.Initial()
    {
      employees := [];
      maximumId := StoreModel.InitialMaximumId;
    }
  }

  class EmployeesController {
    const store: StaticStore

    /** Constructing a controller seeds the shared store with the three
        sample employees, each through `AddEmployee`. */
    constructor (store: StaticStore)
      modifies store
      ensures this.store == store
      ensures store.State() == StoreModel.Seed(old(store.State()))
    {
      this.store := store;
      new;
      var added := AddEmployee(StoreModel.Ada);
      added := AddEmployee(StoreModel.Turing);
      added := AddEmployee(StoreModel.Hopper);
    }

    /** Adds the employee unless one with the same number is stored. */
    method AddEmployee(employee: WebApiEmployee) returns (add: bool)
      modifies store
      ensures (store.State(), add) == StoreModel.AddEmployee(old(store.State()), employee)
    {
      add := true;
      var i := 0;
      while i < |store.employees|
        invariant 0 <= i <= |store.employees|
        invariant forall j :: 0 <= j < i ==> store.employees[j].number != employee.number
      {
        if store.employees[i].number == employee.number {
          add := false;
          break;
        }
        i := i + 1;
      }
      if add {
        store.employees := store.employees + [employee];
        if employee.number > store.maximumId {
          store.maximumId := employee.number;
        }
      }
    }

    /** `GET api/employees`: the stored list itself, in insertion order. */
    method GetAll() returns (r: seq<WebApiEmployee>)
      ensures r == store.employees
    {
      r := store.employees;
    }

    /** `GET api/employees/{id}`: linear search for the first match. */
    method Get(id: int) returns (r: StoreModel.ActionResult)
      ensures r == StoreModel.GetById(store.employees, id)
    {
      var found: Nullable<WebApiEmployee> := Null;
      var i := 0;
      while i < |store.employees|
        invariant 0 <= i <= |store.employees|
        invariant forall j :: 0 <= j < i ==> store.employees[j].number != id
      {
        if store.employees[i].number == id {
          found := NonNull(store.employees[i]);
          break;
        }
        i := i + 1;
      }
      if found.Null? {
        return StoreModel.BadRequest;
      }
      return StoreModel.Ok(found.value);
    }

    /** `POST api/employees`: the record gets the next number and is
        appended. */
    method Post(value: WebApiEmployee) returns (r: StoreModel.ActionResult)
      modifies store
      ensures (store.State(), r) == StoreModel.Post(old(store.State()), value)
    {
      store.maximumId := store.maximumId + 1;
      var stored := value.(number := store.maximumId);
      store.employees := store.employees + [stored];
      r := StoreModel.Created(StoreModel.LocationOf(stored.number), stored.number);
    }

    /** `PUT api/employees/{id}`: create or update by number. */
    method Put(id: int, value: WebApiEmployee) returns (r: StoreModel.ActionResult)
      modifies store
      ensures (store.State(), r) == StoreModel.Put(old(store.State()), id, value)
    {
      if id != value.number {
        return StoreModel.BadRequest;
      }
      var k := StoreModel.FindIndex(store.employees, id);
      if k < 0 {
        store.employees := store.employees + [value];
        r := StoreModel.Created(StoreModel.LocationOf(value.number), value.number);
      } else {
        var existing := store.employees[k];
        store.employees := store.employees[k := existing.(name := value.name, address := value.address)];
        r := StoreModel.NoContent;
      }
    }

    /** `DELETE api/employees/{id}`: removes nothing and answers false. */
    method Delete(id: int) returns (r: bool)
      ensures !r
    {
      r := false;
    }
  }

  /** Two controllers constructed in turn over the same store, as two
      requests would be: the second seeding leaves the store as the first
      left it. */
  method TwoRequests() returns (first: StoreModel.Store, second: StoreModel.Store)
    ensures first == second
    ensures first.employees == [StoreModel.Ada, StoreModel.Turing, StoreModel.Hopper]
    ensures first.maximumId == 1003
  {
    var store := new StaticStore();
    var c1 := new EmployeesController(store);
    first := store.State();
    var c2 := new EmployeesController(store);
    second := store.State();
    StoreModel.SeedFromInitial();
    StoreModel.SeedIdempotent(StoreModel.Initial());
  }
}
