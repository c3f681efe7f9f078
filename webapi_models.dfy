/** The records the web service stores and exchanges. In the service they
    are property bags with public setters; here they are values. */
module WebApiModels {
  import opened CSharpRuntime

  /** A postal address: house number, street, city and post code. */
  datatype WebApiAddress = WebApiAddress(
    number: int,
    streetName: Nullable<string>,
    city: Nullable<string>,
    postCode: Nullable<string>)

  /** An employee, identified by its `number`. */
  datatype WebApiEmployee = WebApiEmployee(
    number: int,
    name: Nullable<string>,
    address: Nullable<WebApiAddress>)
}
