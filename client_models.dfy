/** The web client's view models: an address that renders itself as one
    line of text, and an employee whose address summary falls back to a
    fixed text when it has no address. */
module ClientModels {
  import opened CSharpRuntime

  const NoAddressText: string := "No Address Specified"

  datatype ClientAddress = ClientAddress(
    number: int,
    streetName: Nullable<string>,
    city: Nullable<string>,
    postCode: Nullable<string>)
  {
    /** `Number + " " + StreetName + ", " + City + ", " + PostCode`, where a
        null string contributes nothing. */
    function ToString(): string {
      DecimalString(number) + " " + OrEmpty(streetName) + ", " + OrEmpty(city) + ", " + OrEmpty(postCode)
    }
  }

  datatype ClientEmployee = ClientEmployee(
    number: int,
    name: Nullable<string>,
    address: Nullable<ClientAddress>)
  {
    /** The address as text, or a fixed message when there is none. */
    function AddressSummary(): string {
      if address.NonNull? then address.value.ToString() else NoAddressText
    }
  }

  /** `new ClientAddress()`: every property at its default. */
  function DefaultAddress(): (a: ClientAddress)
    ensures a.number == 0 && a.streetName.Null? && a.city.Null? && a.postCode.Null?
  {
    ClientAddress(0, Null, Null, Null)
  }

  /** `new ClientEmployee()`: every property at its default. */
  function DefaultEmployee(): (e: ClientEmployee)
    ensures e.number == 0 && e.name.Null? && e.address.Null?
  {
    ClientEmployee(0, Null, Null)
  }

  /** The text is five separator characters longer than its four parts. */
  lemma ToStringLength(a: ClientAddress)
    ensures |a.ToString()| ==
      |DecimalString(a.number)| + |OrEmpty(a.streetName)| + |OrEmpty(a.city)| + |OrEmpty(a.postCode)| + 5
  {
  }

  /** The text starts with the house number, ended by the first space, and
      reading that prefix back gives the number. */
  lemma ToStringLeadingNumber(a: ClientAddress)
    ensures var s := a.ToString();
      var d := |DecimalString(a.number)|;
      d < |s| && s[d] == ' ' &&
      (forall i :: 0 <= i < d ==> s[i] != ' ') &&
      s[..d] == DecimalString(a.number) &&
      ParseInt(s[..d]) == a.number
  {
    var s := a.ToString();
    var d := DecimalString(a.number);
    assert s[..|d|] == d;
    DecimalRoundTrip(a.number);
  }

  /** The street, city and post code appear in order after the number,
      separated by ", ". */
  lemma ToStringParts(a: ClientAddress)
    ensures var s := a.ToString();
      var d := |DecimalString(a.number)|;
      var st := OrEmpty(a.streetName);
      var c := OrEmpty(a.city);
      var p := OrEmpty(a.postCode);
      s[d + 1..d + 1 + |st|] == st &&
      s[d + 1 + |st|..d + 3 + |st|] == ", " &&
      s[d + 3 + |st|..d + 3 + |st| + |c|] == c &&
      s[d + 3 + |st| + |c|..d + 5 + |st| + |c|] == ", " &&
      s[d + 5 + |st| + |c|..] == p
  {
  }

  /** A null string field renders exactly as an empty one. */
  lemma ToStringNullIsEmpty(a: ClientAddress)
    ensures a.(streetName := Null).ToString() == a.(streetName := NonNull("")).ToString()
    ensures a.(city := Null).ToString() == a.(city := NonNull("")).ToString()
    ensures a.(postCode := Null).ToString() == a.(postCode := NonNull("")).ToString()
  {
  }

  /** The default address renders as "0 , , ". */
  lemma DefaultAddressToString()
    ensures DefaultAddress().ToString() == "0 , , "
  {
  }

  /** With no address the summary is the fixed message; with one it is that
      address's text. */
  lemma AddressSummaryCases(e: ClientEmployee)
    ensures e.address.Null? ==> e.AddressSummary() == "No Address Specified"
    ensures e.address.NonNull? ==> e.AddressSummary() == e.address.value.ToString()
  {
  }

  /** An address's text never reads as the fixed message (it starts with a
      digit or '-'), so the summary is the message exactly when there is no
      address. */
  lemma AddressSummaryIsMessageIff(e: ClientEmployee)
    ensures e.AddressSummary() == NoAddressText <==> e.address.Null?
  {
    if e.address.NonNull? {
      var s := e.address.value.ToString();
      var d := DecimalString(e.address.value.number);
      assert s[0] == d[0];
      assert NoAddressText[0] == 'N';
    }
  }

  /** The summary depends on the address alone, not on the number or name. */
  lemma AddressSummaryIgnoresIdentity(e: ClientEmployee, n: int, name: Nullable<string>)
    ensures e.(number := n, name := name).AddressSummary() == e.AddressSummary()
  {
  }

  /** A default employee has no address and so summarises as the message. */
  lemma DefaultEmployeeSummary()
    ensures DefaultEmployee().AddressSummary() == "No Address Specified"
  {
  }
}
