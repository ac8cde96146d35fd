/** The country picker: the option list built from the country table, the
    option shown for the current `value`, and what picking an entry does. The
    country table is an input; the alphabetical sort of the options is not
    modelled, and the lookups are stated for any order of the list. */
module CountrySelect {
  import opened Wrappers
  import opened Text

  /** The fields of a `world-countries` entry the picker reads:
      `name.common`, `cca2` and `flag`. */
  datatype Country = Country(common: string, cca2: string, flag: string)

  datatype CountryOption = CountryOption(name: string, code: string, flag: string)

  /** The `.map` that turns the country table into options. */
  function CountryOptions(countries: seq<Country>): (r: seq<CountryOption>)
    ensures |r| == |countries|
    ensures forall k :: 0 <= k < |countries| ==>
              r[k].name == countries[k].common && r[k].code == countries[k].cca2 &&
              r[k].flag == countries[k].flag
  {
    if countries == [] then []
    else [CountryOption(countries[0].common, countries[0].cca2, countries[0].flag)] +
         CountryOptions(countries[1..])
  }

  /** The `find` test: the option's name or code equals `value`, both
      lower-cased. */
  predicate MatchesValue(option: CountryOption, value: string) {
    Lower(option.name) == Lower(value) || Lower(option.code) == Lower(value)
  }

  /** The index of the first option matching `value`. */
  function FirstMatching(options: seq<CountryOption>, value: string): (r: Option<nat>)
    ensures r.Some? ==> r.value < |options| && MatchesValue(options[r.value], value) &&
                        forall j :: 0 <= j < r.value ==> !MatchesValue(options[j], value)
    ensures r.None? ==> forall j :: 0 <= j < |options| ==> !MatchesValue(options[j], value)
  {
    if options == [] then None
    else if MatchesValue(options[0], value) then Some(0)
    else
      match FirstMatching(options[1..], value)
      case None => None
      case Some(i) => Some(i + 1)
  }

  /** `selectedCountry`: `null` for an absent or empty value, the option
      found, or `undefined` when none matches. */
  datatype Selection = NoValue | Found(option: CountryOption) | NotFound

  function SelectedCountry(options: seq<CountryOption>, value: Option<string>): (r: Selection)
    ensures r == NoValue <==> value.None? || value.value == ""
    ensures r.Found? ==> exists k :: 0 <= k < |options| && options[k] == r.option &&
                           MatchesValue(options[k], value.value) &&
                           forall j :: 0 <= j < k ==> !MatchesValue(options[j], value.value)
    ensures r == NotFound <==> value.Some? && value.value != "" &&
                               forall j :: 0 <= j < |options| ==> !MatchesValue(options[j], value.value)
  {
    if value.None? || value.value == "" then NoValue
    else
      match FirstMatching(options, value.value)
      case None => NotFound
      case Some(k) => Found(options[k])
  }

  /** The option shown does not depend on the letter case of `value`. */
  lemma SelectionIgnoresCase(options: seq<CountryOption>, value: string, other: string)
    requires |value| == |other|
    requires forall i :: 0 <= i < |value| ==> LowerChar(value[i]) == LowerChar(other[i])
    ensures SelectedCountry(options, Some(value)) == SelectedCountry(options, Some(other))
  {
    assert Lower(value) == Lower(other);
    forall o ensures MatchesValue(o, value) == MatchesValue(o, other) {
    }
  }

  /** Whether some option is shown does not depend on the order of the
      list, so it holds for the sorted list too. */
  lemma SelectionOrderFree(options: seq<CountryOption>, reordered: seq<CountryOption>, value: string)
    requires multiset(options) == multiset(reordered)
    ensures SelectedCountry(options, Some(value)).Found? <==> SelectedCountry(reordered, Some(value)).Found?
  {
    if SelectedCountry(options, Some(value)).Found? {
      var o := SelectedCountry(options, Some(value)).option;
      assert o in multiset(reordered);
      var k :| 0 <= k < |reordered| && reordered[k] == o;
      assert MatchesValue(reordered[k], value);
    }
    if SelectedCountry(reordered, Some(value)).Found? {
      var o := SelectedCountry(reordered, Some(value)).option;
      assert o in multiset(options);
      var k :| 0 <= k < |options| && options[k] == o;
      assert MatchesValue(options[k], value);
    }
  }

  /** The index of the first option named exactly `name`. */
  function FirstNamed(options: seq<CountryOption>, name: string): (r: Option<nat>)
    ensures r.Some? ==> r.value < |options| && options[r.value].name == name
    ensures r.None? ==> forall j :: 0 <= j < |options| ==> options[j].name != name
  {
    if options == [] then None
    else if options[0].name == name then Some(0)
    else
      match FirstNamed(options[1..], name)
      case None => None
      case Some(i) => Some(i + 1)
  }

  class CountrySelectState {
    const options: seq<CountryOption>
    const hasOnValueChange: bool
    var open: bool

    constructor (options: seq<CountryOption>, hasOnValueChange: bool)
      ensures this.options == options && this.hasOnValueChange == hasOnValueChange
      ensures !open
    {
      this.options := options;
      this.hasOnValueChange := hasOnValueChange;
      open := false;
    }

    /** The popover's `onOpenChange`. */
    method OpenChange(isOpen: bool)
      modifies this
      ensures open == isOpen
    {
      open := isOpen;
    }

    /** `handleSelect`: report the option named exactly `selected`, when
        there is one and a callback to tell, and close the popover either
        way. */
    method HandleSelect(selected: string) returns (called: Option<string>)
      modifies this
      ensures !open
      ensures called.Some? <==> hasOnValueChange && exists k :: 0 <= k < |options| && options[k].name == selected
      ensures called.Some? ==> called.value == selected
    {
      called := None;
      var found := FirstNamed(options, selected);
      if found.Some? && hasOnValueChange {
        called := Some(options[found.value].name);
      }
      open := false;
    }
  }

  /** A reported name is one the picker then shows an option for. */
  lemma SelectedNameIsShown(options: seq<CountryOption>, k: nat)
    requires k < |options| && options[k].name != ""
    ensures SelectedCountry(options, Some(options[k].name)).Found?
  {
    assert MatchesValue(options[k], options[k].name);
  }
}
