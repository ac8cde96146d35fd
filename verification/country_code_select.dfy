/** The calling-code picker: the option list expanded from the country
    table (one option per calling-code suffix), the option shown for the
    current `value`, and what picking an entry does. The country table is an
    input; the numeric-collation sort of the options is not modelled, and
    the lookups are stated for any order of the list. */
module CountryCodeSelect {
  import opened Wrappers

  /** A country's `idd`: the calling-code root and its suffixes, each of
      which may be missing. */
  datatype Idd = Idd(root: Option<string>, suffixes: Option<seq<string>>)

  /** The fields of a `world-countries` entry the picker reads. */
  datatype Country = Country(common: string, cca2: string, flag: string, idd: Option<Idd>)

  datatype CodeOption = CodeOption(code: string, name: string, flag: string, cca2: string)

  /** `country.idd?.root && country.idd?.suffixes?.length > 0`. */
  predicate Qualifies(c: Country) {
    c.idd.Some? && c.idd.value.root.Some? && c.idd.value.root.value != "" &&
    c.idd.value.suffixes.Some? && |c.idd.value.suffixes.value| > 0
  }

  /** `country.idd.root`, for a qualifying country. */
  function Root(c: Country): string {
    if Qualifies(c) then c.idd.value.root.value else ""
  }

  /** `country.idd.suffixes!`, for a qualifying country. */
  function Suffixes(c: Country): seq<string> {
    if Qualifies(c) then c.idd.value.suffixes.value else []
  }

  /** The `.filter` step. */
  function Qualifying(countries: seq<Country>): (r: seq<Country>)
    ensures |r| <= |countries|
    ensures forall c :: c in r <==> c in countries && Qualifies(c)
  {
    if countries == [] then []
    else (if Qualifies(countries[0]) then [countries[0]] else []) + Qualifying(countries[1..])
  }

  /** One option for a suffix of a qualifying country: the code is the root
      followed by the suffix, and the rest is the country's own. */
  function OptionFor(c: Country, suffix: string): CodeOption {
    CodeOption(Root(c) + suffix, c.common, c.flag, c.cca2)
  }

  /** `country.idd.suffixes!.map(...)`. */
  function Expand(c: Country, suffixes: seq<string>): (r: seq<CodeOption>)
    ensures |r| == |suffixes|
    ensures forall j :: 0 <= j < |suffixes| ==> r[j] == OptionFor(c, suffixes[j])
  {
    if suffixes == [] then [] else [OptionFor(c, suffixes[0])] + Expand(c, suffixes[1..])
  }

  /** The `.flatMap` step over qualifying countries. */
  function FlatExpand(countries: seq<Country>): seq<CodeOption>
  {
    if countries == [] then []
    else Expand(countries[0], Suffixes(countries[0])) + FlatExpand(countries[1..])
  }

  /** `countryOptions` before sorting. */
  function CodeOptions(countries: seq<Country>): (r: seq<CodeOption>)
    ensures |r| == SuffixTotal(countries)
  {
    ExpandCount(Qualifying(countries));
    QualifyingTotal(countries);
    FlatExpand(Qualifying(countries))
  }

  /** The suffix count of the qualifying countries, summed. */
  function SuffixTotal(countries: seq<Country>): nat {
    if countries == [] then 0
    else |Suffixes(countries[0])| +
         SuffixTotal(countries[1..])
  }

  lemma {:induction false} ExpandCount(countries: seq<Country>)
    ensures |FlatExpand(countries)| == SuffixTotal(countries)
  {
    if countries != [] {
      ExpandCount(countries[1..]);
    }
  }

  lemma {:induction false} QualifyingTotal(countries: seq<Country>)
    ensures SuffixTotal(Qualifying(countries)) == SuffixTotal(countries)
  {
    if countries != [] {
      QualifyingTotal(countries[1..]);
      var head := if Qualifies(countries[0]) then [countries[0]] else [];
      SuffixTotalAppend(head, Qualifying(countries[1..]));
    }
  }

  lemma {:induction false} SuffixTotalAppend(a: seq<Country>, b: seq<Country>)
    ensures SuffixTotal(a + b) == SuffixTotal(a) + SuffixTotal(b)
  {
    if a != [] {
      assert (a + b)[1..] == a[1..] + b;
      SuffixTotalAppend(a[1..], b);
    } else {
      assert a + b == b;
    }
  }

  /** An option is in the list exactly when it is the option of some
      suffix of some qualifying country: each carries its own country's
      name, flag and `cca2`, and its code is that country's root followed by
      the suffix. */
  lemma {:induction false} OptionsAreSuffixes(countries: seq<Country>, o: CodeOption)
    ensures o in CodeOptions(countries) <==>
              exists k, j :: 0 <= k < |countries| && Qualifies(countries[k]) &&
                0 <= j < |Suffixes(countries[k])| &&
                o == OptionFor(countries[k], Suffixes(countries[k])[j])
  {
    var q := Qualifying(countries);
    FlatExpandMembers(q, o);
    if o in CodeOptions(countries) {
      var k, j :| 0 <= k < |q| && 0 <= j < |Suffixes(q[k])| &&
                  o == OptionFor(q[k], Suffixes(q[k])[j]);
      assert q[k] in countries;
      var k' :| 0 <= k' < |countries| && countries[k'] == q[k];
    }
    if exists k, j :: 0 <= k < |countries| && Qualifies(countries[k]) &&
         0 <= j < |Suffixes(countries[k])| &&
         o == OptionFor(countries[k], Suffixes(countries[k])[j]) {
      var k, j :| 0 <= k < |countries| && Qualifies(countries[k]) &&
                  0 <= j < |Suffixes(countries[k])| &&
                  o == OptionFor(countries[k], Suffixes(countries[k])[j]);
      assert countries[k] in q;
      var k' :| 0 <= k' < |q| && q[k'] == countries[k];
    }
  }

  lemma {:induction false} FlatExpandMembers(countries: seq<Country>, o: CodeOption)
    ensures o in FlatExpand(countries) <==>
              exists k, j :: 0 <= k < |countries| && 0 <= j < |Suffixes(countries[k])| &&
                o == OptionFor(countries[k], Suffixes(countries[k])[j])
  {
    if countries != [] {
      var c := countries[0];
      var rest := countries[1..];
      FlatExpandMembers(rest, o);
      var head := Expand(c, Suffixes(c));
      assert FlatExpand(countries) == head + FlatExpand(rest);
      if o in head {
        var j :| 0 <= j < |head| && head[j] == o;
        assert countries[0] == c;
      }
      if o in FlatExpand(rest) {
        var k, j :| 0 <= k < |rest| && 0 <= j < |Suffixes(rest[k])| &&
                    o == OptionFor(rest[k], Suffixes(rest[k])[j]);
        assert countries[k + 1] == rest[k];
      }
      if exists k, j :: 0 <= k < |countries| && 0 <= j < |Suffixes(countries[k])| &&
           o == OptionFor(countries[k], Suffixes(countries[k])[j]) {
        var k, j :| 0 <= k < |countries| && 0 <= j < |Suffixes(countries[k])| &&
                    o == OptionFor(countries[k], Suffixes(countries[k])[j]);
        if k == 0 {
          assert head[j] == o;
        } else {
          assert rest[k - 1] == countries[k];
        }
      }
    }
  }

  /** `countryOptions.find((country) => country.code === value)`: `value`
      may be absent, and then nothing matches. */
  function SelectedCode(options: seq<CodeOption>, value: Option<string>): (r: Option<CodeOption>)
    ensures r.Some? ==> value.Some?
    ensures r.Some? ==> exists k :: 0 <= k < |options| && options[k] == r.value &&
                          options[k].code == value.value &&
                          forall j :: 0 <= j < k ==> options[j].code != value.value
    ensures r.None? <==> value.None? || forall j :: 0 <= j < |options| ==> options[j].code != value.value
  {
    if value.None? || options == [] then None
    else if options[0].code == value.value then Some(options[0])
    else SelectedCode(options[1..], value)
  }

  class CodeSelectState {
    var open: bool

    constructor ()
      ensures !open
    {
      open := false;
    }

    /** The popover's `onOpenChange`. */
    method OpenChange(isOpen: bool)
      modifies this
      ensures open == isOpen
    {
      open := isOpen;
    }

    /** An entry's `onSelect`: report its code and close the popover. */
    method Select(option: CodeOption) returns (called: string)
      modifies this
      ensures called == option.code && !open
    {
      called := option.code;
      open := false;
    }
  }

  /** A reported code is one the picker then shows an option for, with that
      code (the first option carrying it). */
  lemma SelectedCodeIsShown(options: seq<CodeOption>, k: nat)
    requires k < |options|
    ensures SelectedCode(options, Some(options[k].code)).Some?
    ensures SelectedCode(options, Some(options[k].code)).value.code == options[k].code
  {
  }
}
