/** The consultant search hook: the list it holds, its loading flag and
    error text, how a search moves them (an empty query, a reply, a failure
    that falls back to filtering five built-in records), and clearing the
    results. The API call is an input: the consultants it returned, or what
    it threw. */
module ConsultantSearch {
  import opened Wrappers
  import opened Text
  import opened Js

  const OfflineMessage := "Failed to connect to server. Using offline data."

  /** A built-in record with the given fields. */
  function MockRecord(id: string, name: string, email: string, phone: string, photo: Option<string>): Record {
    var r := map["_id" := Str(id), "name" := Str(name), "email" := Str(email), "phone" := Str(phone)];
    if photo.Some? then r["photo" := Str(photo.value)] else r
  }

  /** The five records used when the API cannot be reached. */
  const MockConsultants: seq<Record> := [
    MockRecord("1", "Dr. Sarah Johnson", "sarah.johnson@healthconsult.com", "+1234567890",
               Some("https://images.unsplash.com/photo-1559839734-2b71ea197ec2?w=150&h=150&fit=crop&crop=face")),
    MockRecord("2", "Dr. Michael Chen", "michael.chen@healthconsult.com", "+1234567891",
               Some("https://images.unsplash.com/photo-1612349317150-e413f6a5b16d?w=150&h=150&fit=crop&crop=face")),
    MockRecord("3", "Dr. Emily Rodriguez", "emily.rodriguez@healthconsult.com", "+1234567892", None),
    MockRecord("4", "Dr. James Wilson", "james.wilson@healthconsult.com", "+1234567893",
               Some("https://images.unsplash.com/photo-1582750433449-648ed127bb54?w=150&h=150&fit=crop&crop=face")),
    MockRecord("5", "Dr. Lisa Thompson", "lisa.thompson@healthconsult.com", "+1234567894", None)
  ]

  /** A text field of a record (`''` when it is not a string). */
  function TextField(r: Record, key: string): string {
    if key in r && r[key].Str? then r[key].s else ""
  }

  /** The record's name or e-mail, lower-cased, contains the lower-cased
      query. */
  predicate MockMatches(r: Record, query: string) {
    Contains(Lower(TextField(r, "name")), Lower(query)) || Contains(Lower(TextField(r, "email")), Lower(query))
  }

  /** The records of `rs` that match, in their order. */
  function FilterMatching(rs: seq<Record>, query: string): (r: seq<Record>)
    ensures |r| <= |rs|
    ensures forall x :: x in r <==> x in rs && MockMatches(x, query)
  {
    if rs == [] then []
    else (if MockMatches(rs[0], query) then [rs[0]] else []) + FilterMatching(rs[1..], query)
  }

  /** Filtering a concatenation filters each part: the kept records stay
      in their original order. */
  lemma {:induction false} FilterKeepsOrder(a: seq<Record>, b: seq<Record>, query: string)
    ensures FilterMatching(a + b, query) == FilterMatching(a, query) + FilterMatching(b, query)
  {
    if a == [] {
      assert a + b == b;
    } else {
      assert (a + b)[0] == a[0];
      assert (a + b)[1..] == a[1..] + b;
      FilterKeepsOrder(a[1..], b, query);
    }
  }

  /** The fallback list for a query: the matching built-in records. */
  function MockResults(query: string): (r: seq<Record>)
    ensures |r| <= 5
    ensures forall x :: x in r <==> x in MockConsultants && MockMatches(x, query)
  {
    FilterMatching(MockConsultants, query)
  }

  /** What the API call did: returned (with `consultants`, if present) or
      threw (an `Error` with its message, or some other value). */
  datatype Thrown = ErrorObject(message: string) | OtherValue
  datatype Outcome = Replied(consultants: Option<seq<Record>>) | Threw(thrown: Thrown)

  /** The error text is set only for an `Error` whose message mentions
      neither `404` nor `Network`. */
  predicate ShowsOfflineError(t: Thrown) {
    t.ErrorObject? && !Contains(t.message, "404") && !Contains(t.message, "Network")
  }

  class ConsultantSearchState {
    var consultants: seq<Record>
    var isLoading: bool
    var error: Option<string>

    constructor ()
      ensures consultants == [] && !isLoading && error == None
    {
      consultants := [];
      isLoading := false;
      error := None;
    }

    /** The synchronous start of `searchConsultants`: a query that trims to
        nothing just empties the list and makes no call; any other query
        marks the search as loading and clears the error. */
    method BeginSearch(query: string) returns (callsApi: bool)
      modifies this
      ensures callsApi <==> Trim(query) != ""
      ensures !callsApi ==> consultants == [] && isLoading == old(isLoading) && error == old(error)
      ensures callsApi ==> isLoading && error == None && consultants == old(consultants)
    {
      if Trim(query) == "" {
        consultants := [];
        return false;
      }
      isLoading := true;
      error := None;
      callsApi := true;
    }

    /** The rest of `searchConsultants`, once the call has settled. */
    method SettleSearch(query: string, outcome: Outcome)
      modifies this
      ensures !isLoading
      ensures outcome.Replied? ==> consultants == outcome.consultants.GetOr([]) && error == old(error)
      ensures outcome.Threw? ==> consultants == MockResults(query)
      ensures outcome.Threw? && ShowsOfflineError(outcome.thrown) ==> error == Some(OfflineMessage)
      ensures outcome.Threw? && !ShowsOfflineError(outcome.thrown) ==> error == old(error)
    {
      if outcome.Replied? {
        consultants := outcome.consultants.GetOr([]);
      } else {
        consultants := MockResults(query);
        var t := outcome.thrown;
        if t.ErrorObject? && !Contains(t.message, "404") && !Contains(t.message, "Network") {
          error := Some(OfflineMessage);
        }
      }
      isLoading := false;
    }

    /** A whole search for a query that is not blank. */
    method Search(query: string, outcome: Outcome)
      modifies this
      ensures Trim(query) == "" ==> consultants == [] && isLoading == old(isLoading) && error == old(error)
      ensures Trim(query) != "" ==> !isLoading
      ensures Trim(query) != "" && outcome.Replied? ==> consultants == outcome.consultants.GetOr([]) && error == None
      ensures Trim(query) != "" && outcome.Threw? ==>
                consultants == MockResults(query) &&
                error == (if ShowsOfflineError(outcome.thrown) then Some(OfflineMessage) else None)
    {
      var calls := BeginSearch(query);
      if calls {
        SettleSearch(query, outcome);
      }
    }

    /** `clearResults`: empty list, no error, loading flag untouched. */
    method ClearResults()
      modifies this
      ensures consultants == [] && error == None && isLoading == old(isLoading)
    {
      consultants := [];
      error := None;
    }
  }
}
