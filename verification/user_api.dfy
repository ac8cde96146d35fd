/** The user helpers behind the consultant screens: `normalizeUser`, which
    gives every raw user record the same shape, and `getUsers`, which builds
    the request parameters and maps the server's envelope to a page of
    users; plus the `consultantAPI` wrappers over `getUsers`. The HTTP call
    itself is an input: its reply, or the error it threw. */
module UserApi {
  import opened Wrappers
  import opened Text
  import opened Js

  /** The keys `normalizeUser` always fills in before the raw record is
      spread over them. */
  const NormalizedKeys: set<string> :=
    {"_id", "name", "email", "phone", "photo", "role", "department",
     "specialization", "experience", "status", "active"}

  /** The `${firstName || ''} ${lastName || ''}` fallback for the name. */
  function JoinedName(raw: Record): string {
    Trim(ToString(Or(Get(raw, "firstName"), Str(""))) + " " + ToString(Or(Get(raw, "lastName"), Str(""))))
  }

  /** The first of `photo`, `profilePhoto`, `avatar` whose type is string. */
  function PhotoOf(raw: Record): (r: JsValue)
    ensures r.Str? || r == Undefined
    ensures Get(raw, "photo").Str? ==> r == Get(raw, "photo")
    ensures !Get(raw, "photo").Str? && Get(raw, "profilePhoto").Str? ==> r == Get(raw, "profilePhoto")
    ensures !Get(raw, "photo").Str? && !Get(raw, "profilePhoto").Str? ==>
              r == (if Get(raw, "avatar").Str? then Get(raw, "avatar") else Undefined)
  {
    if Get(raw, "photo").Str? then Get(raw, "photo")
    else if Get(raw, "profilePhoto").Str? then Get(raw, "profilePhoto")
    else if Get(raw, "avatar").Str? then Get(raw, "avatar")
    else Undefined
  }

  /** `rawUser._id || rawUser.id || ''`. */
  function IdOf(raw: Record): JsValue {
    Or(Get(raw, "_id"), Or(Get(raw, "id"), Str("")))
  }

  /** `rawUser.name || rawUser.fullName || joined.trim() || 'Unknown'`. */
  function NameOf(raw: Record): JsValue {
    Or(Get(raw, "name"), Or(Get(raw, "fullName"), Or(Str(JoinedName(raw)), Str("Unknown"))))
  }

  /** `(rawUser.status as ...) || 'active'`. */
  function StatusOf(raw: Record): JsValue {
    Or(Get(raw, "status"), Str("active"))
  }

  /** `typeof rawUser.active === 'boolean' ? rawUser.active : rawUser.status === 'active'`. */
  function ActiveOf(raw: Record): JsValue {
    if Get(raw, "active").Bool? then Get(raw, "active") else Bool(Get(raw, "status") == Str("active"))
  }

  /** The value the object literal `normalized` gives key `k`. */
  function Field(raw: Record, k: string): JsValue {
    if k == "_id" then IdOf(raw)
    else if k == "name" then NameOf(raw)
    else if k == "email" then Or(Get(raw, "email"), Str(""))
    else if k == "phone" then Or(Get(raw, "phone"), Get(raw, "phoneNumber"))
    else if k == "photo" then PhotoOf(raw)
    else if k == "status" then StatusOf(raw)
    else if k == "active" then ActiveOf(raw)
    else Get(raw, k)  // role, department, specialization, experience
  }

  /** The object literal `normalized`, before the spread. */
  function Normalized(raw: Record): (n: Record)
    ensures n.Keys == NormalizedKeys
    ensures forall k :: k in NormalizedKeys ==> n[k] == Field(raw, k)
  {
    map k | k in NormalizedKeys :: Field(raw, k)
  }

  /** `{ ...normalized, ...rawUser }`: the raw record spread last. */
  function NormalizeUser(raw: Record): (u: Record)
    ensures u.Keys == NormalizedKeys + raw.Keys
    ensures forall k :: k in raw ==> u[k] == raw[k]
    ensures forall k :: k in NormalizedKeys && k !in raw ==> u[k] == Normalized(raw)[k]
  {
    Normalized(raw) + raw
  }

  /** Every fallback tests truthiness, so an empty string falls through:
      `_id` is `_id`, else `id`, else `''`; `email` is `email`, else `''`;
      `phone` is `phone`, else `phoneNumber`. */
  lemma IdEmailPhone(raw: Record)
    ensures Truthy(Get(raw, "_id")) ==> IdOf(raw) == raw["_id"]
    ensures !Truthy(Get(raw, "_id")) && Truthy(Get(raw, "id")) ==> IdOf(raw) == raw["id"]
    ensures !Truthy(Get(raw, "_id")) && !Truthy(Get(raw, "id")) ==> IdOf(raw) == Str("")
    ensures Field(raw, "email") == (if Truthy(Get(raw, "email")) then raw["email"] else Str(""))
    ensures Field(raw, "phone") == (if Truthy(Get(raw, "phone")) then raw["phone"] else Get(raw, "phoneNumber"))
  {
  }

  /** The normalised name is `name`, else `fullName`, else the trimmed
      first and last name, else `'Unknown'`; it is never falsy, so a user
      record without a `name` key always ends up with a non-empty name. */
  lemma NameFallback(raw: Record)
    ensures Truthy(NameOf(raw))
    ensures Truthy(Get(raw, "name")) ==> NameOf(raw) == raw["name"]
    ensures !Truthy(Get(raw, "name")) && Truthy(Get(raw, "fullName")) ==> NameOf(raw) == raw["fullName"]
    ensures !Truthy(Get(raw, "name")) && !Truthy(Get(raw, "fullName")) ==>
              NameOf(raw) == (if JoinedName(raw) != "" then Str(JoinedName(raw)) else Str("Unknown"))
    ensures "name" !in raw ==> Truthy(NormalizeUser(raw)["name"])
  {
    assert Field(raw, "name") == NameOf(raw);
  }

  /** The fallback joins the two parts with one space and trims the
      result: a record with no usable `name` or `fullName` but a first and
      a last name gets them joined by one space. */
  lemma NameFromParts(raw: Record, first: string, last: string)
    requires !Truthy(Get(raw, "name")) && !Truthy(Get(raw, "fullName"))
    requires Get(raw, "firstName") == Str(first) && first != "" && !IsSpace(first[0])
    requires Get(raw, "lastName") == Str(last) && last != "" && !IsSpace(last[|last| - 1])
    ensures NameOf(raw) == Str(first + " " + last)
  {
    var s := first + " " + last;
    assert s[0] == first[0] && s[|s| - 1] == last[|last| - 1];
    TrimUnchanged(s);
    PartsJoined(raw, first, last);
    NameOfJoined(raw);
  }

  lemma PartsJoined(raw: Record, first: string, last: string)
    requires Get(raw, "firstName") == Str(first) && first != ""
    requires Get(raw, "lastName") == Str(last) && last != ""
    ensures JoinedName(raw) == Trim(first + " " + last)
  {
    assert Or(Get(raw, "firstName"), Str("")) == Str(first);
    assert Or(Get(raw, "lastName"), Str("")) == Str(last);
  }

  lemma NameOfJoined(raw: Record)
    requires !Truthy(Get(raw, "name")) && !Truthy(Get(raw, "fullName")) && JoinedName(raw) != ""
    ensures NameOf(raw) == Str(JoinedName(raw))
  {
    var j := Str(JoinedName(raw));
    assert Truthy(j);
    var tail := Or(j, Str("Unknown"));
    assert tail == j;
    assert Or(Get(raw, "fullName"), tail) == j;
  }

  lemma TrimUnchanged(s: string)
    requires s != [] && !IsSpace(s[0]) && !IsSpace(s[|s| - 1])
    ensures Trim(s) == s
  {
    assert TrimStart(s) == s;
  }

  /** A record with no name parts at all is called `'Unknown'`. */
  lemma NameUnknown()
    ensures NameOf(map[]) == Str("Unknown")
  {
    var none: Record := map[];
    assert ToString(Or(Get(none, "firstName"), Str(""))) == "";
    assert "" + " " + "" == " ";
    assert AllSpace(" ");
    TrimBlank(" ");
  }

  /** An empty-string `photo` is kept, because the test is on the type. */
  lemma EmptyPhotoKept()
    ensures PhotoOf(map["photo" := Str(""), "avatar" := Str("a.png")]) == Str("")
  {
  }

  /** `status` defaults to `'active'`, but `active` is the raw boolean, or
      else whether the raw `status` is `'active'`: a raw record with neither
      field comes out `status: 'active'` and `active: false`. */
  lemma StatusAndActive(raw: Record)
    ensures StatusOf(raw) == (if Truthy(Get(raw, "status")) then raw["status"] else Str("active"))
    ensures Get(raw, "active").Bool? ==> ActiveOf(raw) == raw["active"]
    ensures !Get(raw, "active").Bool? ==> ActiveOf(raw) == Bool(Get(raw, "status") == Str("active"))
    ensures "status" !in raw && "active" !in raw ==>
              NormalizeUser(raw)["status"] == Str("active") && NormalizeUser(raw)["active"] == Bool(false)
  {
    assert Field(raw, "status") == StatusOf(raw);
    assert Field(raw, "active") == ActiveOf(raw);
  }

  /** A raw key wins over the normalised value even when it is falsy: a
      record whose `name` is `''` keeps the empty name although a
      `fullName` is present. */
  lemma RawKeyWins()
    ensures NormalizeUser(map["name" := Str(""), "fullName" := Str("Ada")])["name"] == Str("")
    ensures NameOf(map["name" := Str(""), "fullName" := Str("Ada")]) == Str("Ada")
  {
  }

  /** `search && search.trim()`. */
  predicate HasSearch(search: Option<string>) {
    search.Some? && search.value != "" && Trim(search.value) != ""
  }

  /** `getUsers`'s request parameters, filled one by one; `page` and `limit`
      default to 1 and 10 when not given. */
  method UserParams(page: Option<int>, limit: Option<int>, search: Option<string>) returns (params: Record)
    ensures params.Keys == {"role", "page", "limit"} + (if HasSearch(search) then {"searchFields", "search"} else {})
    ensures "role" in params && "page" in params && "limit" in params
    ensures params["role"] == Str("consultant")
    ensures params["page"] == Num(page.GetOr(1)) && params["limit"] == Num(limit.GetOr(10))
    ensures HasSearch(search) ==>
              params["searchFields"] == Str("name,email") && params["search"] == Str(Trim(search.value))
  {
    var p := page.GetOr(1);
    var l := limit.GetOr(10);
    params := map[];
    params := params["role" := Str("consultant")];
    params := params["page" := Num(p)];
    params := params["limit" := Num(l)];
    if search.Some? && search.value != "" && Trim(search.value) != "" {
      params := params["searchFields" := Str("name,email")];
      params := params["search" := Str(Trim(search.value))];
    }
  }

  /** A blank search is the same as no search: whitespace-only text sends
      no search parameters. */
  lemma BlankSearchSendsNone(search: string)
    ensures AllSpace(search) <==> !HasSearch(Some(search))
  {
    TrimBlank(search);
  }

  /** What `response.data.data` held. */
  datatype UsersPayload =
    /** Missing or null. */
    | NoPayload
    /** A bare array of users. */
    | UserList(users: seq<Record>)
    /** An object: its `data` array if that is present and truthy, and its
        `meta` object (an empty record when missing). */
    | UserPage(rows: Option<seq<Record>>, meta: Record)

  datatype UserSearchResponse = UserSearchResponse(users: seq<Record>, total: JsValue, page: JsValue, limit: JsValue)

  /** `rawUsers.map(normalizeUser)`. */
  function NormalizeAll(rows: seq<Record>): (r: seq<Record>)
    ensures |r| == |rows|
    ensures forall i :: 0 <= i < |r| ==> r[i] == NormalizeUser(rows[i])
  {
    if rows == [] then [] else [NormalizeUser(rows[0])] + NormalizeAll(rows[1..])
  }

  /** The rows `data.data?.data || data.data || []`; `None` when that is an
      object without a `data` array, on which `.map` throws. */
  function RawUsers(payload: UsersPayload): Option<seq<Record>> {
    match payload
    case NoPayload => Some([])
    case UserList(users) => Some(users)
    case UserPage(rows, _) => rows
  }

  /** `data.data?.meta || {}`. */
  function MetaOf(payload: UsersPayload): Record {
    if payload.UserPage? then payload.meta else map[]
  }

  /** The mapping of a reply to a page of users; `Err` carries the thrown
      error, which `getUsers` rethrows. */
  function MapUsersResponse(payload: UsersPayload, page: int, limit: int): (r: Result<UserSearchResponse, string>)
    ensures r.Ok? <==> RawUsers(payload).Some?
    ensures r.Ok? ==> r.value.users == NormalizeAll(RawUsers(payload).value)
    ensures r.Ok? ==> (r.value.total ==
              (if Truthy(Get(MetaOf(payload), "totalCount")) then MetaOf(payload)["totalCount"]
               else if Truthy(Get(MetaOf(payload), "results")) then MetaOf(payload)["results"]
               else Num(0)))
    ensures r.Ok? ==> (r.value.page ==
              (if Truthy(Get(MetaOf(payload), "currentPage")) then MetaOf(payload)["currentPage"] else Num(page)))
    ensures r.Ok? ==> (r.value.limit ==
              (if Truthy(Get(MetaOf(payload), "limit")) then MetaOf(payload)["limit"] else Num(limit)))
  {
    match RawUsers(payload)
    case None => Err("rawUsers.map is not a function")
    case Some(rows) =>
      var meta := MetaOf(payload);
      Ok(UserSearchResponse(
        NormalizeAll(rows),
        Or(Get(meta, "totalCount"), Or(Get(meta, "results"), Num(0))),
        Or(Get(meta, "currentPage"), Num(page)),
        Or(Get(meta, "limit"), Num(limit))))
  }

  /** `userAPI.getUsers`: the parameters it sends and what it returns for the
      server's reply (`Err` when the request failed: the error is rethrown). */
  method GetUsers(page: Option<int>, limit: Option<int>, search: Option<string>,
                  reply: Result<UsersPayload, string>)
    returns (params: Record, result: Result<UserSearchResponse, string>)
    ensures params.Keys == {"role", "page", "limit"} + (if HasSearch(search) then {"searchFields", "search"} else {})
    ensures "role" in params && "page" in params && "limit" in params
    ensures params["role"] == Str("consultant")
    ensures params["page"] == Num(page.GetOr(1)) && params["limit"] == Num(limit.GetOr(10))
    ensures HasSearch(search) ==>
              params["searchFields"] == Str("name,email") && params["search"] == Str(Trim(search.value))
    ensures reply.Err? ==> result == Err(reply.error)
    ensures reply.Ok? ==> result == MapUsersResponse(reply.value, page.GetOr(1), limit.GetOr(10))
  {
    params := UserParams(page, limit, search);
    match reply
    case Err(e) =>
      result := Err(e);
    case Ok(payload) =>
      result := MapUsersResponse(payload, page.GetOr(1), limit.GetOr(10));
  }

  /** The `consultantAPI` view of a users page: the same fields plus
      `consultants`, equal to `users`. */
  datatype ConsultantSearchResponse = ConsultantSearchResponse(response: UserSearchResponse, consultants: seq<Record>)

  function WithConsultants(r: Result<UserSearchResponse, string>): (c: Result<ConsultantSearchResponse, string>)
    ensures c.Ok? <==> r.Ok?
    ensures c.Ok? ==> c.value.response == r.value && c.value.consultants == r.value.users
    ensures c.Err? ==> c.error == r.error
  {
    match r
    case Ok(v) => Ok(ConsultantSearchResponse(v, v.users))
    case Err(e) => Err(e)
  }

  /** `consultantAPI.searchConsultants(query, page = 1, limit = 10)`: a
      `getUsers` call with the query as the search. */
  method SearchConsultants(query: string, page: Option<int>, limit: Option<int>,
                           reply: Result<UsersPayload, string>)
    returns (params: Record, result: Result<ConsultantSearchResponse, string>)
    ensures params.Keys == {"role", "page", "limit"} + (if HasSearch(Some(query)) then {"searchFields", "search"} else {})
    ensures "role" in params && "page" in params && "limit" in params
    ensures params["role"] == Str("consultant")
    ensures params["page"] == Num(page.GetOr(1)) && params["limit"] == Num(limit.GetOr(10))
    ensures HasSearch(Some(query)) ==>
              params["searchFields"] == Str("name,email") && params["search"] == Str(Trim(query))
    ensures reply.Err? ==> result == Err(reply.error)
    ensures reply.Ok? ==> result == WithConsultants(MapUsersResponse(reply.value, page.GetOr(1), limit.GetOr(10)))
  {
    var users;
    params, users := GetUsers(page, limit, Some(query), reply);
    result := WithConsultants(users);
  }

  /** `consultantAPI.getAllConsultants(page = 1, limit = 50)`: no search, and
      a larger default page. */
  method GetAllConsultants(page: Option<int>, limit: Option<int>, reply: Result<UsersPayload, string>)
    returns (params: Record, result: Result<ConsultantSearchResponse, string>)
    ensures params.Keys == {"role", "page", "limit"}
    ensures params["role"] == Str("consultant")
    ensures params["page"] == Num(page.GetOr(1)) && params["limit"] == Num(limit.GetOr(50))
    ensures reply.Err? ==> result == Err(reply.error)
    ensures reply.Ok? ==> result == WithConsultants(MapUsersResponse(reply.value, page.GetOr(1), limit.GetOr(50)))
  {
    var users;
    params, users := GetUsers(page, Some(limit.GetOr(50)), None, reply);
    result := WithConsultants(users);
  }
}
