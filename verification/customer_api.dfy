/** The customer list request of `customerAPI`: the query string that
    `getCustomers` appends to, and the defaults it and the delete and
    renewal-alert helpers fill into the server's reply. The HTTP calls are
    inputs (their reply, or the error they threw), and so is
    `encodeURIComponent`, passed in as `enc`. */
module CustomerApi {
  import opened Wrappers
  import opened Text
  import opened Js

  /** `text && text.trim()`: given, non-empty and not only white space. */
  predicate HasText(text: Option<string>) {
    text.Some? && text.value != "" && Trim(text.value) != ""
  }

  /** The part every query starts with. */
  function QueryPrefix(page: int, limit: int): string {
    "?page=" + IntToString(page) + "&limit=" + IntToString(limit)
  }

  const SearchKey := "&searchFields=name,email&search="
  const ConsultantKey := "&internalConsultant="

  /** An optional query fragment: `key` followed by the encoded, trimmed
      text, and nothing at all when there is no text. */
  function Fragment(key: string, text: Option<string>, enc: string -> string): (r: string)
    requires key != ""
    ensures r == "" <==> !HasText(text)
    ensures HasText(text) ==> StartsWith(r, key) && r[|key|..] == enc(Trim(text.value))
  {
    if HasText(text) then key + enc(Trim(text.value)) else ""
  }

  /** The search fragment. */
  function SearchPart(search: Option<string>, enc: string -> string): string {
    Fragment(SearchKey, search, enc)
  }

  /** The consultant filter fragment. */
  function ConsultantPart(consultant: Option<string>, enc: string -> string): string {
    Fragment(ConsultantKey, consultant, enc)
  }

  /** `getCustomers`'s query string, built with `+=` appends; `page` and
      `limit` default to 1 and 10. */
  method CustomerQuery(page: Option<int>, limit: Option<int>, search: Option<string>,
                       consultant: Option<string>, enc: string -> string)
    returns (query: string)
    ensures query == QueryPrefix(page.GetOr(1), limit.GetOr(10)) + SearchPart(search, enc) + ConsultantPart(consultant, enc)
    ensures StartsWith(query, QueryPrefix(page.GetOr(1), limit.GetOr(10)))
    ensures !HasText(search) && !HasText(consultant) ==> query == QueryPrefix(page.GetOr(1), limit.GetOr(10))
  {
    var p := page.GetOr(1);
    var l := limit.GetOr(10);
    ghost var prefix := QueryPrefix(p, l);
    ghost var sp := SearchPart(search, enc);
    ghost var cp := ConsultantPart(consultant, enc);
    query := QueryPrefix(p, l);
    if HasText(search) {
      query := query + (SearchKey + enc(Trim(search.value)));
    }
    assert query == prefix + sp;
    if HasText(consultant) {
      query := query + (ConsultantKey + enc(Trim(consultant.value)));
    }
    assert query == prefix + sp + cp;
    PrefixOfAppend(prefix, sp, cp);
  }

  lemma PrefixOfAppend(a: string, b: string, c: string)
    ensures StartsWith(a + b + c, a)
  {
    assert (a + b + c)[..|a|] == a;
  }

  /** Whitespace-only search text is the same as none; a given search is
      trimmed before it is encoded. */
  lemma SearchPartTrims(text: string, enc: string -> string)
    ensures AllSpace(text) ==> SearchPart(Some(text), enc) == SearchPart(None, enc)
    ensures !AllSpace(text) ==>
              SearchPart(Some(text), enc) == SearchKey + enc(Trim(text))
    ensures !AllSpace(text) ==> SearchPart(Some(text), enc) == SearchPart(Some(Trim(text)), enc)
  {
    TrimBlank(text);
    TrimIdempotent(text);
    if !AllSpace(text) {
      var t := Trim(text);
      assert HasText(Some(text)) && HasText(Some(t));
      assert SearchPart(Some(text), enc) == SearchKey + enc(t);
      assert SearchPart(Some(t), enc) == SearchKey + enc(Trim(t));
    }
  }

  /** Trimming twice is trimming once. */
  lemma TrimIdempotent(text: string)
    ensures Trim(Trim(text)) == Trim(text)
  {
    var t := Trim(text);
    TrimEnds(text);
    if t != [] {
      assert TrimStart(t) == t;
      assert TrimEnd(t) == t;
    }
  }

  /** What `baseCustomerAPI.getAll` resolved to: its `status` and `message`
      fields, its `data` (the customers), the length of `data.data` (`None`
      when reading it throws), and its `meta` object if present. */
  datatype CustomerListReply = CustomerListReply(
    status: JsValue, message: JsValue, data: JsValue, dataLength: Option<int>, meta: Option<Record>)

  datatype CustomerPage = CustomerPage(
    status: JsValue, message: JsValue, customers: JsValue, total: JsValue, page: JsValue, limit: JsValue)

  /** `response.meta?.<key>`. */
  function MetaField(meta: Option<Record>, key: string): JsValue {
    if meta.Some? then Get(meta.value, key) else Undefined
  }

  /** The mapping of the reply; `Err` when `response.data.data.length` had
      to be read and could not be. */
  function MapCustomers(reply: CustomerListReply, page: int, limit: int): (r: Result<CustomerPage, string>)
    ensures r.Err? <==> !Truthy(MetaField(reply.meta, "totalCount")) && reply.dataLength.None?
    ensures r.Ok? ==> Truthy(r.value.status) && Truthy(r.value.message)
    ensures r.Ok? ==> r.value.status == (if Truthy(reply.status) then reply.status else Num(200))
    ensures r.Ok? ==> (r.value.message ==
              (if Truthy(reply.message) then reply.message else Str("Customers fetched successfully")))
    ensures r.Ok? ==> r.value.customers == reply.data
    ensures r.Ok? ==> (r.value.total ==
              (if Truthy(MetaField(reply.meta, "totalCount")) then MetaField(reply.meta, "totalCount")
               else Num(reply.dataLength.value)))
    ensures r.Ok? ==> (r.value.page ==
              (if Truthy(MetaField(reply.meta, "currentPage")) then MetaField(reply.meta, "currentPage") else Num(page)))
    ensures r.Ok? ==> (r.value.limit ==
              (if Truthy(MetaField(reply.meta, "limit")) then MetaField(reply.meta, "limit") else Num(limit)))
  {
    var total := MetaField(reply.meta, "totalCount");
    if !Truthy(total) && reply.dataLength.None? then Err("Cannot read properties of undefined (reading 'length')")
    else
      Ok(CustomerPage(
        Or(reply.status, Num(200)),
        Or(reply.message, Str("Customers fetched successfully")),
        reply.data,
        if Truthy(total) then total else Num(reply.dataLength.value),
        Or(MetaField(reply.meta, "currentPage"), Num(page)),
        Or(MetaField(reply.meta, "limit"), Num(limit))))
  }

  /** `customerAPI.getCustomers`: the query it sends and what it returns
      for the reply (`Err` when the request failed: the error is rethrown). */
  method GetCustomers(page: Option<int>, limit: Option<int>, search: Option<string>,
                      consultant: Option<string>, enc: string -> string,
                      reply: Result<CustomerListReply, string>)
    returns (query: string, result: Result<CustomerPage, string>)
    ensures query == QueryPrefix(page.GetOr(1), limit.GetOr(10)) + SearchPart(search, enc) + ConsultantPart(consultant, enc)
    ensures reply.Err? ==> result == Err(reply.error)
    ensures reply.Ok? ==> result == MapCustomers(reply.value, page.GetOr(1), limit.GetOr(10))
  {
    query := CustomerQuery(page, limit, search, consultant, enc);
    match reply
    case Err(e) =>
      result := Err(e);
    case Ok(r) =>
      result := MapCustomers(r, page.GetOr(1), limit.GetOr(10));
  }

  datatype StatusMessage = StatusMessage(status: JsValue, message: JsValue)

  /** `deleteCustomer`'s result: the reply's status, else 200, and its
      message, else the fixed success text. */
  function DeleteCustomerResult(status: JsValue, message: JsValue): (r: StatusMessage)
    ensures Truthy(r.status) && Truthy(r.message)
    ensures Truthy(status) ==> r.status == status
    ensures !Truthy(status) ==> r.status == Num(200)
    ensures Truthy(message) ==> r.message == message
    ensures !Truthy(message) ==> r.message == Str("Customer deleted successfully")
  {
    StatusMessage(Or(status, Num(200)), Or(message, Str("Customer deleted successfully")))
  }

  /** `sendRenewSubscriptionAlert`'s result: `response.data?.message`, else
      the fixed text, and the status, else 200. */
  function RenewAlertResult(status: JsValue, data: Option<Record>): (r: StatusMessage)
    ensures Truthy(r.status) && Truthy(r.message)
    ensures Truthy(status) ==> r.status == status
    ensures !Truthy(status) ==> r.status == Num(200)
    ensures data.Some? && Truthy(Get(data.value, "message")) ==> r.message == data.value["message"]
    ensures data.None? || !Truthy(Get(data.value, "message")) ==> r.message == Str("Alert sent successfully")
  {
    var serverMessage := if data.Some? then Get(data.value, "message") else Undefined;
    StatusMessage(Or(status, Num(200)), Or(serverMessage, Str("Alert sent successfully")))
  }
}
