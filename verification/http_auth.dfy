/** The request and response interceptors of the shared HTTP client: where
    the bearer token comes from (the stored `auth_token`, else the auth
    cookie in `document.cookie`) and how it lands in the `Authorization`
    header. The stored value, the cookie string, whether a `document`
    exists and the cookie's name are inputs. */
module HttpAuth {
  import opened Wrappers
  import opened Text

  /** `if (token)` on a string that may be missing. */
  predicate Present(token: Option<string>) {
    token.Some? && token.value != ""
  }

  /** The first entry that starts with `name` (`Array.prototype.find`). */
  function FirstMatch(entries: seq<string>, name: string): (r: Option<nat>)
    ensures r.Some? ==> r.value < |entries| && StartsWith(entries[r.value], name) &&
                        forall j :: 0 <= j < r.value ==> !StartsWith(entries[j], name)
    ensures r.None? ==> forall j :: 0 <= j < |entries| ==> !StartsWith(entries[j], name)
  {
    if entries == [] then None
    else if StartsWith(entries[0], name) then Some(0)
    else
      match FirstMatch(entries[1..], name)
      case None => None
      case Some(i) => Some(i + 1)
  }

  /** `entry.split('=')[1]`: `None` (undefined) when the entry has no `=`. */
  function ValueOf(entry: string): (r: Option<string>)
    ensures r.None? <==> !Contains(entry, "=")
  {
    var parts := Split(entry, "=");
    if |parts| > 1 then Some(parts[1]) else None
  }

  /** `document.cookie.split('; ').find(row => row.startsWith(name))?.split('=')[1]`. */
  function CookieToken(cookie: string, name: string): Option<string> {
    var entries := Split(cookie, "; ");
    match FirstMatch(entries, name)
    case None => None
    case Some(i) => ValueOf(entries[i])
  }

  /** `v` is the text between the first `=` of `entry` and the next `=`
      (or the end): the part before it and `v` itself hold no `=`. */
  ghost predicate BetweenEquals(entry: string, v: string) {
    exists i :: 0 <= i && i + 1 + |v| <= |entry| &&
      entry[i] == '=' && !Contains(entry[..i], "=") &&
      entry[i + 1..i + 1 + |v|] == v && !Contains(v, "=") &&
      (i + 1 + |v| == |entry| || entry[i + 1 + |v|] == '=')
  }

  /** The value read from an entry is the text between its first and its
      second `=` (or its end). */
  lemma ValueBetweenEquals(entry: string)
    requires ValueOf(entry).Some?
    ensures BetweenEquals(entry, ValueOf(entry).value)
  {
    var v := ValueOf(entry).value;
    var name, rest := ValueParts(entry);
    var i := |name|;
    assert entry[..i] == name;
    assert entry[i] == '=';
    assert entry[i + 1..i + 1 + |v|] == v;
    assert rest != "" ==> entry[i + 1 + |v|] == rest[0] == '=';
  }

  lemma ValueParts(entry: string) returns (name: string, rest: string)
    requires ValueOf(entry).Some?
    ensures entry == name + "=" + ValueOf(entry).value + rest
    ensures !Contains(name, "=") && !Contains(ValueOf(entry).value, "=")
    ensures rest == "" || StartsWith(rest, "=")
  {
    var i := SplitAtFirst(entry, "=");
    var after := entry[i + 1..];
    name := entry[..i];
    var v := Split(after, "=")[0];
    assert ValueOf(entry).value == v;
    rest := FirstPiece(after, "=");
    JoinAround(entry, i, v, rest);
  }

  /** Cutting a text at a one-character separator at `i`, when the text
      after it is `v + rest`. */
  lemma JoinAround(entry: string, i: nat, v: string, rest: string)
    requires i < |entry| && entry[i] == '=' && entry[i + 1..] == v + rest
    ensures entry == entry[..i] + "=" + v + rest
  {
    assert entry == entry[..i] + [entry[i]] + entry[i + 1..];
  }

  /** A text that splits into several pieces has a first separator: the
      first piece is the text before it and holds no separator. */
  lemma SplitAtFirst(s: string, sep: string) returns (i: nat)
    requires |sep| > 0 && |Split(s, sep)| > 1
    ensures i + |sep| <= |s| && s[i..i + |sep|] == sep
    ensures !Contains(s[..i], sep)
    ensures Split(s, sep) == [s[..i]] + Split(s[i + |sep|..], sep)
  {
    var found := IndexOf(s, sep);
    assert found.Some?;
    i := found.value;
    NoSepBeforeFirst(s, sep, i);
  }

  /** The first piece of a split is the text before the first separator:
      it holds no separator, and what follows it is empty or starts with
      the separator. */
  lemma FirstPiece(s: string, sep: string) returns (rest: string)
    requires |sep| > 0
    ensures s == Split(s, sep)[0] + rest
    ensures !Contains(Split(s, sep)[0], sep)
    ensures rest == "" || StartsWith(rest, sep)
  {
    if IndexOf(s, sep).None? {
      NoSepBeforeFirst(s, sep, |s|);
      assert s[..|s|] == s;
      rest := "";
    } else {
      var i := IndexOf(s, sep).value;
      NoSepBeforeFirst(s, sep, i);
      rest := s[i..];
      assert s == s[..i] + rest;
      assert rest[..|sep|] == s[i..i + |sep|];
    }
  }

  /** `Split` of a text without the separator is the text alone, and a
      text with it splits into at least two pieces. */
  lemma SplitCount(s: string, sep: string)
    requires |sep| > 0
    ensures |Split(s, sep)| > 1 <==> Contains(s, sep)
  {
    if IndexOf(s, sep).Some? {
      assert OccursAt(s, sep, IndexOf(s, sep).value);
    }
  }

  /** The cookie that supplies the token is the first `; `-separated entry
      starting with `name`: none matching gives no token; otherwise there is
      a token exactly when that entry holds `=`, and it is the text between
      the entry's first `=` and the next one (or the entry's end). */
  lemma CookieTokenSource(cookie: string, name: string)
    ensures (forall j :: 0 <= j < |Split(cookie, "; ")| ==> !StartsWith(Split(cookie, "; ")[j], name))
              ==> CookieToken(cookie, name).None?
    ensures var entries := Split(cookie, "; ");
            forall k :: 0 <= k < |entries| && StartsWith(entries[k], name) &&
                        (forall j :: 0 <= j < k ==> !StartsWith(entries[j], name)) ==>
              (CookieToken(cookie, name).Some? <==> Contains(entries[k], "=")) &&
              (CookieToken(cookie, name).Some? ==> BetweenEquals(entries[k], CookieToken(cookie, name).value))
  {
    var entries := Split(cookie, "; ");
    var m := FirstMatch(entries, name);
    if m.Some? && ValueOf(entries[m.value]).Some? {
      ValueBetweenEquals(entries[m.value]);
    }
  }

  /** The prefix test also matches an entry whose name merely begins with
      the cookie's name (`extra` non-empty), when it comes first. */
  lemma LongerNameMatches(name: string, extra: string, v: string, later: string)
    requires ';' !in name + extra + "=" + v
    requires '=' !in name + extra && '=' !in v
    ensures CookieToken(name + extra + "=" + v + "; " + later, name) == Some(v)
  {
    var entry := name + extra + "=" + v;
    SplitAround(entry, "; ", later);
    assert entry[..|name|] == name;
    SplitAround(name + extra, "=", v);
    SplitWhole(v, "=");
  }

  /** A value holding `=` is cut at it: only the text up to the second `=`
      is read. */
  lemma ValueCutAtEquals(name: string, v: string, w: string)
    requires ';' !in name + "=" + v + "=" + w
    requires '=' !in name && '=' !in v
    ensures CookieToken(name + "=" + v + "=" + w, name) == Some(v)
  {
    var entry := name + "=" + v + "=" + w;
    SplitWhole(entry, "; ");
    assert entry[..|name|] == name;
    assert entry == name + "=" + (v + "=" + w);
    SplitAround(name, "=", v + "=" + w);
    SplitAround(v, "=", w);
  }

  /** A text in which the separator's first character never occurs does
      not split. */
  lemma SplitWhole(a: string, sep: string)
    requires |sep| > 0 && sep[0] !in a
    ensures Split(a, sep) == [a]
  {
  }

  /** Splitting `a + sep + b`, where `a` never holds the separator's first
      character, cuts right after `a`. */
  lemma SplitAround(a: string, sep: string, b: string)
    requires |sep| > 0 && sep[0] !in a
    ensures Split(a + sep + b, sep) == [a] + Split(b, sep)
  {
    var s := a + sep + b;
    assert OccursAt(s, sep, |a|);
    assert IndexOf(s, sep) == Some(|a|);
    assert s[..|a|] == a;
    assert s[|a| + |sep|..] == b;
  }

  /** The token the interceptor settles on: the stored one when present;
      otherwise, in a browser, the cookie's; otherwise the missing stored
      value. */
  function SelectToken(stored: Option<string>, hasDocument: bool, cookie: string, cookieName: string): Option<string> {
    if !Present(stored) && hasDocument then CookieToken(cookie, cookieName) else stored
  }

  /** A stored token wins and the cookie is never consulted; the cookie is
      read only when there is no stored token and a `document` exists. */
  lemma TokenPriority(stored: Option<string>, hasDocument: bool, cookie: string, other: string, cookieName: string)
    ensures Present(stored) ==> SelectToken(stored, hasDocument, cookie, cookieName) == stored
    ensures Present(stored) || !hasDocument ==>
              SelectToken(stored, hasDocument, cookie, cookieName) == SelectToken(stored, hasDocument, other, cookieName)
    ensures !Present(stored) && hasDocument ==>
              SelectToken(stored, hasDocument, cookie, cookieName) == CookieToken(cookie, cookieName)
    ensures !Present(stored) && !hasDocument ==> !Present(SelectToken(stored, hasDocument, cookie, cookieName))
  {
  }

  /** The request configuration the interceptor receives and returns. */
  class RequestConfig {
    var headers: map<string, string>

    constructor (headers: map<string, string>)
      ensures this.headers == headers
    {
      this.headers := headers;
    }

    /** The request interceptor: pick the token, set `Authorization` to
        `Bearer <token>` when it is present, and hand the same config on. */
    method Intercept(stored: Option<string>, hasDocument: bool, cookie: string, cookieName: string)
      returns (sent: RequestConfig)
      modifies this
      ensures sent == this
      ensures var token := SelectToken(stored, hasDocument, cookie, cookieName);
              headers == if Present(token) then old(headers)["Authorization" := "Bearer " + token.value]
                         else old(headers)
    {
      var token := stored;
      if !Present(token) && hasDocument {
        token := CookieToken(cookie, cookieName);
      }
      if Present(token) {
        headers := headers["Authorization" := "Bearer " + token.value];
      }
      sent := this;
    }
  }

  /** Both error handlers reject with the error they got, and the response
      handler passes a successful response on unchanged: an outcome goes
      through the interceptors as it came (a 401 included). */
  function PassThrough<R, E>(outcome: Result<R, E>): (r: Result<R, E>)
    ensures r.Ok? <==> outcome.Ok?
    ensures r.Ok? ==> r.value == outcome.value
    ensures r.Err? ==> r.error == outcome.error
  {
    match outcome
    case Ok(v) => Ok(v)
    case Err(e) => Err(e)
  }
}
