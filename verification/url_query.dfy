/** The query string of the current location as `URLSearchParams` holds it:
    an ordered list of name/value pairs in which a name may repeat. */
module UrlQuery {
  import opened Wrappers

  type Params = seq<(string, string)>

  /** `get(name)`: the value of the first pair with that name. */
  function Get(ps: Params, name: string): Option<string> {
    if ps == [] then None
    else if ps[0].0 == name then Some(ps[0].1)
    else Get(ps[1..], name)
  }

  /** The pairs with the given name, in order. */
  function Only(ps: Params, name: string): (r: Params)
    ensures forall i :: 0 <= i < |r| ==> r[i].0 == name
  {
    if ps == [] then []
    else (if ps[0].0 == name then [ps[0]] else []) + Only(ps[1..], name)
  }

  /** `delete(name)`: removes every pair with that name. */
  function Delete(ps: Params, name: string): (r: Params)
    ensures |r| <= |ps|
  {
    if ps == [] then []
    else (if ps[0].0 == name then [] else [ps[0]]) + Delete(ps[1..], name)
  }

  /** `set(name, value)`: the first pair with that name takes the value and
      later pairs with that name are removed; without such a pair the new
      pair is appended. */
  function Set(ps: Params, name: string, value: string): Params {
    if ps == [] then [(name, value)]
    else if ps[0].0 == name then [(name, value)] + Delete(ps[1..], name)
    else [ps[0]] + Set(ps[1..], name, value)
  }

  lemma {:induction false} OnlyAppend(a: Params, b: Params, name: string)
    ensures Only(a + b, name) == Only(a, name) + Only(b, name)
  {
    if a == [] {
      assert a + b == b;
    } else {
      assert (a + b)[0] == a[0];
      assert (a + b)[1..] == a[1..] + b;
      OnlyAppend(a[1..], b, name);
    }
  }

  lemma {:induction false} GetOnly(ps: Params, name: string)
    ensures Get(ps, name) == (if Only(ps, name) == [] then None else Some(Only(ps, name)[0].1))
  {
    if ps != [] { GetOnly(ps[1..], name); }
  }

  /** After `delete(name)` no pair has that name; pairs with any other name
      are kept, in order. */
  lemma {:induction false} DeleteSpec(ps: Params, name: string, other: string)
    ensures Only(Delete(ps, name), name) == []
    ensures other != name ==> Only(Delete(ps, name), other) == Only(ps, other)
  {
    if ps != [] {
      DeleteSpec(ps[1..], name, other);
      var head := if ps[0].0 == name then [] else [ps[0]];
      OnlyAppend(head, Delete(ps[1..], name), name);
      OnlyAppend(head, Delete(ps[1..], name), other);
    }
  }

  /** After `set(name, value)` exactly one pair has that name and it holds
      the value; pairs with any other name are kept, in order. */
  lemma {:induction false} SetSpec(ps: Params, name: string, value: string, other: string)
    ensures Only(Set(ps, name, value), name) == [(name, value)]
    ensures other != name ==> Only(Set(ps, name, value), other) == Only(ps, other)
  {
    if ps == [] {
    } else if ps[0].0 == name {
      DeleteSpec(ps[1..], name, other);
      OnlyAppend([(name, value)], Delete(ps[1..], name), name);
      OnlyAppend([(name, value)], Delete(ps[1..], name), other);
    } else {
      SetSpec(ps[1..], name, value, other);
      OnlyAppend([ps[0]], Set(ps[1..], name, value), name);
      OnlyAppend([ps[0]], Set(ps[1..], name, value), other);
    }
  }

  /** What `get` reads back after `set` and `delete`. */
  lemma GetAfterUpdate(ps: Params, name: string, value: string, other: string)
    ensures Get(Set(ps, name, value), name) == Some(value)
    ensures Get(Delete(ps, name), name) == None
    ensures other != name ==> Get(Set(ps, name, value), other) == Get(ps, other)
    ensures other != name ==> Get(Delete(ps, name), other) == Get(ps, other)
  {
    SetSpec(ps, name, value, other);
    DeleteSpec(ps, name, other);
    GetOnly(Set(ps, name, value), name);
    GetOnly(Delete(ps, name), name);
    GetOnly(Set(ps, name, value), other);
    GetOnly(Delete(ps, name), other);
    GetOnly(ps, other);
  }
}
