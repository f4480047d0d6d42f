/** `URLSearchParams` as the ordered list of name/value pairs it is, with
    the operations the dashboard calls: `append`, `set`, `delete` and `get`
    (section 6.2 of the WHATWG URL Standard). Percent-encoding of the
    serialised query string is not modelled. */
module SearchParams {
  import opened Optional

  type Params = seq<(string, string)>

  /** `get`: the value of the first pair with the name, or null. */
  function Get(p: Params, name: string): (r: Option<string>)
    ensures r.None? <==> forall i | 0 <= i < |p| :: p[i].0 != name
    ensures r.Some? ==> exists i | 0 <= i < |p| :: p[i] == (name, r.value)
  {
    if p == [] then None
    else if p[0].0 == name then Some(p[0].1)
    else
      var r := Get(p[1..], name);
      assert r.Some? ==> exists i | 0 <= i < |p[1..]| :: p[1..][i] == (name, r.value);
      r
  }

  predicate Has(p: Params, name: string) {
    Get(p, name).Some?
  }

  /** `append`: a new pair at the end; a name already present keeps its
      first value. */
  function Append(p: Params, name: string, value: string): (r: Params)
    ensures Get(r, name) == if Has(p, name) then Get(p, name) else Some(value)
    ensures forall other | other != name :: Get(r, other) == Get(p, other)
  {
    GetOfAppend(p, name, value);
    p + [(name, value)]
  }

  /** A query of one parameter has that parameter's value. */
  lemma GetOfSingle(name: string, value: string)
    ensures Get([(name, value)], name) == Some(value)
  {
    assert [(name, value)][0] == (name, value);
  }

  lemma {:induction false} GetOfAppend(p: Params, name: string, value: string)
    ensures Get(p + [(name, value)], name) == if Has(p, name) then Get(p, name) else Some(value)
    ensures forall other | other != name :: Get(p + [(name, value)], other) == Get(p, other)
  {
    if p != [] {
      assert (p + [(name, value)])[1..] == p[1..] + [(name, value)];
      GetOfAppend(p[1..], name, value);
    }
  }

  /** `delete`: every pair with the name goes; the others stay in order. */
  function Delete(p: Params, name: string): (r: Params)
    ensures Get(r, name).None?
    ensures forall other | other != name :: Get(r, other) == Get(p, other)
    ensures |r| <= |p|
  {
    if p == [] then []
    else if p[0].0 == name then Delete(p[1..], name)
    else [p[0]] + Delete(p[1..], name)
  }

  /** `set`: the first pair with the name takes the value and later pairs
      with the name go; with no such pair, the pair is appended. */
  function Set(p: Params, name: string, value: string): (r: Params)
    ensures Get(r, name) == Some(value)
    ensures forall other | other != name :: Get(r, other) == Get(p, other)
    ensures Delete(r, name) == Delete(p, name)
  {
    if Has(p, name) then Replace(p, name, value)
    else
      DeleteOfAppend(p, name, value);
      Append(p, name, value)
  }

  function Replace(p: Params, name: string, value: string): (r: Params)
    requires Has(p, name)
    ensures Get(r, name) == Some(value)
    ensures forall other | other != name :: Get(r, other) == Get(p, other)
    ensures Delete(r, name) == Delete(p, name)
  {
    if p[0].0 == name then
      var r := [(name, value)] + Delete(p[1..], name);
      assert r[1..] == Delete(p[1..], name);
      DeleteTwice(p[1..], name);
      r
    else
      var r := [p[0]] + Replace(p[1..], name, value);
      assert r[1..] == Replace(p[1..], name, value);
      r
  }

  lemma {:induction false} DeleteOfAppend(p: Params, name: string, value: string)
    ensures Delete(p + [(name, value)], name) == Delete(p, name)
  {
    if p == [] {
      assert [(name, value)][1..] == [];
    } else {
      assert (p + [(name, value)])[1..] == p[1..] + [(name, value)];
      DeleteOfAppend(p[1..], name, value);
    }
  }

  /** Deleting a name twice is deleting it once. */
  lemma {:induction false} DeleteTwice(p: Params, name: string)
    ensures Delete(Delete(p, name), name) == Delete(p, name)
  {
    if p != [] {
      DeleteTwice(p[1..], name);
      if p[0].0 != name {
        assert Delete(p, name)[1..] == Delete(p[1..], name);
      }
    }
  }
}
