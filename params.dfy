/** `paramsFromRequest`: the closed-set check of a request's parameters.
    The body, the query string and the route parameters are merged, later
    sources winning; every required name must be present; optional names
    take their value or a default; any other name is an error. */
module Params {
  import opened Outcomes
  import opened JsStrings
  import opened JsValues

  /** `Object.assign({}, req.body, req.query, req.params)`. */
  function RawParams(body: JsValue, query: JsValue, params: JsValue): Props {
    Assign(Assign(Assign([], OwnEntries(body)), OwnEntries(query)), OwnEntries(params))
  }

  /** Later sources of a three-way `Object.assign` win. */
  lemma MergeGet(b: Props, q: Props, p: Props, k: string)
    requires DistinctKeys(b) && DistinctKeys(q) && DistinctKeys(p)
    ensures Get(Assign(Assign(Assign([], b), q), p), k)
            == if Has(p, k) then Get(p, k) else if Has(q, k) then Get(q, k) else Get(b, k)
  {
    AssignGet([], b, k);
    AssignGet(Assign([], b), q, k);
    AssignGet(Assign(Assign([], b), q), p, k);
  }

  /** The route parameters win over the query string, which wins over the
      body. */
  lemma RawParamsGet(body: JsValue, query: JsValue, params: JsValue, k: string)
    requires WellFormed(body) && WellFormed(query) && WellFormed(params)
    ensures Get(RawParams(body, query, params), k)
            == if Has(OwnEntries(params), k) then Get(OwnEntries(params), k)
               else if Has(OwnEntries(query), k) then Get(OwnEntries(query), k)
               else Get(OwnEntries(body), k)
  {
    OwnEntriesDistinct(body);
    OwnEntriesDistinct(query);
    OwnEntriesDistinct(params);
    MergeGet(OwnEntries(body), OwnEntries(query), OwnEntries(params), k);
  }

  /** A name is present in the merge exactly when one of the sources has
      it. */
  lemma RawParamsHas(body: JsValue, query: JsValue, params: JsValue, k: string)
    ensures Has(RawParams(body, query, params), k)
            <==> Has(OwnEntries(body), k) || Has(OwnEntries(query), k) || Has(OwnEntries(params), k)
  {
    var b := Assign([], OwnEntries(body));
    var bq := Assign(b, OwnEntries(query));
    AssignHas([], OwnEntries(body), k);
    AssignHas(b, OwnEntries(query), k);
    AssignHas(bq, OwnEntries(params), k);
  }

  /** The first required name missing from the merge, if any. */
  function FirstMissing(raw: Props, required: seq<string>): (r: Option<string>)
    ensures r.None? <==> forall i :: 0 <= i < |required| ==> Has(raw, required[i])
    ensures r.Some? ==> exists i :: 0 <= i < |required| && required[i] == r.value && !Has(raw, r.value)
                                    && forall j :: 0 <= j < i ==> Has(raw, required[j])
    decreases |required|
  {
    if required == [] then None
    else
      var init := required[..|required| - 1];
      var m := FirstMissing(raw, init);
      assert forall i :: 0 <= i < |init| ==> init[i] == required[i];
      if m.Some? then m
      else if !Has(raw, required[|required| - 1]) then Some(required[|required| - 1])
      else None
  }

  /** A name missing from a prefix is the first missing from the whole. */
  lemma {:induction false} FirstMissingPrefix(raw: Props, required: seq<string>, n: nat)
    requires n <= |required| && FirstMissing(raw, required[..n]).Some?
    ensures FirstMissing(raw, required) == FirstMissing(raw, required[..n])
    decreases |required|
  {
    if n < |required| {
      var init := required[..|required| - 1];
      assert init[..n] == required[..n];
      FirstMissingPrefix(raw, init, n);
    } else {
      assert required[..n] == required;
    }
  }

  /** The values of the required names. */
  function RequiredValues(raw: Props, ps: seq<string>): Props
    decreases |ps|
  {
    if ps == [] then []
    else
      var p := ps[|ps| - 1];
      Set(RequiredValues(raw, ps[..|ps| - 1]), p, Get(raw, p))
  }

  /** One optional entry: the request's value if it has the name, else the
      default unless that is `undefined`. */
  function OptionalStep(raw: Props, acc: Props, e: (string, JsValue)): Props {
    if Has(raw, e.0) then Set(acc, e.0, Get(raw, e.0))
    else if e.1 != Undefined then Set(acc, e.0, e.1)
    else acc
  }

  /** The optional entries, applied in order. */
  function ApplyOptional(raw: Props, es: Props, acc: Props): Props
    decreases |es|
  {
    if es == [] then acc
    else OptionalStep(raw, ApplyOptional(raw, es[..|es| - 1], acc), es[|es| - 1])
  }

  /** The entries of all the optional-name objects, in order. */
  function Flatten(ops: seq<Props>): Props
    decreases |ops|
  {
    if ops == [] then [] else Flatten(ops[..|ops| - 1]) + ops[|ops| - 1]
  }

  /** The last default for `k` that is not `undefined`. */
  function LastDefault(es: Props, k: string): (r: Option<JsValue>)
    ensures r.Some? ==> k in Keys(es) && r.value != Undefined
    decreases |es|
  {
    if es == [] then None
    else if es[|es| - 1].0 == k && es[|es| - 1].1 != Undefined then Some(es[|es| - 1].1)
    else
      var r := LastDefault(es[..|es| - 1], k);
      assert Keys(es[..|es| - 1]) == Keys(es)[..|es| - 1];
      r
  }

  /** The default found is the last one given for `k` that is not
      `undefined`, and there is none exactly when every default given for
      `k` is `undefined`. */
  lemma {:induction false} LastDefaultIsLast(es: Props, k: string)
    ensures LastDefault(es, k).None? <==> forall i :: 0 <= i < |es| && es[i].0 == k ==> es[i].1 == Undefined
    ensures LastDefault(es, k).Some? ==>
              exists i :: 0 <= i < |es| && es[i] == (k, LastDefault(es, k).value)
                          && forall j :: i < j < |es| && es[j].0 == k ==> es[j].1 == Undefined
    decreases |es|
  {
    if es != [] {
      var n := |es| - 1;
      var init := es[..n];
      if es[n].0 == k && es[n].1 != Undefined {
        assert es[n] == (k, LastDefault(es, k).value);
      } else {
        LastDefaultIsLast(init, k);
        assert LastDefault(es, k) == LastDefault(init, k);
        assert forall i :: 0 <= i < n ==> init[i] == es[i];
        if LastDefault(init, k).Some? {
          var i :| 0 <= i < n && init[i] == (k, LastDefault(init, k).value)
                   && forall j :: i < j < n && init[j].0 == k ==> init[j].1 == Undefined;
          assert es[i] == (k, LastDefault(es, k).value);
        }
      }
    }
  }

  /** The names in `ks`, in order, that `claimed` does not hold. */
  function Unclaimed(ks: seq<string>, claimed: set<string>): (r: seq<string>)
    ensures forall k :: k in r <==> k in ks && k !in claimed
  {
    if ks == [] then []
    else if ks[0] in claimed then Unclaimed(ks[1..], claimed)
    else [ks[0]] + Unclaimed(ks[1..], claimed)
  }

  /** The names of a list, as a set. */
  function NameSet(ns: seq<string>): set<string> {
    set k | k in ns
  }

  /** Every name the call knows about: the required ones and the keys of
      every optional-name object. */
  function Claimed(required: seq<string>, optional: seq<Props>): set<string> {
    NameSet(required + Keys(Flatten(optional)))
  }

  /** What `paramsFromRequest(req, required_props, optional_props)` returns
      for the merge `raw` of the request's parameters. */
  function ParamsOutcome(raw: Props, required: seq<string>, optional: seq<Props>): Answer<Props> {
    var missing := FirstMissing(raw, required);
    if missing.Some? then Err(Error(400, "Missing required property: " + missing.value))
    else
      var left := Unclaimed(Keys(raw), Claimed(required, optional));
      if left != [] then Err(Error(400, "Invalid properties received: " + Join(left, ',')))
      else Ok(ApplyOptional(raw, Flatten(optional), RequiredValues(raw, required)))
  }

  lemma FirstMissingIs(raw: Props, required: seq<string>, i: nat)
    requires i < |required| && !Has(raw, required[i]) && forall j :: 0 <= j < i ==> Has(raw, required[j])
    ensures FirstMissing(raw, required) == Some(required[i])
  {
    var r := FirstMissing(raw, required);
    var i' :| 0 <= i' < |required| && required[i'] == r.value && !Has(raw, r.value)
              && forall j :: 0 <= j < i' ==> Has(raw, required[j]);
    assert i' == i;
  }

  lemma {:induction false} UnclaimedNone(ks: seq<string>)
    ensures Unclaimed(ks, NameSet([])) == ks
  {
    if ks != [] {
      UnclaimedNone(ks[1..]);
    }
  }

  lemma {:induction false} WithoutUnclaimed(ks: seq<string>, claimed: set<string>, k: string)
    ensures Without(Unclaimed(ks, claimed), k) == Unclaimed(ks, claimed + {k})
  {
    if ks != [] {
      WithoutUnclaimed(ks[1..], claimed, k);
    }
  }

  /** Deleting one more name from the copy of the merge. */
  lemma ClaimStep(ks: seq<string>, ns: seq<string>, n: string)
    ensures Without(Unclaimed(ks, NameSet(ns)), n) == Unclaimed(ks, NameSet(ns + [n]))
  {
    WithoutUnclaimed(ks, NameSet(ns), n);
    assert NameSet(ns + [n]) == NameSet(ns) + {n};
  }

  /** Applying two runs of optional entries is applying them joined. */
  lemma {:induction false} ApplyOptionalAppend(raw: Props, es: Props, fs: Props, acc: Props)
    ensures ApplyOptional(raw, fs, ApplyOptional(raw, es, acc)) == ApplyOptional(raw, es + fs, acc)
    decreases |fs|
  {
    if fs != [] {
      var init := fs[..|fs| - 1];
      ApplyOptionalAppend(raw, es, init, acc);
      assert (es + fs)[..|es + fs| - 1] == es + init;
    } else {
      assert es + fs == es;
    }
  }

  /** One more required name, for the loop over `required_props`. */
  lemma RequiredPrefixStep(raw: Props, required: seq<string>, i: nat)
    requires i < |required|
    ensures required[..i + 1] == required[..i] + [required[i]]
    ensures RequiredValues(raw, required[..i + 1])
            == Set(RequiredValues(raw, required[..i]), required[i], Get(raw, required[i]))
    ensures FirstMissing(raw, required[..i]) == None
            ==> FirstMissing(raw, required[..i + 1]) == if Has(raw, required[i]) then None else Some(required[i])
  {
    assert required[..i + 1][..i] == required[..i];
  }

  /** One more optional entry, for the loop over an optional-name object. */
  lemma OptionalPrefixStep(raw: Props, op: Props, m: nat, acc: Props, ns: seq<string>)
    requires m < |op|
    ensures ApplyOptional(raw, op[..m + 1], acc) == OptionalStep(raw, ApplyOptional(raw, op[..m], acc), op[m])
    ensures ns + Keys(op[..m + 1]) == ns + Keys(op[..m]) + [op[m].0]
  {
    assert op[..m + 1][..m] == op[..m];
    KeysSnoc(op[..m + 1]);
  }

  /** One more optional-name object, for the loop over `optional_props`. */
  lemma FlattenPrefixStep(raw: Props, optional: seq<Props>, j: nat, acc: Props, ns: seq<string>)
    requires j < |optional|
    ensures Flatten(optional[..j + 1]) == Flatten(optional[..j]) + optional[j]
    ensures ns + Keys(Flatten(optional[..j + 1])) == ns + Keys(Flatten(optional[..j])) + Keys(optional[j])
    ensures ApplyOptional(raw, optional[j], ApplyOptional(raw, Flatten(optional[..j]), acc))
            == ApplyOptional(raw, Flatten(optional[..j + 1]), acc)
  {
    assert optional[..j + 1][..j] == optional[..j];
    KeysAppend(Flatten(optional[..j]), optional[j]);
    ApplyOptionalAppend(raw, Flatten(optional[..j]), optional[j], acc);
  }

  /** The loop over `required_props`: the first missing name, or the
      required values and the copy of the merge without those names. */
  method TakeRequired(raw: Props, required: seq<string>) returns (missing: Option<string>, out: Props, rest: Props)
    ensures missing == FirstMissing(raw, required)
    ensures missing.None? ==> out == RequiredValues(raw, required)
                              && Keys(rest) == Unclaimed(Keys(raw), NameSet(required))
  {
    rest := raw;
    out := [];
    UnclaimedNone(Keys(raw));
    var i := 0;
    while i < |required|
      invariant 0 <= i <= |required|
      invariant FirstMissing(raw, required[..i]) == None
      invariant out == RequiredValues(raw, required[..i])
      invariant Keys(rest) == Unclaimed(Keys(raw), NameSet(required[..i]))
    {
      var p := required[i];
      RequiredPrefixStep(raw, required, i);
      if !Has(raw, p) {
        FirstMissingPrefix(raw, required, i + 1);
        return Some(p), out, rest;
      }
      out := Set(out, p, Get(raw, p));
      rest := Delete(rest, p);
      ClaimStep(Keys(raw), required[..i], p);
      i := i + 1;
    }
    assert required[..i] == required;
    missing := None;
  }

  /** The loop over the keys of one optional-name object: each key is
      deleted from the copy of the merge and set from the request or its
      default. */
  method TakeOptionalObject(raw: Props, op: Props, out0: Props, rest0: Props, ghost ns: seq<string>)
    returns (out: Props, rest: Props)
    requires Keys(rest0) == Unclaimed(Keys(raw), NameSet(ns))
    ensures out == ApplyOptional(raw, op, out0)
    ensures Keys(rest) == Unclaimed(Keys(raw), NameSet(ns + Keys(op)))
  {
    out, rest := out0, rest0;
    var m := 0;
    assert ns + Keys(op[..0]) == ns;
    while m < |op|
      invariant 0 <= m <= |op|
      invariant out == ApplyOptional(raw, op[..m], out0)
      invariant Keys(rest) == Unclaimed(Keys(raw), NameSet(ns + Keys(op[..m])))
    {
      var (key, defaultValue) := op[m];
      OptionalPrefixStep(raw, op, m, out0, ns);
      rest := Delete(rest, key);
      ClaimStep(Keys(raw), ns + Keys(op[..m]), key);
      if Has(raw, key) {
        out := Set(out, key, Get(raw, key));
      } else if defaultValue != Undefined {
        out := Set(out, key, defaultValue);
      }
      m := m + 1;
    }
    assert op[..m] == op;
  }

  /** The loop over `optional_props`. */
  method TakeOptional(raw: Props, optional: seq<Props>, out0: Props, rest0: Props, ghost required: seq<string>)
    returns (out: Props, rest: Props)
    requires Keys(rest0) == Unclaimed(Keys(raw), NameSet(required))
    ensures out == ApplyOptional(raw, Flatten(optional), out0)
    ensures Keys(rest) == Unclaimed(Keys(raw), Claimed(required, optional))
  {
    out, rest := out0, rest0;
    var j := 0;
    assert required + Keys(Flatten(optional[..0])) == required;
    while j < |optional|
      invariant 0 <= j <= |optional|
      invariant out == ApplyOptional(raw, Flatten(optional[..j]), out0)
      invariant Keys(rest) == Unclaimed(Keys(raw), NameSet(required + Keys(Flatten(optional[..j]))))
    {
      FlattenPrefixStep(raw, optional, j, out0, required);
      out, rest := TakeOptionalObject(raw, optional[j], out, rest, required + Keys(Flatten(optional[..j])));
      j := j + 1;
    }
    assert optional[..j] == optional;
  }

  /** `paramsFromRequest`: `params` is filled and the claimed names are
      deleted from a copy of the merge, whose remaining keys are the
      unexpected ones. */
  method ParamsFromRequest(body: JsValue, query: JsValue, params: JsValue, required: seq<string>, optional: seq<Props>)
    returns (r: Answer<Props>)
    ensures r == ParamsOutcome(RawParams(body, query, params), required, optional)
  {
    var raw := RawParams(body, query, params);
    var missing, out, rest := TakeRequired(raw, required);
    if missing.Some? {
      return Err(Error(400, "Missing required property: " + missing.value));
    }
    out, rest := TakeOptional(raw, optional, out, rest, required);
    var left := Keys(rest);
    if |left| > 0 {
      return Err(Error(400, "Invalid properties received: " + Join(left, ',')));
    }
    r := Ok(out);
  }

  // ---------------------------------------------------------------------
  // What the outcome means

  lemma {:induction false} RequiredValuesHas(raw: Props, ps: seq<string>, k: string)
    ensures Has(RequiredValues(raw, ps), k) <==> k in ps
    decreases |ps|
  {
    if ps != [] {
      var init, p := ps[..|ps| - 1], ps[|ps| - 1];
      RequiredValuesHas(raw, init, k);
      SetHas(RequiredValues(raw, init), p, Get(raw, p), k);
      InSnoc(ps, k);
    }
  }

  lemma {:induction false} RequiredValuesGet(raw: Props, ps: seq<string>, k: string)
    ensures Get(RequiredValues(raw, ps), k) == if k in ps then Get(raw, k) else Undefined
    decreases |ps|
  {
    if ps != [] {
      var init, p := ps[..|ps| - 1], ps[|ps| - 1];
      RequiredValuesGet(raw, init, k);
      SetGet(RequiredValues(raw, init), p, Get(raw, p), k);
      InSnoc(ps, k);
    }
  }

  lemma {:induction false} ApplyOptionalHas(raw: Props, es: Props, acc: Props, k: string)
    ensures Has(ApplyOptional(raw, es, acc), k)
            <==> Has(acc, k) || (k in Keys(es) && (Has(raw, k) || LastDefault(es, k).Some?))
    decreases |es|
  {
    if es != [] {
      var init := es[..|es| - 1];
      var e := es[|es| - 1];
      var prev := ApplyOptional(raw, init, acc);
      ApplyOptionalHas(raw, init, acc, k);
      KeysSnoc(es);
      InSnoc(Keys(es), k);
      if Has(raw, e.0) {
        SetHas(prev, e.0, Get(raw, e.0), k);
      } else if e.1 != Undefined {
        SetHas(prev, e.0, e.1, k);
      }
    }
  }

  lemma {:induction false} ApplyOptionalGet(raw: Props, es: Props, acc: Props, k: string)
    ensures Get(ApplyOptional(raw, es, acc), k)
            == if k in Keys(es) && Has(raw, k) then Get(raw, k)
               else if LastDefault(es, k).Some? then LastDefault(es, k).value
               else Get(acc, k)
    decreases |es|
  {
    if es != [] {
      var init := es[..|es| - 1];
      var e := es[|es| - 1];
      var prev := ApplyOptional(raw, init, acc);
      ApplyOptionalGet(raw, init, acc, k);
      KeysSnoc(es);
      InSnoc(Keys(es), k);
      if Has(raw, e.0) {
        SetGet(prev, e.0, Get(raw, e.0), k);
      } else if e.1 != Undefined {
        SetGet(prev, e.0, e.1, k);
      }
    }
  }

  /** A required name that is absent gives 400, naming the first such. */
  lemma ParamsMissing(raw: Props, required: seq<string>, optional: seq<Props>, i: nat)
    requires i < |required|
    requires !Has(raw, required[i])
    requires forall j :: 0 <= j < i ==> Has(raw, required[j])
    ensures ParamsOutcome(raw, required, optional) == Err(Error(400, "Missing required property: " + required[i]))
  {
    FirstMissingIs(raw, required, i);
  }

  /** With every required name present, any other name of the request
      that is not optional gives 400, and the message lists exactly those
      names in the order the merge holds them. */
  lemma ParamsUnexpected(raw: Props, required: seq<string>, optional: seq<Props>)
    requires forall i :: 0 <= i < |required| ==> Has(raw, required[i])
    ensures var left := Unclaimed(Keys(raw), Claimed(required, optional));
            (forall k :: k in left <==> Has(raw, k) && k !in required && k !in Keys(Flatten(optional)))
            && (left != [] ==> ParamsOutcome(raw, required, optional)
                                 == Err(Error(400, "Invalid properties received: " + Join(left, ','))))
            && (left == [] <==> ParamsOutcome(raw, required, optional).Ok?)
  {
  }

  /** On success, the parameters are the required names with their
      request values, and the optional names with their request value when
      present, else their last default that is not `undefined`; no other
      name appears. */
  lemma ParamsValues(raw: Props, required: seq<string>, optional: seq<Props>, k: string)
    requires ParamsOutcome(raw, required, optional).Ok?
    ensures var result := ParamsOutcome(raw, required, optional).value;
            var es := Flatten(optional);
            (Has(result, k) <==> k in required || (k in Keys(es) && (Has(raw, k) || LastDefault(es, k).Some?)))
            && Get(result, k) == if k in required || (k in Keys(es) && Has(raw, k)) then Get(raw, k)
                                 else if LastDefault(es, k).Some? then LastDefault(es, k).value
                                 else Undefined
  {
    var es := Flatten(optional);
    RequiredValuesHas(raw, required, k);
    RequiredValuesGet(raw, required, k);
    ApplyOptionalHas(raw, es, RequiredValues(raw, required), k);
    ApplyOptionalGet(raw, es, RequiredValues(raw, required), k);
    if k in required {
      var i :| 0 <= i < |required| && required[i] == k;
    }
  }
}
