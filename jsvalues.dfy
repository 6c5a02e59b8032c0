/** JavaScript values as the core sees them: the primitive kinds, arrays and
    plain objects. An object is the list of its own enumerable properties in
    enumeration order, each key at most once. */
module JsValues {
  import opened JsStrings
  import opened JsNumbers

  datatype JsValue =
    | Undefined
    | Null
    | Bool(b: bool)
    | Num(n: Number)
    | Str(s: string)
    | Arr(elems: seq<JsValue>)
    | Obj(props: Props)

  type Props = seq<(string, JsValue)>

  const Zero: Number := Finite(0, 0)
  const One: Number := Finite(1, 0)

  /** The number `k` as a JavaScript value. */
  function Int(k: int): JsValue {
    Num(Finite(k, 0))
  }

  // ---------------------------------------------------------------------
  // Objects as ordered property lists

  function Keys(p: Props): (ks: seq<string>)
    ensures |ks| == |p| && forall i :: 0 <= i < |p| ==> ks[i] == p[i].0
  {
    seq(|p|, i requires 0 <= i < |p| => p[i].0)
  }

  lemma KeysAppend(a: Props, b: Props)
    ensures Keys(a + b) == Keys(a) + Keys(b)
  {
    var l, r := Keys(a + b), Keys(a) + Keys(b);
    forall i | 0 <= i < |l| ensures l[i] == r[i] {
      if i < |a| {
        assert r[i] == Keys(a)[i];
      } else {
        assert r[i] == Keys(b)[i - |a|];
      }
    }
  }

  /** The keys of a list of entries, first part and last entry. */
  lemma KeysSnoc(es: Props)
    requires es != []
    ensures Keys(es) == Keys(es[..|es| - 1]) + [es[|es| - 1].0]
  {
    var n := |es| - 1;
    var l, r := Keys(es), Keys(es[..n]) + [es[n].0];
    forall i | 0 <= i < |l| ensures l[i] == r[i] {
      if i < n {
        assert r[i] == Keys(es[..n])[i];
      }
    }
  }

  /** The keys of a non-empty list of entries, first entry and the rest. */
  lemma KeysCons(p: Props)
    requires p != []
    ensures Keys(p) == [p[0].0] + Keys(p[1..])
  {
    var l, r := Keys(p), [p[0].0] + Keys(p[1..]);
    forall i | 0 <= i < |l| ensures l[i] == r[i] {
      if i > 0 {
        assert r[i] == Keys(p[1..])[i - 1];
      }
    }
  }

  predicate Has(p: Props, k: string) {
    k in Keys(p)
  }

  /** No key is listed twice: what every JavaScript object satisfies. */
  predicate DistinctKeys(p: Props) {
    forall i, j :: 0 <= i < j < |p| ==> p[i].0 != p[j].0
  }

  /** A value whose own keys are distinct, as every JavaScript value's are. */
  predicate WellFormed(v: JsValue) {
    v.Obj? ==> DistinctKeys(v.props)
  }

  /** `obj[k]` on a plain object: `undefined` when the key is absent. */
  function Get(p: Props, k: string): (v: JsValue)
    ensures !Has(p, k) ==> v == Undefined
  {
    if p == [] then Undefined
    else if p[0].0 == k then p[0].1
    else Get(p[1..], k)
  }

  /** `obj[k] = v`: an existing key keeps its place, a new key goes last. */
  function Set(p: Props, k: string, v: JsValue): Props {
    if p == [] then [(k, v)]
    else if p[0].0 == k then [(k, v)] + p[1..]
    else [p[0]] + Set(p[1..], k, v)
  }

  /** An existing key keeps its place; a new key goes last. */
  lemma {:induction false} SetKeys(p: Props, k: string, v: JsValue)
    ensures Has(p, k) ==> Keys(Set(p, k, v)) == Keys(p)
    ensures !Has(p, k) ==> Keys(Set(p, k, v)) == Keys(p) + [k]
  {
    if p != [] && p[0].0 != k {
      SetKeys(p[1..], k, v);
    }
  }

  /** `delete obj[k]`. */
  function Delete(p: Props, k: string): (r: Props)
    ensures Keys(r) == Without(Keys(p), k)
  {
    if p == [] then []
    else
      KeysCons(p);
      if p[0].0 == k then Delete(p[1..], k)
      else KeysCons([p[0]] + Delete(p[1..], k)); [p[0]] + Delete(p[1..], k)
  }

  /** The keys of `ks` other than `k`, in order. */
  function Without(ks: seq<string>, k: string): (r: seq<string>)
    ensures k !in r
    ensures forall x :: x in r <==> x in ks && x != k
  {
    if ks == [] then []
    else if ks[0] == k then Without(ks[1..], k)
    else [ks[0]] + Without(ks[1..], k)
  }

  /** `Object.assign(target, source)`: every property of `source`, in order,
      is written into `target`. */
  function Assign(target: Props, source: Props): Props
    decreases |source|
  {
    if source == [] then target
    else Assign(Set(target, source[0].0, source[0].1), source[1..])
  }

  lemma {:induction false} SetGet(p: Props, k: string, v: JsValue, k': string)
    ensures Get(Set(p, k, v), k') == if k' == k then v else Get(p, k')
  {
    if p != [] && p[0].0 != k {
      SetGet(p[1..], k, v, k');
    }
  }

  lemma SetHas(p: Props, k: string, v: JsValue, k': string)
    ensures Has(Set(p, k, v), k') <==> k' == k || Has(p, k')
  {
    SetKeys(p, k, v);
    if Has(p, k) {
      assert Keys(Set(p, k, v)) == Keys(p);
    } else {
      assert Keys(Set(p, k, v)) == Keys(p) + [k];
    }
  }

  lemma {:induction false} SetDistinct(p: Props, k: string, v: JsValue)
    requires DistinctKeys(p)
    ensures DistinctKeys(Set(p, k, v))
  {
    var r := Set(p, k, v);
    SetKeys(p, k, v);
    forall i, j | 0 <= i < j < |r| ensures r[i].0 != r[j].0 {
      assert r[i].0 == Keys(r)[i] && r[j].0 == Keys(r)[j];
      if !Has(p, k) {
        if j == |p| {
          assert Keys(r)[i] == Keys(p)[i];
        } else {
          assert Keys(r)[j] == Keys(p)[j] && Keys(r)[i] == Keys(p)[i];
        }
      } else {
        assert Keys(r)[j] == Keys(p)[j] && Keys(r)[i] == Keys(p)[i];
      }
    }
  }

  lemma {:induction false} DeleteGet(p: Props, k: string, k': string)
    ensures Get(Delete(p, k), k') == if k' == k then Undefined else Get(p, k')
  {
    if p != [] {
      DeleteGet(p[1..], k, k');
    }
  }

  lemma DeleteHas(p: Props, k: string, k': string)
    ensures Has(Delete(p, k), k') <==> k' != k && Has(p, k')
  {
  }

  lemma {:induction false} AssignDistinct(target: Props, source: Props)
    requires DistinctKeys(target)
    ensures DistinctKeys(Assign(target, source))
    decreases |source|
  {
    if source != [] {
      SetDistinct(target, source[0].0, source[0].1);
      AssignDistinct(Set(target, source[0].0, source[0].1), source[1..]);
    }
  }

  /** After `Object.assign`, a key of the source has the source's value and
      any other key keeps the target's. */
  lemma {:induction false} AssignGet(target: Props, source: Props, k: string)
    requires DistinctKeys(source)
    ensures Get(Assign(target, source), k) == if Has(source, k) then Get(source, k) else Get(target, k)
    decreases |source|
  {
    if source != [] {
      var rest := source[1..];
      assert DistinctKeys(rest) by {
        forall i, j | 0 <= i < j < |rest| ensures rest[i].0 != rest[j].0 {
          assert rest[i] == source[i + 1] && rest[j] == source[j + 1];
        }
      }
      AssignGet(Set(target, source[0].0, source[0].1), rest, k);
      SetGet(target, source[0].0, source[0].1, k);
      assert Keys(source) == [source[0].0] + Keys(rest);
      if source[0].0 == k {
        assert !Has(rest, k) by {
          forall i | 0 <= i < |rest| ensures rest[i].0 != k {
            assert rest[i] == source[i + 1];
          }
        }
      }
    }
  }

  /** After `Object.assign`, the keys present are those of either side. */
  lemma {:induction false} AssignHas(target: Props, source: Props, k: string)
    ensures Has(Assign(target, source), k) <==> Has(target, k) || Has(source, k)
    decreases |source|
  {
    if source != [] {
      AssignHas(Set(target, source[0].0, source[0].1), source[1..], k);
      SetHas(target, source[0].0, source[0].1, k);
      assert Keys(source) == [source[0].0] + Keys(source[1..]);
    }
  }

  // ---------------------------------------------------------------------
  // Coercions

  /** `Boolean(v)`: what `if (v)`, `!v` and `v || w` test. */
  predicate Truthy(v: JsValue) {
    match v
    case Undefined => false
    case Null => false
    case Bool(b) => b
    case Num(n) => n != Zero && n != NaN
    case Str(s) => s != []
    case Arr(_) => true
    case Obj(_) => true
  }

  /** `v == null`: true of `null` and `undefined` only. */
  predicate IsNullish(v: JsValue) {
    v == Null || v == Undefined
  }

  /** `String(v)`, which is also what `+` with a string and `join` use. An
      array prints its elements joined by commas, with `null` and
      `undefined` elements printing as nothing. */
  function ToJsString(v: JsValue): string {
    match v
    case Undefined => "undefined"
    case Null => "null"
    case Bool(b) => if b then "true" else "false"
    case Num(n) => NumberToString(n)
    case Str(s) => s
    case Arr(xs) =>
      Join(seq(|xs|, i requires 0 <= i < |xs| => if IsNullish(xs[i]) then "" else ToJsString(xs[i])), ',')
    case Obj(_) => "[object Object]"
  }

  /** `v * 1`, that is `ToNumber(v)`. Arrays and objects are first turned
      into their string form. */
  function ToNumber(v: JsValue): Number {
    match v
    case Undefined => NaN
    case Null => Zero
    case Bool(b) => if b then One else Zero
    case Num(n) => n
    case Str(s) => StringToNumber(s)
    case Arr(_) => StringToNumber(ToJsString(v))
    case Obj(_) => StringToNumber(ToJsString(v))
  }

  /** `Object.keys(v)` paired with the values, for the values the core
      enumerates: an object's own properties, an array's or a string's
      indices; other primitives have none. */
  /** `k` is the decimal name of index `i`. */
  predicate IndexKey(k: string, i: nat) {
    AllDigits(k) && IsRadixDigits(k, 10) && RadixValue(k, 10) == i
  }

  function OwnEntries(v: JsValue): (r: Props)
    ensures v.Obj? ==> r == v.props
    ensures v.Arr? ==> |r| == |v.elems|
                       && forall i :: 0 <= i < |r| ==> r[i].1 == v.elems[i] && IndexKey(r[i].0, i)
    ensures v.Str? ==> |r| == |v.s|
                       && forall i :: 0 <= i < |r| ==> r[i].1 == Str([v.s[i]]) && IndexKey(r[i].0, i)
    ensures !(v.Obj? || v.Arr? || v.Str?) ==> r == []
  {
    match v
    case Obj(p) => p
    case Arr(xs) => seq(|xs|, i requires 0 <= i < |xs| => (NatToDigits(i), xs[i]))
    case Str(s) => seq(|s|, i requires 0 <= i < |s| => (NatToDigits(i), Str([s[i]])))
    case _ => []
  }

  /** A number's text read back as a number gives the number: so `v * 1` on
      a one-element array holding a number is that number. */
  lemma SingletonArrayToNumber(n: Number)
    ensures ToNumber(Arr([Num(n)])) == n
  {
    assert ToJsString(Arr([Num(n)])) == NumberToString(n) by {
      var parts := seq(1, i requires 0 <= i < 1 => if IsNullish([Num(n)][i]) then "" else ToJsString([Num(n)][i]));
      assert parts == [NumberToString(n)];
    }
    NumberRoundTrip(n);
  }

  /** The empty array is `0` when multiplied by one. */
  lemma EmptyArrayToNumber()
    ensures ToNumber(Arr([])) == Zero
  {
    assert ToJsString(Arr([])) == [];
    assert Trim([]) == [];
  }

  /** A plain object is NaN when multiplied by one. */
  lemma ObjectToNumber(p: Props)
    ensures ToNumber(Obj(p)) == NaN
  {
    var t := ToJsString(Obj(p));
    assert t[0] == '[' && t[|t| - 1] == ']';
    TrimOfTrimmed(t);
    assert StringToNumber(t) == NumericLiteral(t);
    LeadingJunkIsNaN(t);
  }

  /** Index keys are distinct, so only an object's keys can clash. */
  lemma OwnEntriesDistinct(v: JsValue)
    requires WellFormed(v)
    ensures DistinctKeys(OwnEntries(v))
  {
    var es := OwnEntries(v);
    if v.Arr? || v.Str? {
      forall i, j | 0 <= i < j < |es| ensures es[i].0 != es[j].0 {
        assert es[i].0 == NatToDigits(i) && es[j].0 == NatToDigits(j);
      }
    }
  }
}
