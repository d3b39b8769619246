/** When the JSON view of a value gives the value, and so its bytes, back. */
module BorshViews {
  import opened Bytes
  import opened BorshTypes
  import opened BorshValues
  import Base58

  /** No option directly inside an option. */
  predicate Clear(ty: Ty) {
    match ty
    case Opt(inner) => !inner.Opt? && Clear(inner)
    case Vec(elem) => Clear(elem)
    case Array(elem, _) => Clear(elem)
    case _ => true
  }

  ghost predicate ClearDef(def: Def) {
    match def
    case StructDef(fields) =>
      && (forall i, j :: 0 <= i < j < |fields| ==> fields[i].name != fields[j].name)
      && (forall f :: f in fields ==> Clear(f.ty))
    case EnumDef(variants) =>
      && (forall i, j :: 0 <= i < j < |variants| ==> variants[i].name != variants[j].name)
      && (forall v :: v in variants && v.fields.Some? ==> forall t :: t in v.fields.value ==> Clear(t))
    case _ => true
  }

  ghost predicate ClearEnv(env: Env) {
    forall n :: n in env ==> ClearDef(env[n])
  }

  /** Every present option was encoded with the tag that encoders write. */
  ghost predicate UnitTags(v: Val)
    decreases v, 1
  {
    match v
    case Present(tag, inner) => tag == 1 && UnitTags(inner)
    case List(items) => AllUnitTags(items)
    case Choice(_, payload) => AllUnitTags(payload)
    case _ => true
  }

  ghost predicate AllUnitTags(vs: seq<Val>)
    decreases vs, 0
  {
    vs == [] || (UnitTags(vs[0]) && AllUnitTags(vs[1..]))
  }

  lemma {:induction false} ObjectMember(fields: seq<Field>, items: seq<Json>, i: nat)
    requires |fields| == |items| && i < |fields|
    requires forall i, j :: 0 <= i < j < |fields| ==> fields[i].name != fields[j].name
    ensures fields[i].name in Object(fields, items) && Object(fields, items)[fields[i].name] == items[i]
  {
    var n := |fields| - 1;
    if i < n { ObjectMember(fields[..n], items[..n], i); }
  }

  lemma ObjectInjective(fields: seq<Field>, a: seq<Json>, b: seq<Json>)
    requires |fields| == |a| == |b|
    requires forall i, j :: 0 <= i < j < |fields| ==> fields[i].name != fields[j].name
    requires Object(fields, a) == Object(fields, b)
    ensures a == b
  {
    forall i | 0 <= i < |a| ensures a[i] == b[i] {
      ObjectMember(fields, a, i);
      ObjectMember(fields, b, i);
    }
  }

  lemma VariantObjectInjective(n: Bytes, j: Json, m: Bytes, k: Json)
    requires VariantObject(n, j) == VariantObject(m, k)
    ensures n == m && j == k
  {
    var a, b := VariantObject(n, j).members, VariantObject(m, k).members;
    assert a[VARIANT] == b[VARIANT] && a[VALUE] == b[VALUE];
  }

  lemma OnlyOptionsViewAsNull(env: Env, ty: Ty, v: Val)
    requires HasType(env, ty, v) && !ty.Opt?
    ensures View(env, ty, v) != JNull
  {
  }

  /** With unit tags, distinct names and no nested options, equal JSON means equal values. */
  lemma {:induction false} ViewInjective(env: Env, ty: Ty, v: Val, w: Val)
    requires ClearEnv(env) && Clear(ty)
    requires HasType(env, ty, v) && HasType(env, ty, w) && UnitTags(v) && UnitTags(w)
    requires View(env, ty, v) == View(env, ty, w)
    ensures v == w
    decreases v, 1
  {
    match ty
    case Prim(_) =>
      if v.Key? { Base58.Injective(v.key, w.key); }
    case Vec(elem) =>
      assert |v.items| == |w.items| by {
        assert |ViewAll(env, Repeat(elem, |v.items|), v.items)|
            == |ViewAll(env, Repeat(elem, |w.items|), w.items)|;
      }
      ViewAllInjective(env, Repeat(elem, |v.items|), v.items, w.items);
    case Opt(inner) =>
      if v.Present? { OnlyOptionsViewAsNull(env, inner, v.inner); }
      if w.Present? { OnlyOptionsViewAsNull(env, inner, w.inner); }
      if v.Present? && w.Present? { ViewInjective(env, inner, v.inner, w.inner); }
    case Array(elem, n) => ViewAllInjective(env, Repeat(elem, n), v.items, w.items);
    case Defined(name) =>
      assert ClearDef(env[name]);
      match env[name] {
        case StructDef(fields) =>
          var tys := FieldTypes(fields);
          ObjectInjective(fields, ViewAll(env, tys, v.items), ViewAll(env, tys, w.items));
          ViewAllInjective(env, tys, v.items, w.items);
        case EnumDef(variants) => ChoiceInjective(env, name, v, w);
      }
  }

  lemma {:induction false} ChoiceInjective(env: Env, name: string, v: Val, w: Val)
    requires ClearEnv(env) && name in env && env[name].EnumDef?
    requires HasType(env, Defined(name), v) && HasType(env, Defined(name), w)
    requires UnitTags(v) && UnitTags(w)
    requires View(env, Defined(name), v) == View(env, Defined(name), w)
    ensures v == w
    decreases v, 0
  {
    var variants := env[name].variants;
    assert ClearDef(env[name]);
    var a, b := variants[v.variant], variants[w.variant];
    var j := if a.fields.None? then JNull else JArr(ViewAll(env, a.fields.value, v.payload));
    var k := if b.fields.None? then JNull else JArr(ViewAll(env, b.fields.value, w.payload));
    VariantObjectInjective(a.name, j, b.name, k);
    if a.fields.Some? { ViewAllInjective(env, a.fields.value, v.payload, w.payload); }
  }

  lemma {:induction false} ViewAllInjective(env: Env, tys: seq<Ty>, vs: seq<Val>, ws: seq<Val>)
    requires ClearEnv(env) && forall t :: t in tys ==> Clear(t)
    requires |tys| == |vs| == |ws| && AllTyped(env, tys, vs) && AllTyped(env, tys, ws)
    requires AllUnitTags(vs) && AllUnitTags(ws)
    requires ViewAll(env, tys, vs) == ViewAll(env, tys, ws)
    ensures vs == ws
    decreases vs, 0
  {
    if vs != [] {
      var a, b := ViewAll(env, tys, vs), ViewAll(env, tys, ws);
      assert a[0] == b[0] && a[1..] == b[1..];
      ViewInjective(env, tys[0], vs[0], ws[0]);
      ViewAllInjective(env, tys[1..], vs[1..], ws[1..]);
      assert vs == [vs[0]] + vs[1..] && ws == [ws[0]] + ws[1..];
    }
  }

  /** Two inputs that decode to the same JSON, both with unit tags, have consumed the same bytes. */
  lemma JsonDeterminesBytes(env: Env, ty: Ty, v: Val, w: Val, more: Bytes, others: Bytes)
    requires Grounded(env) && ClearEnv(env) && Clear(ty)
    requires HasType(env, ty, v) && HasType(env, ty, w) && UnitTags(v) && UnitTags(w)
    ensures Decode(env, ty, Encode(env, ty, v) + more).Ok?
    ensures Decode(env, ty, Encode(env, ty, w) + others).Ok?
    ensures Decode(env, ty, Encode(env, ty, v) + more).value
            == Decode(env, ty, Encode(env, ty, w) + others).value
      <==> Encode(env, ty, v) == Encode(env, ty, w)
  {
    RoundTrip(env, ty, v, more);
    RoundTrip(env, ty, w, others);
    if View(env, ty, v) == View(env, ty, w) { ViewInjective(env, ty, v, w); }
    if Encode(env, ty, v) == Encode(env, ty, w) {
      RoundTrip(env, ty, v, []);
      RoundTrip(env, ty, w, []);
    }
  }
}
