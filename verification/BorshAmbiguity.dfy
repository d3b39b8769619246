/**
Exactly when two different encodings of a type decode to the same JSON, constructor by constructor.
Option tags are those that encoders write; what other tags do is stated first.
*/
module BorshAmbiguity {
  import opened Bytes
  import opened BorshTypes
  import opened BorshValues
  import opened BorshViews
  import Base58

  // ----- any tag -----

  /** Any two non-zero tags give one result, for every type. */
  lemma AnyTagIsPresent(env: Env, ty: Ty, a: byte, b: byte, s: Bytes)
    requires Grounded(env) && a != 0 && b != 0
    ensures Decode(env, Opt(ty), [a] + s) == Decode(env, Opt(ty), [b] + s)
  {
    assert ([a] + s)[1..] == s && ([b] + s)[1..] == s;
  }

  /** An option inside an option hides which of the two was absent, for every type. */
  lemma NestedOptionCollides(env: Env, ty: Ty, s: Bytes)
    requires Grounded(env)
    ensures Decode(env, Opt(Opt(ty)), [0] + s) == Ok(JNull, s)
    ensures Decode(env, Opt(Opt(ty)), [1, 0] + s) == Ok(JNull, s)
  {
    assert ([0 as byte] + s)[1..] == s && ([1 as byte, 0] + s)[1..] == [0] + s;
  }

  // ----- values with one view -----

  ghost predicate Plain(env: Env, ty: Ty, v: Val) { HasType(env, ty, v) && UnitTags(v) }

  ghost predicate Inhabited(env: Env, ty: Ty) { exists v :: Plain(env, ty, v) }

  ghost predicate Alike(env: Env, ty: Ty, v: Val, w: Val) {
    && Plain(env, ty, v) && Plain(env, ty, w)
    && View(env, ty, v) == View(env, ty, w) && Encode(env, ty, v) != Encode(env, ty, w)
  }

  /** Two encodings decode to one JSON. */
  ghost predicate Ambiguous(env: Env, ty: Ty) { exists v, w :: Alike(env, ty, v, w) }

  ghost predicate Unlike(env: Env, ty: Ty, v: Val, w: Val) {
    Plain(env, ty, v) && Plain(env, ty, w) && Encode(env, ty, v) != Encode(env, ty, w)
  }

  /** The type has more than one encoding. */
  ghost predicate Varied(env: Env, ty: Ty) { exists v, w :: Unlike(env, ty, v, w) }

  lemma AmbiguousDecodes(env: Env, ty: Ty, v: Val, w: Val, more: Bytes, others: Bytes)
    requires Grounded(env) && Plain(env, ty, v) && Plain(env, ty, w)
    ensures var a, b := Decode(env, ty, Encode(env, ty, v) + more), Decode(env, ty, Encode(env, ty, w) + others);
      Alike(env, ty, v, w) <==> (Encode(env, ty, v) != Encode(env, ty, w) && a.Ok? && b.Ok? && a.value == b.value)
  {
    RoundTrip(env, ty, v, more);
    RoundTrip(env, ty, w, others);
  }

  // ----- lists of values -----

  ghost predicate AllPlain(env: Env, tys: seq<Ty>, vs: seq<Val>) {
    |tys| == |vs| && forall i :: 0 <= i < |vs| ==> Plain(env, tys[i], vs[i])
  }

  lemma {:induction false} TypedAt(env: Env, tys: seq<Ty>, vs: seq<Val>)
    requires |tys| == |vs|
    ensures AllTyped(env, tys, vs) && AllUnitTags(vs) <==> AllPlain(env, tys, vs)
  {
    if vs != [] {
      TypedAt(env, tys[1..], vs[1..]);
      if AllPlain(env, tys, vs) {
        forall i | 0 <= i < |vs| - 1 ensures Plain(env, tys[1..][i], vs[1..][i]) {
          assert tys[1..][i] == tys[i + 1] && vs[1..][i] == vs[i + 1];
        }
      }
      if AllPlain(env, tys[1..], vs[1..]) && Plain(env, tys[0], vs[0]) {
        forall i | 0 <= i < |vs| ensures Plain(env, tys[i], vs[i]) {
          if i > 0 { assert tys[i] == tys[1..][i - 1] && vs[i] == vs[1..][i - 1]; }
        }
      }
    }
  }

  lemma TailPlain(env: Env, tys: seq<Ty>, vs: seq<Val>)
    requires AllPlain(env, tys, vs) && vs != []
    ensures AllPlain(env, tys[1..], vs[1..])
  {
    forall i | 0 <= i < |vs| - 1 ensures Plain(env, tys[1..][i], vs[1..][i]) {
      assert tys[1..][i] == tys[i + 1] && vs[1..][i] == vs[i + 1];
    }
  }

  lemma {:induction false} ViewAt(env: Env, tys: seq<Ty>, vs: seq<Val>)
    requires AllPlain(env, tys, vs) && AllTyped(env, tys, vs)
    ensures forall i :: 0 <= i < |vs| ==> ViewAll(env, tys, vs)[i] == View(env, tys[i], vs[i])
  {
    if vs != [] {
      TailPlain(env, tys, vs);
      ViewAt(env, tys[1..], vs[1..]);
    }
  }

  /** Encodings differ only if those of some item do. */
  lemma {:induction false} DifferAt(env: Env, tys: seq<Ty>, vs: seq<Val>, ws: seq<Val>) returns (i: nat)
    requires AllPlain(env, tys, vs) && AllTyped(env, tys, vs) && AllPlain(env, tys, ws) && AllTyped(env, tys, ws)
    requires EncodeAll(env, tys, vs) != EncodeAll(env, tys, ws)
    ensures i < |tys| && Unlike(env, tys[i], vs[i], ws[i])
  {
    if Encode(env, tys[0], vs[0]) != Encode(env, tys[0], ws[0]) {
      i := 0;
    } else {
      TailPlain(env, tys, vs);
      TailPlain(env, tys, ws);
      var k := DifferAt(env, tys[1..], vs[1..], ws[1..]);
      i := k + 1;
    }
  }

  lemma SameAfter(h: Bytes, x: Bytes, y: Bytes)
    ensures h + x == h + y ==> x == y
  {
    assert (h + x)[|h|..] == x && (h + y)[|h|..] == y;
  }

  lemma SameBefore(x: Bytes, y: Bytes, t: Bytes)
    ensures x + t == y + t ==> x == y
  {
    if x + t == y + t {
      assert |x| == |y|;
      assert (x + t)[..|x|] == x && (y + t)[..|y|] == y;
    }
  }

  /** Replacing one item by an unlike one changes the encoding. */
  lemma {:induction false} ReplacedDiffers(env: Env, tys: seq<Ty>, us: seq<Val>, i: nat, v: Val, w: Val)
    requires AllPlain(env, tys, us) && i < |tys| && Unlike(env, tys[i], v, w)
    ensures AllPlain(env, tys, us[i := v]) && AllPlain(env, tys, us[i := w])
    ensures AllTyped(env, tys, us[i := v]) && AllTyped(env, tys, us[i := w])
    ensures EncodeAll(env, tys, us[i := v]) != EncodeAll(env, tys, us[i := w])
    decreases us
  {
    TypedAt(env, tys, us[i := v]);
    TypedAt(env, tys, us[i := w]);
    if i == 0 {
      assert us[0 := v][1..] == us[1..] && us[0 := w][1..] == us[1..];
      SameBefore(Encode(env, tys[0], v), Encode(env, tys[0], w), EncodeAll(env, tys[1..], us[1..]));
    } else {
      assert us[i := v][1..] == us[1..][i - 1 := v] && us[i := w][1..] == us[1..][i - 1 := w];
      TailPlain(env, tys, us);
      ReplacedDiffers(env, tys[1..], us[1..], i - 1, v, w);
      SameAfter(Encode(env, tys[0], us[0]),
                EncodeAll(env, tys[1..], us[i := v][1..]), EncodeAll(env, tys[1..], us[i := w][1..]));
    }
  }

  ghost predicate AllInhabited(env: Env, tys: seq<Ty>) {
    forall i :: 0 <= i < |tys| ==> Inhabited(env, tys[i])
  }

  lemma {:induction false} Inhabitants(env: Env, tys: seq<Ty>) returns (us: seq<Val>)
    requires AllInhabited(env, tys)
    ensures AllPlain(env, tys, us)
  {
    us := [];
    if tys != [] {
      var n := |tys| - 1;
      var init := Inhabitants(env, tys[..n]);
      assert Inhabited(env, tys[n]);
      var u :| Plain(env, tys[n], u);
      us := init + [u];
    }
  }

  // ----- constructor by constructor -----

  lemma PrimNeverAmbiguous(env: Env, kind: Primitive)
    ensures !Ambiguous(env, Prim(kind))
  {
    forall v, w | Plain(env, Prim(kind), v) && Plain(env, Prim(kind), w)
      ensures View(env, Prim(kind), v) == View(env, Prim(kind), w) ==> v == w
    {
      if kind.Pubkey? && View(env, Prim(kind), v) == View(env, Prim(kind), w) { Base58.Injective(v.key, w.key); }
    }
  }

  lemma OptAmbiguousWhen(env: Env, ty: Ty)
    ensures Ambiguous(env, Opt(ty)) <==> ty.Opt? || Ambiguous(env, ty)
  {
    if v, w :| Alike(env, Opt(ty), v, w) { AlikeOptions(env, ty, v, w); }
    hide Alike;
    if ty.Opt? { AlikeAbsences(env, ty); }
    if v, w :| Alike(env, ty, v, w) { AlikePresences(env, ty, v, w); }
  }

  lemma AlikeOptions(env: Env, ty: Ty, v: Val, w: Val)
    requires Alike(env, Opt(ty), v, w)
    ensures ty.Opt? || Ambiguous(env, ty)
  {
    if v.Present? && w.Present? {
      assert Alike(env, ty, v.inner, w.inner);
    } else if !ty.Opt? {
      if v.Present? { OnlyOptionsViewAsNull(env, ty, v.inner); }
      if w.Present? { OnlyOptionsViewAsNull(env, ty, w.inner); }
    }
  }

  lemma AlikeAbsences(env: Env, ty: Ty)
    requires ty.Opt?
    ensures Alike(env, Opt(ty), Absent, Present(1, Absent))
  {
    assert Plain(env, ty, Absent);
  }

  lemma AlikePresences(env: Env, ty: Ty, v: Val, w: Val)
    requires Alike(env, ty, v, w)
    ensures Alike(env, Opt(ty), Present(1, v), Present(1, w))
  {
    SameAfter([1], Encode(env, ty, v), Encode(env, ty, w));
  }

  /** Two lists of values with one view and different encodings. */
  ghost predicate ListsAlike(env: Env, tys: seq<Ty>, vs: seq<Val>, ws: seq<Val>) {
    && AllPlain(env, tys, vs) && AllPlain(env, tys, ws) && AllTyped(env, tys, vs) && AllTyped(env, tys, ws)
    && ViewAll(env, tys, vs) == ViewAll(env, tys, ws) && EncodeAll(env, tys, vs) != EncodeAll(env, tys, ws)
  }

  lemma ListsAlikeAt(env: Env, tys: seq<Ty>, vs: seq<Val>, ws: seq<Val>) returns (i: nat)
    requires ListsAlike(env, tys, vs, ws)
    ensures i < |tys| && Ambiguous(env, tys[i])
  {
    i := DifferAt(env, tys, vs, ws);
    ViewAt(env, tys, vs);
    ViewAt(env, tys, ws);
    assert ViewAll(env, tys, vs)[i] == ViewAll(env, tys, ws)[i];
    assert Alike(env, tys[i], vs[i], ws[i]);
  }

  lemma ReplacedAlike(env: Env, tys: seq<Ty>, us: seq<Val>, i: nat, v: Val, w: Val)
    requires AllPlain(env, tys, us) && i < |tys| && Alike(env, tys[i], v, w)
    ensures ListsAlike(env, tys, us[i := v], us[i := w])
  {
    ReplacedDiffers(env, tys, us, i, v, w);
    var vs, ws := us[i := v], us[i := w];
    ViewAt(env, tys, vs);
    ViewAt(env, tys, ws);
    assert ViewAll(env, tys, vs) == ViewAll(env, tys, ws);
  }

  /** A list of given types is ambiguous iff each type has a value and one is ambiguous. */
  lemma ListsAlikeWhen(env: Env, tys: seq<Ty>)
    ensures (exists vs, ws :: ListsAlike(env, tys, vs, ws))
      <==> AllInhabited(env, tys) && exists i :: 0 <= i < |tys| && Ambiguous(env, tys[i])
  {
    if vs, ws :| ListsAlike(env, tys, vs, ws) {
      forall i | 0 <= i < |tys| ensures Inhabited(env, tys[i]) {
        assert Plain(env, tys[i], vs[i]);
      }
      var i := ListsAlikeAt(env, tys, vs, ws);
    }
    if AllInhabited(env, tys) && exists i :: 0 <= i < |tys| && Ambiguous(env, tys[i]) {
      var i :| 0 <= i < |tys| && Ambiguous(env, tys[i]);
      var v, w :| Alike(env, tys[i], v, w);
      var us := Inhabitants(env, tys);
      ReplacedAlike(env, tys, us, i, v, w);
    }
  }

  lemma RepeatedAlike(env: Env, ty: Ty, n: nat)
    ensures (exists vs, ws :: ListsAlike(env, Repeat(ty, n), vs, ws)) <==> n > 0 && Ambiguous(env, ty)
  {
    var tys := Repeat(ty, n);
    ListsAlikeWhen(env, tys);
    if n > 0 && Ambiguous(env, ty) {
      var v, w :| Alike(env, ty, v, w);
      assert Plain(env, ty, v);
      assert tys[0] == ty;
    }
  }

  lemma ArrayItems(env: Env, ty: Ty, n: nat, vs: seq<Val>, ws: seq<Val>)
    ensures Alike(env, Array(ty, n), List(vs), List(ws)) <==> ListsAlike(env, Repeat(ty, n), vs, ws)
  {
    if |vs| == n == |ws| {
      TypedAt(env, Repeat(ty, n), vs);
      TypedAt(env, Repeat(ty, n), ws);
    }
  }

  lemma ArrayAmbiguousWhen(env: Env, ty: Ty, n: nat)
    ensures Ambiguous(env, Array(ty, n)) <==> n > 0 && Ambiguous(env, ty)
  {
    RepeatedAlike(env, ty, n);
    hide ListsAlike;
    if v, w :| Alike(env, Array(ty, n), v, w) {
      assert v == List(v.items) && w == List(w.items);
      ArrayItems(env, ty, n, v.items, w.items);
    }
    if vs, ws :| ListsAlike(env, Repeat(ty, n), vs, ws) {
      ArrayItems(env, ty, n, vs, ws);
    }
  }

  lemma VecItems(env: Env, ty: Ty, vs: seq<Val>, ws: seq<Val>)
    requires |vs| == |ws| < Pow256(4)
    ensures Alike(env, Vec(ty), List(vs), List(ws)) <==> ListsAlike(env, Repeat(ty, |vs|), vs, ws)
  {
    var tys := Repeat(ty, |vs|);
    TypedAt(env, tys, vs);
    TypedAt(env, tys, ws);
    if AllPlain(env, tys, vs) && AllPlain(env, tys, ws) {
      SameAfter(ToLE(|vs|, 4), EncodeAll(env, tys, vs), EncodeAll(env, tys, ws));
    }
  }

  lemma VecsOfOneLength(env: Env, ty: Ty, vs: seq<Val>, ws: seq<Val>)
    requires Alike(env, Vec(ty), List(vs), List(ws))
    ensures |vs| == |ws| < Pow256(4)
  {
    var a, b := ViewAll(env, Repeat(ty, |vs|), vs), ViewAll(env, Repeat(ty, |ws|), ws);
    assert JArr(a) == JArr(b);
  }

  lemma VecAmbiguousWhen(env: Env, ty: Ty)
    ensures Ambiguous(env, Vec(ty)) <==> Ambiguous(env, ty)
  {
    hide ListsAlike, Pow256;
    if v, w :| Alike(env, Vec(ty), v, w) {
      assert v == List(v.items) && w == List(w.items);
      VecsOfOneLength(env, ty, v.items, w.items);
      VecItems(env, ty, v.items, w.items);
      RepeatedAlike(env, ty, |v.items|);
    }
    if Ambiguous(env, ty) {
      Widths();
      RepeatedAlike(env, ty, 1);
      var vs, ws :| ListsAlike(env, Repeat(ty, 1), vs, ws);
      AlikeLengths(env, Repeat(ty, 1), vs, ws);
      VecItems(env, ty, vs, ws);
    }
  }

  lemma AlikeLengths(env: Env, tys: seq<Ty>, vs: seq<Val>, ws: seq<Val>)
    requires ListsAlike(env, tys, vs, ws)
    ensures |vs| == |tys| == |ws|
  {
  }

  // ----- structs -----

  /** No later field has the name: the field shows in the JSON object. */
  ghost predicate Shows(fields: seq<Field>, i: nat) {
    i < |fields| && forall j :: i < j < |fields| ==> fields[j].name != fields[i].name
  }

  lemma {:induction false} ObjectShows(fields: seq<Field>, items: seq<Json>, i: nat)
    requires |fields| == |items| && Shows(fields, i)
    ensures fields[i].name in Object(fields, items) && Object(fields, items)[fields[i].name] == items[i]
  {
    var n := |fields| - 1;
    if i < n { ObjectShows(fields[..n], items[..n], i); }
  }

  lemma {:induction false} MemberShows(fields: seq<Field>, items: seq<Json>, m: Bytes) returns (i: nat)
    requires |fields| == |items| && m in Object(fields, items)
    ensures Shows(fields, i) && fields[i].name == m
  {
    var n := |fields| - 1;
    if m == fields[n].name {
      i := n;
    } else {
      i := MemberShows(fields[..n], items[..n], m);
    }
  }

  lemma ObjectsEqual(fields: seq<Field>, a: seq<Json>, b: seq<Json>)
    requires |fields| == |a| == |b| && forall i: nat :: Shows(fields, i) ==> a[i] == b[i]
    ensures Object(fields, a) == Object(fields, b)
  {
    var x, y := Object(fields, a), Object(fields, b);
    hide Shows, Object;
    forall m | m in x ensures m in y && x[m] == y[m] {
      var i := MemberShows(fields, a, m);
      ObjectShows(fields, a, i);
      ObjectShows(fields, b, i);
    }
    forall m | m in y ensures m in x {
      var i := MemberShows(fields, b, m);
      ObjectShows(fields, a, i);
    }
  }

  /** A field in which two values differ without the object showing it. */
  ghost predicate Hides(env: Env, fields: seq<Field>, i: nat) {
    i < |fields| && if Shows(fields, i) then Ambiguous(env, fields[i].ty) else Varied(env, fields[i].ty)
  }

  /**
  A struct is ambiguous iff all its fields have values and some field hides a difference: one that
  shows, by an ambiguous type; one whose name a later field takes, by any type of two encodings.
  */
  lemma StructAmbiguousWhen(env: Env, name: string)
    requires name in env && env[name].StructDef?
    ensures var fields := env[name].fields;
      Ambiguous(env, Defined(name))
      <==> AllInhabited(env, FieldTypes(fields)) && exists i: nat :: Hides(env, fields, i)
  {
    var fields, tys := env[name].fields, FieldTypes(env[name].fields);
    if v, w :| Alike(env, Defined(name), v, w) {
      TypedAt(env, tys, v.items);
      TypedAt(env, tys, w.items);
      forall i | 0 <= i < |tys| ensures Inhabited(env, tys[i]) {
        assert Plain(env, tys[i], v.items[i]);
      }
      var i := DifferAt(env, tys, v.items, w.items);
      if Shows(fields, i) {
        ObjectShows(fields, ViewAll(env, tys, v.items), i);
        ObjectShows(fields, ViewAll(env, tys, w.items), i);
        ViewAt(env, tys, v.items);
        ViewAt(env, tys, w.items);
        assert Alike(env, tys[i], v.items[i], w.items[i]);
      }
      assert Hides(env, fields, i);
    }
    if AllInhabited(env, tys) && exists i: nat :: Hides(env, fields, i) {
      var i: nat :| Hides(env, fields, i);
      var us := Inhabitants(env, tys);
      HiddenAlike(env, name, i, us);
    }
  }

  lemma HiddenAlike(env: Env, name: string, i: nat, us: seq<Val>)
    requires name in env && env[name].StructDef? && Hides(env, env[name].fields, i)
    requires AllPlain(env, FieldTypes(env[name].fields), us)
    ensures Ambiguous(env, Defined(name))
  {
    var fields, tys := env[name].fields, FieldTypes(env[name].fields);
    var v, w := HiddenPair(env, fields, i);
    ReplacedDiffers(env, tys, us, i, v, w);
    var vs, ws := us[i := v], us[i := w];
    ReplacedObjects(env, fields, us, i, v, w);
    hide AllTyped, Object, ViewAll, EncodeAll, Shows, Hides, Alike, Unlike, Plain;
    assert |us| == |tys|;
    StructPair(env, name, vs, ws);
  }

  lemma StructPair(env: Env, name: string, vs: seq<Val>, ws: seq<Val>)
    requires name in env && env[name].StructDef?
    requires var tys := FieldTypes(env[name].fields);
      && AllPlain(env, tys, vs) && AllPlain(env, tys, ws) && AllTyped(env, tys, vs) && AllTyped(env, tys, ws)
      && EncodeAll(env, tys, vs) != EncodeAll(env, tys, ws)
      && Object(env[name].fields, ViewAll(env, tys, vs)) == Object(env[name].fields, ViewAll(env, tys, ws))
    ensures Alike(env, Defined(name), List(vs), List(ws))
  {
    var tys := FieldTypes(env[name].fields);
    TypedAt(env, tys, vs);
    TypedAt(env, tys, ws);
  }

  lemma HiddenPair(env: Env, fields: seq<Field>, i: nat) returns (v: Val, w: Val)
    requires Hides(env, fields, i)
    ensures Unlike(env, fields[i].ty, v, w) && (Shows(fields, i) ==> Alike(env, fields[i].ty, v, w))
  {
    if Shows(fields, i) {
      v, w :| Alike(env, fields[i].ty, v, w);
    } else {
      v, w :| Unlike(env, fields[i].ty, v, w);
    }
  }

  lemma ReplacedObjects(env: Env, fields: seq<Field>, us: seq<Val>, i: nat, v: Val, w: Val)
    requires var tys := FieldTypes(fields);
      AllPlain(env, tys, us) && i < |tys| && Unlike(env, tys[i], v, w)
      && AllPlain(env, tys, us[i := v]) && AllPlain(env, tys, us[i := w])
      && AllTyped(env, tys, us[i := v]) && AllTyped(env, tys, us[i := w])
    requires Shows(fields, i) ==> Alike(env, fields[i].ty, v, w)
    ensures var tys := FieldTypes(fields);
      Object(fields, ViewAll(env, tys, us[i := v])) == Object(fields, ViewAll(env, tys, us[i := w]))
  {
    var tys, vs, ws := FieldTypes(fields), us[i := v], us[i := w];
    ViewAt(env, tys, vs);
    ViewAt(env, tys, ws);
    forall k: nat | Shows(fields, k) ensures ViewAll(env, tys, vs)[k] == ViewAll(env, tys, ws)[k] {
      if k != i { assert vs[k] == us[k] == ws[k]; }
    }
    ObjectsEqual(fields, ViewAll(env, tys, vs), ViewAll(env, tys, ws));
  }

  // ----- enums -----

  ghost predicate SameViews(env: Env, a: seq<Ty>, b: seq<Ty>, vs: seq<Val>, ws: seq<Val>) {
    && AllPlain(env, a, vs) && AllPlain(env, b, ws) && AllTyped(env, a, vs) && AllTyped(env, b, ws)
    && ViewAll(env, a, vs) == ViewAll(env, b, ws)
  }

  /** Two variants of one name, both without fields, or with fields that can view alike. */
  ghost predicate Confusable(env: Env, a: Variant, b: Variant) {
    && a.name == b.name && a.fields.Some? == b.fields.Some?
    && (a.fields.Some? ==> exists vs, ws :: SameViews(env, a.fields.value, b.fields.value, vs, ws))
  }

  /** A variant whose fields all have values and one of them is ambiguous. */
  ghost predicate Blurred(env: Env, a: Variant) {
    a.fields.Some? && AllInhabited(env, a.fields.value)
    && exists i :: 0 <= i < |a.fields.value| && Ambiguous(env, a.fields.value[i])
  }

  ghost predicate Unclear(env: Env, variants: seq<Variant>, i: byte, j: byte) {
    i < |variants| && j < |variants| && if i == j then Blurred(env, variants[i]) else Confusable(env, variants[i], variants[j])
  }

  /** An enum is ambiguous iff a variant's fields are, or two variants that a tag byte can name are confusable. */
  lemma EnumAmbiguousWhen(env: Env, name: string)
    requires name in env && env[name].EnumDef?
    ensures Ambiguous(env, Defined(name)) <==> exists i: byte, j: byte :: Unclear(env, env[name].variants, i, j)
  {
    if v, w :| Alike(env, Defined(name), v, w) { AlikeIsUnclear(env, name, v, w); }
    if i: byte, j: byte :| Unclear(env, env[name].variants, i, j) { UnclearIsAlike(env, name, i, j); }
  }

  lemma AlikeIsUnclear(env: Env, name: string, v: Val, w: Val)
    requires name in env && env[name].EnumDef? && Alike(env, Defined(name), v, w)
    ensures Unclear(env, env[name].variants, v.variant, w.variant)
  {
    var a, b := env[name].variants[v.variant], env[name].variants[w.variant];
    var j := if a.fields.None? then JNull else JArr(ViewAll(env, a.fields.value, v.payload));
    var k := if b.fields.None? then JNull else JArr(ViewAll(env, b.fields.value, w.payload));
    VariantObjectInjective(a.name, j, b.name, k);
    if a.fields.Some? {
      TypedAt(env, a.fields.value, v.payload);
      TypedAt(env, b.fields.value, w.payload);
      assert SameViews(env, a.fields.value, b.fields.value, v.payload, w.payload);
      if v.variant == w.variant {
        assert ListsAlike(env, a.fields.value, v.payload, w.payload);
        ListsAlikeWhen(env, a.fields.value);
      }
    }
  }

  lemma UnclearIsAlike(env: Env, name: string, i: byte, j: byte)
    requires name in env && env[name].EnumDef? && Unclear(env, env[name].variants, i, j)
    ensures Ambiguous(env, Defined(name))
  {
    var a, b := env[name].variants[i], env[name].variants[j];
    if a.fields.None? {
      var v, w := Choice(i, []), Choice(j, []);
      assert View(env, Defined(name), v) == VariantObject(a.name, JNull) == View(env, Defined(name), w);
      SameByte(i, j);
      assert i != j && Encode(env, Defined(name), v) == [i] && Encode(env, Defined(name), w) == [j];
      assert Alike(env, Defined(name), v, w);
    } else if i == j {
      ListsAlikeWhen(env, a.fields.value);
      var vs, ws :| ListsAlike(env, a.fields.value, vs, ws);
      ChoicesAlike(env, name, i, i, vs, ws);
    } else {
      var vs, ws :| SameViews(env, a.fields.value, b.fields.value, vs, ws);
      ChoicesAlike(env, name, i, j, vs, ws);
    }
  }

  lemma SameByte(i: byte, j: byte)
    ensures [i] == [j] ==> i == j
  {
    assert [i][0] == i && [j][0] == j;
  }

  lemma ChoicesAlike(env: Env, name: string, i: byte, j: byte, vs: seq<Val>, ws: seq<Val>)
    requires name in env && env[name].EnumDef? && i < |env[name].variants| && j < |env[name].variants|
    requires var a, b := env[name].variants[i], env[name].variants[j];
      && a.name == b.name && a.fields.Some? && b.fields.Some?
      && SameViews(env, a.fields.value, b.fields.value, vs, ws)
      && (i == j ==> EncodeAll(env, a.fields.value, vs) != EncodeAll(env, a.fields.value, ws))
    ensures Ambiguous(env, Defined(name))
  {
    var tys, others := env[name].variants[i].fields.value, env[name].variants[j].fields.value;
    TypedAt(env, tys, vs);
    TypedAt(env, others, ws);
    assert ([i] + EncodeAll(env, tys, vs))[0] == i && ([j] + EncodeAll(env, others, ws))[0] == j;
    SameAfter([i], EncodeAll(env, tys, vs), EncodeAll(env, others, ws));
    hide AllPlain, EncodeAll, ViewAll, AllTyped, AllUnitTags;
    assert Alike(env, Defined(name), Choice(i, vs), Choice(j, ws));
  }

  // ----- a text and a key that render alike -----

  const TEXT_OR_KEY := EnumDef([Variant([0x41], Some([Prim(String)])), Variant([0x41], Some([Prim(Pubkey)]))])

  /** An enum of two variants A, one with a text and one with a key: 32 ones and the key of 32 zeros are told apart by nothing. */
  lemma TextsRenderAsKeys(env: Env, name: string)
    requires name in env && env[name] == TEXT_OR_KEY
    ensures var text, key := Choice(0, [Text(Base58.Repeated(Base58.ONE, 32))]), Choice(1, [Key(Base58.Repeated(0, 32))]);
      Alike(env, Defined(name), text, key)
  {
    var ones, zeros := Base58.Repeated(Base58.ONE, 32), Base58.Repeated(0, 32);
    OnesAndZeros(env, ones, zeros);
    hide Base58.Repeated, Base58.Encode, View, Encode, Plain, VariantObject;
    OneFieldChoice(env, name, 0, Prim(String), Text(ones));
    OneFieldChoice(env, name, 1, Prim(Pubkey), Key(zeros));
    assert Encode(env, Defined(name), Choice(0, [Text(ones)])) != Encode(env, Defined(name), Choice(1, [Key(zeros)]));
  }

  lemma OnesAndZeros(env: Env, ones: Bytes, zeros: Bytes)
    requires ones == Base58.Repeated(Base58.ONE, 32) && zeros == Base58.Repeated(0, 32)
    ensures Plain(env, Prim(String), Text(ones)) && Plain(env, Prim(Pubkey), Key(zeros))
    ensures View(env, Prim(String), Text(ones)) == View(env, Prim(Pubkey), Key(zeros)) == JText(ones)
  {
    Base58.ZerosAreOnes(32);
    Widths();
    forall x | x in ones ensures x <= 0x7F {
      var i :| 0 <= i < 32 && ones[i] == x;
    }
    hide Base58.Encode, Pow256;
    AsciiIsUtf8(ones);
    hide ValidUtf8;
  }

  lemma OneFieldChoice(env: Env, name: string, i: byte, ty: Ty, v: Val)
    requires name in env && env[name].EnumDef? && i < |env[name].variants| && env[name].variants[i].fields == Some([ty])
    requires Plain(env, ty, v)
    ensures Plain(env, Defined(name), Choice(i, [v]))
    ensures View(env, Defined(name), Choice(i, [v])) == VariantObject(env[name].variants[i].name, JArr([View(env, ty, v)]))
    ensures Encode(env, Defined(name), Choice(i, [v]))[0] == i
  {
    TypedAt(env, [ty], [v]);
    assert AllPlain(env, [ty], [v]);
    ViewAt(env, [ty], [v]);
    assert ViewAll(env, [ty], [v]) == [View(env, ty, v)];
  }

  lemma {:induction false} AsciiIsUtf8(b: Bytes)
    requires forall x :: x in b ==> x <= 0x7F
    ensures ValidUtf8(b)
  {
    if b != [] {
      assert b[0] in b && forall x :: x in b[1..] ==> x in b;
      AsciiIsUtf8(b[1..]);
    }
  }
}
