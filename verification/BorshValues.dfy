/**
The values of a described type, their Borsh encoding and their JSON view, and the theorem that the
decoder inverts the encoding: it accepts exactly the encodings, and returns the view.
*/
module BorshValues {
  import opened Bytes
  import opened BorshTypes
  import Base58

  /**
  A value.  `Present` keeps the tag byte it was encoded with: the decoder takes every non-zero tag
  for a present option.
  */
  datatype Val =
    | Num(n: int)
    | Flag(b: bool)
    | Text(text: Bytes)
    | Key(key: Bytes)
    | List(items: seq<Val>)
    | Absent
    | Present(tag: byte, inner: Val)
    | Choice(variant: byte, payload: seq<Val>)

  ghost predicate HasPrimitive(kind: Primitive, v: Val) {
    match kind
    case U8 => v.Num? && 0 <= v.n < Pow256(1)
    case U16 => v.Num? && 0 <= v.n < Pow256(2)
    case U32 => v.Num? && 0 <= v.n < Pow256(4)
    case U64 => v.Num? && 0 <= v.n < Pow256(8)
    case I64 => v.Num? && -TWO_63 <= v.n < TWO_63
    case Bool => v.Flag?
    case String => v.Text? && |v.text| < Pow256(4) && ValidUtf8(v.text)
    case Pubkey => v.Key? && |v.key| == 32
    case UnknownPrimitive => false
  }

  ghost predicate HasType(env: Env, ty: Ty, v: Val)
    decreases v, 1
  {
    match ty
    case Prim(kind) => HasPrimitive(kind, v)
    case Vec(elem) =>
      v.List? && |v.items| < Pow256(4) && AllTyped(env, Repeat(elem, |v.items|), v.items)
    case Opt(inner) => v.Absent? || (v.Present? && v.tag != 0 && HasType(env, inner, v.inner))
    case Array(elem, n) => v.List? && |v.items| == n && AllTyped(env, Repeat(elem, n), v.items)
    case Defined(name) =>
      name in env && (
        match env[name]
        case StructDef(fields) =>
          v.List? && |v.items| == |fields| && AllTyped(env, FieldTypes(fields), v.items)
        case EnumDef(variants) =>
          v.Choice? && v.variant < |variants| && (
            match variants[v.variant].fields
            case None => v.payload == []
            case Some(tys) => |v.payload| == |tys| && AllTyped(env, tys, v.payload))
        case _ => false
      )
    case UnknownShape => false
  }

  ghost predicate AllTyped(env: Env, tys: seq<Ty>, vs: seq<Val>)
    requires |tys| == |vs|
    decreases vs, 0
  {
    vs == [] || (HasType(env, tys[0], vs[0]) && AllTyped(env, tys[1..], vs[1..]))
  }

  // ----- encoding -----

  ghost function EncodePrimitive(kind: Primitive, v: Val): Bytes
    requires HasPrimitive(kind, v)
  {
    match kind
    case U8 => ToLE(v.n, 1)
    case U16 => ToLE(v.n, 2)
    case U32 => ToLE(v.n, 4)
    case U64 => ToLE(v.n, 8)
    case I64 => ToLE(ToUnsigned(v.n), 8)
    case Bool => [if v.b then 1 else 0]
    case String => ToLE(|v.text|, 4) + v.text
    case Pubkey => v.key
  }

  ghost function Encode(env: Env, ty: Ty, v: Val): Bytes
    requires HasType(env, ty, v)
    decreases v, 1
  {
    match ty
    case Prim(kind) => EncodePrimitive(kind, v)
    case Vec(elem) => ToLE(|v.items|, 4) + EncodeAll(env, Repeat(elem, |v.items|), v.items)
    case Opt(inner) => if v.Absent? then [0] else [v.tag] + Encode(env, inner, v.inner)
    case Array(elem, n) => EncodeAll(env, Repeat(elem, n), v.items)
    case Defined(name) =>
      match env[name]
      case StructDef(fields) => EncodeAll(env, FieldTypes(fields), v.items)
      case EnumDef(variants) =>
        match variants[v.variant].fields
        case None => [v.variant]
        case Some(tys) => [v.variant] + EncodeAll(env, tys, v.payload)
  }

  ghost function EncodeAll(env: Env, tys: seq<Ty>, vs: seq<Val>): Bytes
    requires |tys| == |vs| && AllTyped(env, tys, vs)
    decreases vs, 0
  {
    if vs == [] then [] else Encode(env, tys[0], vs[0]) + EncodeAll(env, tys[1..], vs[1..])
  }

  // ----- JSON view -----

  ghost function ViewPrimitive(v: Val): Json {
    match v
    case Num(n) => JNum(n)
    case Flag(b) => JBool(b)
    case Text(t) => JText(t)
    case Key(k) => JText(Base58.Encode(k))
    case _ => JNull
  }

  ghost function View(env: Env, ty: Ty, v: Val): Json
    requires HasType(env, ty, v)
    decreases v, 1
  {
    match ty
    case Prim(_) => ViewPrimitive(v)
    case Vec(elem) => JArr(ViewAll(env, Repeat(elem, |v.items|), v.items))
    case Opt(inner) => if v.Absent? then JNull else View(env, inner, v.inner)
    case Array(elem, n) => JArr(ViewAll(env, Repeat(elem, n), v.items))
    case Defined(name) =>
      match env[name]
      case StructDef(fields) => JObj(Object(fields, ViewAll(env, FieldTypes(fields), v.items)))
      case EnumDef(variants) =>
        var variant := variants[v.variant];
        match variant.fields
        case None => VariantObject(variant.name, JNull)
        case Some(tys) => VariantObject(variant.name, JArr(ViewAll(env, tys, v.payload)))
  }

  ghost function ViewAll(env: Env, tys: seq<Ty>, vs: seq<Val>): (js: seq<Json>)
    requires |tys| == |vs| && AllTyped(env, tys, vs)
    ensures |js| == |vs|
    decreases vs, 0
  {
    if vs == [] then [] else [View(env, tys[0], vs[0])] + ViewAll(env, tys[1..], vs[1..])
  }

  // ----- the decoder inverts the encoding -----

  lemma NumberRoundTrip(n: nat, w: nat, rest: Bytes)
    requires n < Pow256(w)
    ensures DecodeNumber(w, ToLE(n, w) + rest) == Ok(JNum(n), rest)
  {
    FromToLE(n, w);
    var s := ToLE(n, w) + rest;
    assert s[..w] == ToLE(n, w) && s[w..] == rest;
  }

  lemma PrimitiveRoundTrip(kind: Primitive, v: Val, rest: Bytes)
    requires HasPrimitive(kind, v)
    ensures DecodePrimitive(kind, EncodePrimitive(kind, v) + rest) == Ok(ViewPrimitive(v), rest)
  {
    Widths();
    var s := EncodePrimitive(kind, v) + rest;
    match kind
    case U8 => NumberRoundTrip(v.n, 1, rest);
    case U16 => NumberRoundTrip(v.n, 2, rest);
    case U32 => NumberRoundTrip(v.n, 4, rest);
    case U64 => NumberRoundTrip(v.n, 8, rest);
    case I64 =>
      NumberRoundTrip(ToUnsigned(v.n), 8, rest);
      assert s[8..] == rest;
    case Bool => assert s[1..] == rest;
    case String =>
      var n := |v.text|;
      FromToLE(n, 4);
      assert s[..4] == ToLE(n, 4) && s[4..4 + n] == v.text && s[4 + n..] == rest;
    case Pubkey => assert s[..32] == v.key && s[32..] == rest;
  }

  /** Decoding an encoding followed by anything gives the view and stops exactly at its end. */
  lemma {:induction false} RoundTrip(env: Env, ty: Ty, v: Val, rest: Bytes)
    requires Grounded(env) && HasType(env, ty, v)
    ensures Decode(env, ty, Encode(env, ty, v) + rest) == Ok(View(env, ty, v), rest)
    decreases v, 1
  {
    var s := Encode(env, ty, v) + rest;
    match ty
    case Prim(kind) => PrimitiveRoundTrip(kind, v, rest);
    case Vec(elem) =>
      FromToLE(|v.items|, 4);
      assert s[..4] == ToLE(|v.items|, 4);
      assert s[4..] == EncodeAll(env, Repeat(elem, |v.items|), v.items) + rest;
      RoundTripAll(env, Repeat(elem, |v.items|), v.items, rest);
    case Opt(inner) =>
      if v.Absent? {
        assert s[1..] == rest;
      } else {
        assert s[1..] == Encode(env, inner, v.inner) + rest;
        RoundTrip(env, inner, v.inner, rest);
      }
    case Array(elem, n) => RoundTripAll(env, Repeat(elem, n), v.items, rest);
    case Defined(name) =>
      match env[name] {
        case StructDef(fields) => RoundTripAll(env, FieldTypes(fields), v.items, rest);
        case EnumDef(variants) =>
          match variants[v.variant].fields {
            case None => assert s[1..] == rest;
            case Some(tys) =>
              assert s[1..] == EncodeAll(env, tys, v.payload) + rest;
              RoundTripAll(env, tys, v.payload, rest);
          }
      }
  }

  lemma {:induction false} RoundTripAll(env: Env, tys: seq<Ty>, vs: seq<Val>, rest: Bytes)
    requires Grounded(env) && |tys| == |vs| && AllTyped(env, tys, vs)
    ensures DecodeSeq(env, tys, EncodeAll(env, tys, vs) + rest) == Ok(ViewAll(env, tys, vs), rest)
    decreases vs, 0
  {
    if vs == [] {
      assert EncodeAll(env, tys, vs) + rest == rest;
    } else {
      var tail := EncodeAll(env, tys[1..], vs[1..]) + rest;
      assert EncodeAll(env, tys, vs) + rest == Encode(env, tys[0], vs[0]) + tail;
      RoundTrip(env, tys[0], vs[0], tail);
      RoundTripAll(env, tys[1..], vs[1..], rest);
    }
  }

  lemma NumberSound(w: nat, s: Bytes) returns (v: Val)
    requires w <= |s|
    ensures v == Num(FromLE(s[..w])) && 0 <= v.n < Pow256(w) && s == ToLE(v.n, w) + s[w..]
  {
    v := Num(FromLE(s[..w]));
    ToFromLE(s[..w]);
    assert s == s[..w] + s[w..];
  }

  lemma TextSound(s: Bytes) returns (v: Val)
    requires DecodePrimitive(String, s).Ok?
    ensures HasPrimitive(String, v)
    ensures var r := DecodePrimitive(String, s);
      ViewPrimitive(v) == r.value && s == EncodePrimitive(String, v) + r.rest
  {
    var n := NumberSound(4, s);
    v := Text(s[4..4 + n.n]);
    var tail := s[4 + n.n..];
    assert s[4..] == v.text + tail;
    hide ToLE, FromLE, ValidUtf8;
    assert ToLE(n.n, 4) + (v.text + tail) == (ToLE(n.n, 4) + v.text) + tail;
  }

  lemma PrimitiveSound(kind: Primitive, s: Bytes) returns (v: Val)
    requires DecodePrimitive(kind, s).Ok?
    ensures HasPrimitive(kind, v)
    ensures var r := DecodePrimitive(kind, s);
      ViewPrimitive(v) == r.value && s == EncodePrimitive(kind, v) + r.rest
  {
    hide FromLE, ToLE, Pow256, ValidUtf8;
    match kind
    case U8 => v := NumberSound(1, s);
    case U16 => v := NumberSound(2, s);
    case U32 => v := NumberSound(4, s);
    case U64 => v := NumberSound(8, s);
    case I64 =>
      Widths();
      var u := NumberSound(8, s);
      v := Num(ToSigned(u.n));
    case Bool =>
      v := Flag(s[0] == 1);
      assert s == [s[0]] + s[1..];
    case String => v := TextSound(s);
    case Pubkey =>
      v := Key(s[..32]);
      assert s == s[..32] + s[32..];
  }

  /** Whatever the decoder accepts is the encoding of a value of the type, with that view. */
  lemma {:induction false} Sound(env: Env, ty: Ty, s: Bytes) returns (v: Val)
    requires Grounded(env) && Decode(env, ty, s).Ok?
    ensures HasType(env, ty, v)
    ensures var r := Decode(env, ty, s);
      View(env, ty, v) == r.value && s == Encode(env, ty, v) + r.rest
    decreases |s|, 2 * Height(env, ty) + 1, 1
  {
    match ty
    case Prim(kind) => v := PrimitiveSound(kind, s);
    case Vec(elem) =>
      var count := NumberSound(4, s);
      var vs := SoundAll(env, Repeat(elem, count.n), s[4..]);
      v := List(vs);
      Regroup(s, ToLE(count.n, 4), EncodeAll(env, Repeat(elem, count.n), vs),
              DecodeSeq(env, Repeat(elem, count.n), s[4..]).rest);
    case Opt(inner) =>
      assert s == [s[0]] + s[1..];
      if s[0] == 0 {
        v := Absent;
      } else {
        var w := Sound(env, inner, s[1..]);
        v := Present(s[0], w);
        Regroup(s, [s[0]], Encode(env, inner, w), Decode(env, inner, s[1..]).rest);
      }
    case Array(elem, n) =>
      ArrayReach(env, elem, n);
      var vs := SoundAll(env, Repeat(elem, n), s);
      v := List(vs);
    case Defined(name) =>
      match env[name] {
        case StructDef(fields) =>
          StructReach(env, name);
          var vs := SoundAll(env, FieldTypes(fields), s);
          v := List(vs);
        case EnumDef(_) => v := SoundEnum(env, name, s);
      }
  }

  lemma {:induction false} SoundEnum(env: Env, name: string, s: Bytes) returns (v: Val)
    requires Grounded(env) && Decode(env, Defined(name), s).Ok? && env[name].EnumDef?
    ensures HasType(env, Defined(name), v)
    ensures var r := Decode(env, Defined(name), s);
      View(env, Defined(name), v) == r.value && s == Encode(env, Defined(name), v) + r.rest
    decreases |s|, 2 * Height(env, Defined(name)) + 1, 0
  {
    assert s == [s[0]] + s[1..];
    match env[name].variants[s[0]].fields
    case None => v := Choice(s[0], []);
    case Some(tys) =>
      var vs := SoundAll(env, tys, s[1..]);
      v := Choice(s[0], vs);
      Regroup(s, [s[0]], EncodeAll(env, tys, vs), DecodeSeq(env, tys, s[1..]).rest);
  }

  lemma Regroup(s: Bytes, head: Bytes, body: Bytes, rest: Bytes)
    requires s == head + (body + rest)
    ensures s == (head + body) + rest
  {
  }

  lemma {:induction false} SoundAll(env: Env, tys: seq<Ty>, s: Bytes) returns (vs: seq<Val>)
    requires Grounded(env) && DecodeSeq(env, tys, s).Ok?
    ensures |vs| == |tys| && AllTyped(env, tys, vs)
    ensures var r := DecodeSeq(env, tys, s);
      ViewAll(env, tys, vs) == r.value && s == EncodeAll(env, tys, vs) + r.rest
    decreases |s|, 2 * Reach(env, tys), |tys|
  {
    if tys == [] {
      vs := [];
    } else {
      var first := Sound(env, tys[0], s);
      var others := SoundAll(env, tys[1..], Decode(env, tys[0], s).rest);
      vs := [first] + others;
      assert vs[1..] == others;
      var mid := Decode(env, tys[0], s).rest;
      Regroup(s, Encode(env, tys[0], first), EncodeAll(env, tys[1..], others),
              DecodeSeq(env, tys[1..], mid).rest);
    }
  }

  /** The decoder succeeds exactly on the encodings, and then returns the view. */
  lemma DecodesExactly(env: Env, ty: Ty, s: Bytes, j: Json, rest: Bytes)
    requires Grounded(env)
    ensures Decode(env, ty, s) == Ok(j, rest)
      <==> exists v :: HasType(env, ty, v) && s == Encode(env, ty, v) + rest && View(env, ty, v) == j
  {
    if Decode(env, ty, s) == Ok(j, rest) {
      var v := Sound(env, ty, s);
      assert HasType(env, ty, v) && s == Encode(env, ty, v) + rest && View(env, ty, v) == j;
    }
    forall v | HasType(env, ty, v) && s == Encode(env, ty, v) + rest && View(env, ty, v) == j
      ensures Decode(env, ty, s) == Ok(j, rest)
    {
      RoundTrip(env, ty, v, rest);
    }
  }

  // ----- prefixes -----

  /** Bytes after the consumed span never change the result. */
  lemma TrailingBytesIgnored(env: Env, ty: Ty, s: Bytes, more: Bytes)
    requires Grounded(env) && Decode(env, ty, s).Ok?
    ensures var r := Decode(env, ty, s);
      Decode(env, ty, s + more) == Ok(r.value, r.rest + more)
  {
    var v := Sound(env, ty, s);
    var r := Decode(env, ty, s);
    assert s + more == Encode(env, ty, v) + (r.rest + more);
    RoundTrip(env, ty, v, r.rest + more);
  }

  /** Cutting into the consumed span makes decoding fail. */
  lemma TruncationFails(env: Env, ty: Ty, s: Bytes, cut: nat)
    requires Grounded(env) && Decode(env, ty, s).Ok?
    requires cut < |s| - |Decode(env, ty, s).rest|
    ensures Decode(env, ty, s[..cut]).Err?
  {
    var kept, lost := s[..cut], s[cut..];
    assert kept + lost == s;
    if Decode(env, ty, kept).Ok? { TrailingBytesIgnored(env, ty, kept, lost); }
  }

  /** No encoding of a type is a proper prefix of another encoding of it. */
  lemma PrefixFree(env: Env, ty: Ty, v: Val, w: Val, more: Bytes)
    requires Grounded(env) && HasType(env, ty, v) && HasType(env, ty, w)
    requires Encode(env, ty, v) + more == Encode(env, ty, w)
    ensures more == [] && View(env, ty, v) == View(env, ty, w)
  {
    RoundTrip(env, ty, v, more);
    RoundTrip(env, ty, w, []);
    assert Encode(env, ty, w) + [] == Encode(env, ty, w);
  }
}
