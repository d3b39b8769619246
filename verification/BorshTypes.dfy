/**
The types of a program's interface description, as the decoder tells them apart, and the decoder
as a function from bytes to JSON and the bytes left over.
*/
module BorshTypes {
  import opened Bytes
  import Base58

  datatype Option<T> = None | Some(value: T)

  datatype Primitive = U8 | U16 | U32 | U64 | I64 | Bool | String | Pubkey | UnknownPrimitive

  datatype Ty =
    | Prim(kind: Primitive)
    | Vec(elem: Ty)
    | Opt(inner: Ty)
    | Array(elem: Ty, len: nat)
    | Defined(name: string)
    | UnknownShape

  /** Names of fields and variants show in the output; like all texts they are kept as their UTF-8 bytes. */
  datatype Field = Field(name: Bytes, ty: Ty)

  datatype Variant = Variant(name: Bytes, fields: Option<seq<Ty>>)

  datatype Def =
    | StructDef(fields: seq<Field>)
    | EnumDef(variants: seq<Variant>)
    | EnumWithoutVariants
    | UnknownKind

  type Env = map<string, Def>

  datatype Json =
    | JNull
    | JBool(flag: bool)
    | JNum(num: int)
    | JText(text: Bytes)
    | JArr(items: seq<Json>)
    | JObj(members: map<Bytes, Json>)

  datatype Error =
    | UnexpectedEof | InvalidBool | InvalidUtf8 | UnsupportedShape | UnsupportedPrimitive
    | VariantsMissing | VariantOutOfBounds | UnsupportedKind

  datatype Parsed<T> = Ok(value: T, rest: Bytes) | Err(error: Error)

  // ----- types that take no byte -----

  ghost predicate EmptyWithin(env: Env, ty: Ty, depth: nat)
    decreases depth
  {
    match ty
    case Array(elem, n) => n == 0 || (depth > 0 && EmptyWithin(env, elem, depth - 1))
    case Defined(name) =>
      && depth > 0 && name in env && env[name].StructDef?
      && forall f :: f in env[name].fields ==> EmptyWithin(env, f.ty, depth - 1)
    case _ => false
  }

  /** Decoding the type reads nothing: arrays of no items, and arrays and structs of such types. */
  ghost predicate TakesNothing(env: Env, ty: Ty) {
    exists depth: nat :: EmptyWithin(env, ty, depth)
  }

  lemma {:induction false} EmptyDeeper(env: Env, ty: Ty, d: nat, e: nat)
    requires EmptyWithin(env, ty, d) && d <= e
    ensures EmptyWithin(env, ty, e)
    decreases d
  {
    match ty
    case Array(elem, n) => if n > 0 { EmptyDeeper(env, elem, d - 1, e - 1); }
    case Defined(name) =>
      forall f | f in env[name].fields ensures EmptyWithin(env, f.ty, e - 1) {
        EmptyDeeper(env, f.ty, d - 1, e - 1);
      }
    case _ =>
  }

  lemma {:induction false} CommonDepth(env: Env, fields: seq<Field>) returns (d: nat)
    requires forall f :: f in fields ==> TakesNothing(env, f.ty)
    ensures forall f :: f in fields ==> EmptyWithin(env, f.ty, d)
  {
    d := 0;
    if fields != [] {
      assert fields == [fields[0]] + fields[1..];
      assert fields[0] in fields;
      var e := CommonDepth(env, fields[1..]);
      var first: nat :| EmptyWithin(env, fields[0].ty, first);
      d := e + first;
      forall f | f in fields ensures EmptyWithin(env, f.ty, d) {
        EmptyDeeper(env, f.ty, if f == fields[0] then first else e, d);
      }
    }
  }

  lemma ArrayTakesNothing(env: Env, elem: Ty, n: nat)
    ensures TakesNothing(env, Array(elem, n)) <==> n == 0 || TakesNothing(env, elem)
  {
    if n == 0 { assert EmptyWithin(env, Array(elem, n), 0); }
    if d: nat :| EmptyWithin(env, elem, d) { assert EmptyWithin(env, Array(elem, n), d + 1); }
    if d: nat :| EmptyWithin(env, Array(elem, n), d) && n > 0 { assert EmptyWithin(env, elem, d - 1); }
  }

  lemma StructTakesNothing(env: Env, name: string)
    requires name in env && env[name].StructDef?
    ensures TakesNothing(env, Defined(name)) <==> forall f :: f in env[name].fields ==> TakesNothing(env, f.ty)
  {
    if forall f :: f in env[name].fields ==> TakesNothing(env, f.ty) {
      var d := CommonDepth(env, env[name].fields);
      assert EmptyWithin(env, Defined(name), d + 1);
    }
    if d: nat :| EmptyWithin(env, Defined(name), d) {
      assert forall f :: f in env[name].fields ==> EmptyWithin(env, f.ty, d - 1);
    }
  }

  // ----- termination: a rank that falls from a struct to the fields entered before any byte is read -----

  type Rank = map<string, nat>

  /** The i-th of the types is decoded where the first of them is. */
  ghost predicate Reached(env: Env, tys: seq<Ty>, i: nat) {
    i < |tys| && forall j :: 0 <= j < i ==> TakesNothing(env, tys[j])
  }

  ghost function TyRank(env: Env, rank: Rank, ty: Ty): nat {
    match ty
    case Array(elem, n) => if n == 0 then 0 else TyRank(env, rank, elem) + 1
    case Defined(n) => if n in env && env[n].StructDef? && n in rank then rank[n] else 0
    case _ => 0
  }

  ghost predicate Ranked(env: Env, rank: Rank) {
    forall n :: n in env && env[n].StructDef? ==>
      n in rank && forall i: nat :: Reached(env, FieldTypes(env[n].fields), i) ==>
                     TyRank(env, rank, env[n].fields[i].ty) < rank[n]
  }

  /** No struct leads back to itself before a byte is read. */
  ghost predicate Grounded(env: Env) {
    exists rank :: Ranked(env, rank)
  }

  ghost function RankOf(env: Env): (rank: Rank)
    requires Grounded(env)
    ensures Ranked(env, rank)
  {
    var rank :| Ranked(env, rank); rank
  }

  ghost function Height(env: Env, ty: Ty): nat
    requires Grounded(env)
  {
    TyRank(env, RankOf(env), ty)
  }

  /** One more than the largest height among the reached of the types. */
  ghost function Reach(env: Env, tys: seq<Ty>): nat
    requires Grounded(env)
  {
    if tys == [] then 0
    else
      var h, rest := Height(env, tys[0]) + 1, if TakesNothing(env, tys[0]) then Reach(env, tys[1..]) else 0;
      if h >= rest then h else rest
  }

  lemma {:induction false} ReachBound(env: Env, tys: seq<Ty>, bound: nat)
    requires Grounded(env)
    requires forall i: nat :: Reached(env, tys, i) ==> Height(env, tys[i]) < bound
    ensures Reach(env, tys) <= bound
  {
    if tys != [] {
      assert Reached(env, tys, 0);
      if TakesNothing(env, tys[0]) {
        forall i: nat | Reached(env, tys[1..], i) ensures Height(env, tys[1..][i]) < bound {
          assert Reached(env, tys, i + 1);
        }
        ReachBound(env, tys[1..], bound);
      }
    }
  }

  lemma ArrayReach(env: Env, elem: Ty, n: nat)
    requires Grounded(env)
    ensures Reach(env, Repeat(elem, n)) <= Height(env, Array(elem, n))
  {
    if n > 0 { ReachBound(env, Repeat(elem, n), Height(env, elem) + 1); }
  }

  lemma StructReach(env: Env, name: string)
    requires Grounded(env) && name in env && env[name].StructDef?
    ensures Reach(env, FieldTypes(env[name].fields)) <= Height(env, Defined(name))
  {
    ReachBound(env, FieldTypes(env[name].fields), Height(env, Defined(name)));
  }

  function Repeat(ty: Ty, n: nat): (tys: seq<Ty>)
    ensures |tys| == n && forall i :: 0 <= i < n ==> tys[i] == ty
  {
    seq(n, _ => ty)
  }

  function FieldTypes(fields: seq<Field>): (tys: seq<Ty>)
    ensures |tys| == |fields| && forall i :: 0 <= i < |tys| ==> tys[i] == fields[i].ty
  {
    seq(|fields|, i requires 0 <= i < |fields| => fields[i].ty)
  }

  /** A JSON object filled by inserting the members in order; a repeated name is overwritten. */
  function Object(fields: seq<Field>, items: seq<Json>): map<Bytes, Json>
    requires |fields| == |items|
  {
    if fields == [] then map[]
    else
      var n := |fields| - 1;
      Object(fields[..n], items[..n])[fields[n].name := items[n]]
  }

  /** The texts "variant" and "value". */
  const VARIANT: Bytes := [0x76, 0x61, 0x72, 0x69, 0x61, 0x6E, 0x74]

  const VALUE: Bytes := [0x76, 0x61, 0x6C, 0x75, 0x65]

  function VariantObject(name: Bytes, payload: Json): Json {
    JObj(map[VARIANT := JText(name), VALUE := payload])
  }

  // ----- the decoder -----

  function DecodePrimitive(kind: Primitive, s: Bytes): (r: Parsed<Json>)
    ensures r.Ok? ==> |r.rest| < |s|
  {
    match kind
    case U8 => DecodeNumber(1, s)
    case U16 => DecodeNumber(2, s)
    case U32 => DecodeNumber(4, s)
    case U64 => DecodeNumber(8, s)
    case I64 =>
      if |s| < 8 then Err(UnexpectedEof) else Ok(JNum(ToSigned(FromLE(s[..8]))), s[8..])
    case Bool =>
      if |s| < 1 then Err(UnexpectedEof)
      else if s[0] == 0 then Ok(JBool(false), s[1..])
      else if s[0] == 1 then Ok(JBool(true), s[1..])
      else Err(InvalidBool)
    case String =>
      if |s| < 4 then Err(UnexpectedEof)
      else
        var n := FromLE(s[..4]);
        if |s| - 4 < n then Err(UnexpectedEof)
        else if !ValidUtf8(s[4..4 + n]) then Err(InvalidUtf8)
        else Ok(JText(s[4..4 + n]), s[4 + n..])
    case Pubkey =>
      if |s| < 32 then Err(UnexpectedEof) else Ok(JText(Base58.Encode(s[..32])), s[32..])
    case UnknownPrimitive => Err(UnsupportedPrimitive)
  }

  function DecodeNumber(w: nat, s: Bytes): Parsed<Json> {
    if |s| < w then Err(UnexpectedEof) else Ok(JNum(FromLE(s[..w])), s[w..])
  }

  function Decode(env: Env, ty: Ty, s: Bytes): (r: Parsed<Json>)
    requires Grounded(env)
    ensures r.Ok? ==> |r.rest| <= |s| && (|r.rest| == |s| ==> TakesNothing(env, ty))
    decreases |s|, 2 * Height(env, ty) + 1, 0
  {
    match ty
    case Prim(kind) => DecodePrimitive(kind, s)
    case Vec(elem) =>
      if |s| < 4 then Err(UnexpectedEof)
      else AsArray(DecodeSeq(env, Repeat(elem, FromLE(s[..4])), s[4..]))
    case Opt(inner) =>
      if |s| < 1 then Err(UnexpectedEof)
      else if s[0] == 0 then Ok(JNull, s[1..])
      else Decode(env, inner, s[1..])
    case Array(elem, n) =>
      ArrayReach(env, elem, n);
      ArrayTakesNothing(env, elem, n);
      AsArray(DecodeSeq(env, Repeat(elem, n), s))
    case Defined(name) =>
      if name !in env then Err(UnsupportedShape)
      else (
        match env[name]
        case StructDef(fields) =>
          StructReach(env, name);
          StructTakesNothing(env, name);
          (match DecodeSeq(env, FieldTypes(fields), s)
           case Ok(items, rest) => Ok(JObj(Object(fields, items)), rest)
           case Err(e) => Err(e))
        case EnumDef(variants) =>
          if |s| < 1 then Err(UnexpectedEof)
          else if |variants| <= s[0] then Err(VariantOutOfBounds)
          else
            var v := variants[s[0]];
            if v.fields.None? then Ok(VariantObject(v.name, JNull), s[1..])
            else (match DecodeSeq(env, v.fields.value, s[1..])
                  case Ok(items, rest) => Ok(VariantObject(v.name, JArr(items)), rest)
                  case Err(e) => Err(e))
        case EnumWithoutVariants =>
          if |s| < 1 then Err(UnexpectedEof) else Err(VariantsMissing)
        case UnknownKind => Err(UnsupportedKind)
      )
    case UnknownShape => Err(UnsupportedShape)
  }

  function AsArray(r: Parsed<seq<Json>>): (a: Parsed<Json>) {
    match r
    case Ok(items, rest) => Ok(JArr(items), rest)
    case Err(e) => Err(e)
  }

  function DecodeSeq(env: Env, tys: seq<Ty>, s: Bytes): (r: Parsed<seq<Json>>)
    requires Grounded(env)
    ensures r.Ok? ==> |r.rest| <= |s| && |r.value| == |tys|
    ensures r.Ok? && |r.rest| == |s| ==> forall i :: 0 <= i < |tys| ==> TakesNothing(env, tys[i])
    decreases |s|, 2 * Reach(env, tys), |tys|
  {
    if tys == [] then Ok([], s)
    else
      match Decode(env, tys[0], s)
      case Err(e) => Err(e)
      case Ok(first, rest) =>
        match DecodeSeq(env, tys[1..], rest)
        case Err(e) => Err(e)
        case Ok(others, end) => Ok([first] + others, end)
  }
}
