/**
How field entries of an interface description become types.  An entry is an object with a name and a
type, or, in tuple structs and tuple variants, the type itself; what has no type where one is looked
for is read as a u8.
*/
module BorshReading {
  import opened Bytes
  import opened BorshTypes
  import opened BorshTermination
  import BorshJson

  datatype Entry = Named(name: Option<Bytes>, ty: Option<Ty>) | Bare(bare: Ty)

  /** The text "field". */
  const FIELD: Bytes := [0x66, 0x69, 0x65, 0x6C, 0x64]

  function OrElse<T>(o: Option<T>, t: T): T { if o.Some? then o.value else t }

  /** A struct looks for a name and a type in every entry. */
  function ReadField(e: Entry): Field {
    match e
    case Named(name, ty) => Field(OrElse(name, FIELD), OrElse(ty, Prim(U8)))
    case Bare(_) => Field(FIELD, Prim(U8))
  }

  /** A variant looks for a type in entries that are objects; primitive types are texts. */
  function ReadType(e: Entry): Ty {
    match e
    case Named(_, ty) => OrElse(ty, Prim(U8))
    case Bare(ty) => if ty.Prim? then ty else Prim(U8)
  }

  function ReadFields(es: seq<Entry>): (fields: seq<Field>)
    ensures |fields| == |es| && forall i :: 0 <= i < |es| ==> fields[i] == ReadField(es[i])
  {
    seq(|es|, i requires 0 <= i < |es| => ReadField(es[i]))
  }

  function ReadTypes(es: seq<Entry>): (tys: seq<Ty>)
    ensures |tys| == |es| && forall i :: 0 <= i < |es| ==> tys[i] == ReadType(es[i])
  {
    seq(|es|, i requires 0 <= i < |es| => ReadType(es[i]))
  }

  function Described(e: Entry): Option<Ty> {
    match e
    case Named(_, ty) => ty
    case Bare(ty) => Some(ty)
  }

  ghost predicate AsDescribed(es: seq<Entry>, tys: seq<Ty>)
    requires |tys| == |es|
  {
    forall i :: 0 <= i < |es| ==> Described(es[i]) == Some(tys[i])
  }

  predicate Typed(e: Entry) { e.Named? && e.ty.Some? }

  /** A struct is read as described iff every entry has a type under that name, or is a bare u8. */
  lemma StructReadWhen(es: seq<Entry>)
    ensures AsDescribed(es, FieldTypes(ReadFields(es)))
      <==> forall i :: 0 <= i < |es| ==> Typed(es[i]) || es[i] == Bare(Prim(U8))
  {
    var tys := FieldTypes(ReadFields(es));
    forall i | 0 <= i < |es|
      ensures Described(es[i]) == Some(tys[i]) <==> Typed(es[i]) || es[i] == Bare(Prim(U8))
    {
      assert tys[i] == ReadField(es[i]).ty;
    }
  }

  /** A variant is read as described iff every entry has a type under that name, or is a bare primitive. */
  lemma VariantReadWhen(es: seq<Entry>)
    ensures AsDescribed(es, ReadTypes(es)) <==> forall i :: 0 <= i < |es| ==> Typed(es[i]) || (es[i].Bare? && es[i].bare.Prim?)
  {
    var tys := ReadTypes(es);
    forall i | 0 <= i < |es|
      ensures Described(es[i]) == Some(tys[i]) <==> Typed(es[i]) || (es[i].Bare? && es[i].bare.Prim?)
    {
      assert tys[i] == ReadType(es[i]);
    }
  }

  /** Bare entries of a struct share one name, so that the object shows the last of them only. */
  lemma BareFieldsShareAName(es: seq<Entry>, items: seq<Json>)
    requires |items| == |es| > 0 && forall i :: 0 <= i < |es| ==> es[i].Bare?
    ensures Object(ReadFields(es), items) == map[BorshJson.Ascii("field") := items[|es| - 1]]
  {
    var n := |es| - 1;
    var fields := ReadFields(es);
    assert FIELD == BorshJson.Ascii("field");
    assert fields[n].name == FIELD;
    if n > 0 {
      assert fields[..n] == ReadFields(es[..n]);
      BareFieldsShareAName(es[..n], items[..n]);
    } else {
      assert fields[..0] == [];
    }
  }

  /** A tuple struct of one u16: described, it takes two bytes; read, it takes one, and another value. */
  lemma TupleStructMisread(env: Env, name: string, lo: byte, hi: byte, d: nat)
    requires name in env && env[name] == StructDef(ReadFields([Bare(Prim(U16))])) && d >= 1
    ensures Within(env, Prim(U16), [lo, hi], d) == Some(Ok(JNum(lo + 256 * hi), []))
    ensures Within(env, Defined(name), [lo, hi], d) == Some(Ok(JObj(map[FIELD := JNum(lo)]), [hi]))
  {
    var fields, s := ReadFields([Bare(Prim(U16))]), [lo, hi];
    assert FromLE([lo]) == lo && FromLE(s) == lo + 256 * hi by { Numbers(lo, hi); }
    assert s[..2] == s && s[2..] == [] && s[..1] == [lo] && s[1..] == [hi];
    assert FieldTypes(fields) == [Prim(U8)];
    assert Within(env, Prim(U8), s, d - 1) == Some(Ok(JNum(lo), [hi]));
    OneType(env, Prim(U8), s, d - 1, JNum(lo), [hi]);
    assert fields[..0] == [] && [JNum(lo)][..0] == [];
    assert Object(fields, [JNum(lo)]) == map[FIELD := JNum(lo)];
  }

  lemma OneType(env: Env, ty: Ty, s: Bytes, d: nat, j: Json, rest: Bytes)
    requires Within(env, ty, s, d) == Some(Ok(j, rest))
    ensures SeqWithin(env, [ty], s, d) == Some(Ok([j], rest))
  {
    var tys: seq<Ty>, none: seq<Ty> := [ty], [];
    assert tys[0] == ty && tys[1..] == none;
    assert SeqWithin(env, none, rest, d) == Some(Ok([], rest));
    assert [j] + [] == [j];
  }

  lemma Numbers(lo: byte, hi: byte)
    ensures FromLE([lo]) == lo && FromLE([lo, hi]) == lo + 256 * hi
  {
    assert [lo][1..] == [] && [lo, hi][1..] == [hi] && [hi][1..] == [];
    assert FromLE([hi]) == hi;
  }
}
