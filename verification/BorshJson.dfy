/**
What decoding gives, written out: for every kind of type, which inputs are accepted and which JSON they
become, with the texts, the numbers and the errors as such.
*/
module BorshJson {
  import opened Bytes
  import opened BorshTypes
  import Base58

  /** A text of ASCII characters as its bytes. */
  function Ascii(s: string): (b: Bytes)
    ensures |b| == |s| && forall i :: 0 <= i < |s| ==> b[i] == AsciiByte(s[i])
  {
    seq(|s|, i requires 0 <= i < |s| => AsciiByte(s[i]))
  }

  function AsciiByte(c: char): byte { if c as int < 128 then c as int else 0 }

  // ----- primitives -----

  /** Unsigned numbers: the bytes that the type names, or the end of the input. */
  lemma UnsignedReads(env: Env, kind: Primitive, w: nat, s: Bytes)
    requires Grounded(env)
    requires (kind, w) in {(U8, 1), (U16, 2), (U32, 4), (U64, 8)}
    ensures Decode(env, Prim(kind), s) == if |s| < w then Err(UnexpectedEof) else Ok(JNum(NumberOf(s[..w])), s[w..])
  {
    if |s| >= w { NumberIs(s[..w]); }
  }

  /** A signed number is its unsigned one, or 2^64 less from 2^63 on. */
  lemma SignedReads(env: Env, s: Bytes)
    requires Grounded(env)
    ensures if |s| < 8 then Decode(env, Prim(I64), s) == Err(UnexpectedEof)
      else var u := NumberOf(s[..8]);
        Decode(env, Prim(I64), s)
        == Ok(JNum(if u < 0x8000_0000_0000_0000 then u else u - 0x1_0000_0000_0000_0000), s[8..])
  {
    if |s| >= 8 { NumberIs(s[..8]); }
  }

  /** A truth value is a byte 0 or 1, and any other byte an error. */
  lemma BoolReads(env: Env, s: Bytes)
    requires Grounded(env)
    ensures Decode(env, Prim(Bool), s) ==
      if s == [] then Err(UnexpectedEof)
      else if s[0] in {0, 1} then Ok(JBool(s[0] == 1), s[1..])
      else Err(InvalidBool)
  {
  }

  /** A string is its length in four bytes and then its text, which must be UTF-8. */
  lemma StringReads(env: Env, s: Bytes)
    requires Grounded(env)
    ensures if |s| < 4 || |s| - 4 < NumberOf(s[..4]) then Decode(env, Prim(String), s) == Err(UnexpectedEof)
      else var n := NumberOf(s[..4]);
        Decode(env, Prim(String), s)
        == if ValidUtf8(s[4..4 + n]) then Ok(JText(s[4..4 + n]), s[4 + n..]) else Err(InvalidUtf8)
  {
    if |s| >= 4 { NumberIs(s[..4]); }
  }

  /** A public key is 32 bytes, shown in base58. */
  lemma KeyReads(env: Env, s: Bytes)
    requires Grounded(env)
    ensures Decode(env, Prim(Pubkey), s) == if |s| < 32 then Err(UnexpectedEof) else Ok(JText(Base58.Encode(s[..32])), s[32..])
  {
  }

  // ----- one after another -----

  /** The types are decoded one after another: each starts where the one before it ended. */
  ghost predicate Chain(env: Env, tys: seq<Ty>, s: Bytes, items: seq<Json>, rest: Bytes, rests: seq<Bytes>)
    requires Grounded(env)
  {
    && |items| == |tys| && |rests| == |tys| + 1 && rests[0] == s && rests[|tys|] == rest
    && forall i :: 0 <= i < |tys| ==> Decode(env, tys[i], rests[i]) == Ok(items[i], rests[i + 1])
  }

  ghost predicate Follow(env: Env, tys: seq<Ty>, s: Bytes, items: seq<Json>, rest: Bytes)
    requires Grounded(env)
  {
    exists rests :: Chain(env, tys, s, items, rest, rests)
  }

  lemma {:induction false} ChainOf(env: Env, tys: seq<Ty>, s: Bytes) returns (rests: seq<Bytes>)
    requires Grounded(env) && DecodeSeq(env, tys, s).Ok?
    ensures var r := DecodeSeq(env, tys, s); Chain(env, tys, s, r.value, r.rest, rests)
    decreases |tys|
  {
    hide Decode, Grounded;
    if tys == [] {
      rests := [s];
    } else {
      var first := Decode(env, tys[0], s);
      var more := ChainOf(env, tys[1..], first.rest);
      rests := [s] + more;
      var r := DecodeSeq(env, tys, s);
      assert r.value == [first.value] + DecodeSeq(env, tys[1..], first.rest).value;
      forall i | 0 <= i < |tys| ensures Decode(env, tys[i], rests[i]) == Ok(r.value[i], rests[i + 1]) {
        if i > 0 { assert tys[1..][i - 1] == tys[i] && more[i - 1] == rests[i]; }
      }
    }
  }

  lemma {:induction false} ChainIs(env: Env, tys: seq<Ty>, s: Bytes, items: seq<Json>, rest: Bytes, rests: seq<Bytes>)
    requires Grounded(env) && Chain(env, tys, s, items, rest, rests)
    ensures DecodeSeq(env, tys, s) == Ok(items, rest)
    decreases |tys|
  {
    hide Decode, Grounded;
    if tys != [] {
      forall i | 0 <= i < |tys[1..]|
        ensures Decode(env, tys[1..][i], rests[1..][i]) == Ok(items[1..][i], rests[1..][i + 1])
      {
        assert tys[1..][i] == tys[i + 1] && rests[1..][i] == rests[i + 1];
        assert items[1..][i] == items[i + 1] && rests[1..][i + 1] == rests[i + 2];
      }
      assert Decode(env, tys[0], rests[0]) == Ok(items[0], rests[1]);
      ChainIs(env, tys[1..], rests[1], items[1..], rest, rests[1..]);
      assert items == [items[0]] + items[1..];
    }
  }

  lemma FollowsExactly(env: Env, tys: seq<Ty>, s: Bytes, items: seq<Json>, rest: Bytes)
    requires Grounded(env)
    ensures DecodeSeq(env, tys, s) == Ok(items, rest) <==> Follow(env, tys, s, items, rest)
  {
    hide DecodeSeq, Decode, Grounded;
    if DecodeSeq(env, tys, s) == Ok(items, rest) { var rests := ChainOf(env, tys, s); }
    if Follow(env, tys, s, items, rest) {
      var rests :| Chain(env, tys, s, items, rest, rests);
      ChainIs(env, tys, s, items, rest, rests);
    }
  }

  /** Decoding fails with the error of the first item that does. */
  ghost predicate FailsAfter(env: Env, tys: seq<Ty>, s: Bytes, n: nat, items: seq<Json>, rest: Bytes, e: Error)
    requires Grounded(env)
  {
    n < |tys| && Follow(env, tys[..n], s, items, rest) && Decode(env, tys[n], rest) == Err(e)
  }

  lemma {:induction false} FailsAt(env: Env, tys: seq<Ty>, s: Bytes) returns (n: nat, items: seq<Json>, rest: Bytes)
    requires Grounded(env) && DecodeSeq(env, tys, s).Err?
    ensures FailsAfter(env, tys, s, n, items, rest, DecodeSeq(env, tys, s).error)
    decreases |tys|
  {
    hide Decode, Grounded, Follow;
    var first := Decode(env, tys[0], s);
    if first.Err? {
      n, items, rest := 0, [], s;
      FollowsExactly(env, tys[..0], s, [], s);
    } else {
      n, items, rest := FailsAt(env, tys[1..], first.rest);
      FollowsExactly(env, tys[1..][..n], first.rest, items, rest);
      assert tys[..n + 1][0] == tys[0] && tys[..n + 1][1..] == tys[1..][..n];
      FollowsExactly(env, tys[..n + 1], s, [first.value] + items, rest);
      n, items := n + 1, [first.value] + items;
    }
  }

  lemma FailsExactly(env: Env, tys: seq<Ty>, s: Bytes, e: Error)
    requires Grounded(env)
    ensures DecodeSeq(env, tys, s) == Err(e) <==> exists n: nat, items, rest :: FailsAfter(env, tys, s, n, items, rest, e)
  {
    hide DecodeSeq, Decode, Grounded, Follow;
    if DecodeSeq(env, tys, s) == Err(e) { var n, items, rest := FailsAt(env, tys, s); }
    if n: nat, items, rest :| FailsAfter(env, tys, s, n, items, rest, e) {
      FollowsExactly(env, tys[..n], s, items, rest);
      assert tys[..n] + tys[n..] == tys && tys[n..][0] == tys[n];
      SplitFails(env, tys[..n], tys[n..], s);
    }
  }

  /** After a first part that is decoded, the whole fails as the item after it does. */
  lemma {:induction false} SplitFails(env: Env, a: seq<Ty>, b: seq<Ty>, s: Bytes)
    requires Grounded(env) && DecodeSeq(env, a, s).Ok? && b != []
    requires Decode(env, b[0], DecodeSeq(env, a, s).rest).Err?
    ensures DecodeSeq(env, a + b, s) == Err(Decode(env, b[0], DecodeSeq(env, a, s).rest).error)
    decreases |a|
  {
    hide Decode, Grounded;
    if a == [] {
      assert a + b == b;
    } else {
      assert (a + b)[0] == a[0] && (a + b)[1..] == a[1..] + b;
      SplitFails(env, a[1..], b, Decode(env, a[0], s).rest);
    }
  }

  // ----- shapes -----

  /** A vec is its length in four bytes and then that many items, shown as an array in their order. */
  lemma VecReads(env: Env, elem: Ty, s: Bytes, j: Json, rest: Bytes)
    requires Grounded(env)
    ensures Decode(env, Vec(elem), s) == Ok(j, rest)
      <==> |s| >= 4 && j.JArr? && |j.items| == NumberOf(s[..4])
           && Follow(env, seq(|j.items|, _ => elem), s[4..], j.items, rest)
  {
    if |s| >= 4 {
      NumberIs(s[..4]);
      var n := FromLE(s[..4]);
      assert Repeat(elem, n) == seq(n, _ => elem);
      var r := DecodeSeq(env, Repeat(elem, n), s[4..]);
      hide DecodeSeq, FromLE, NumberOf, Follow, Grounded;
      if j.JArr? { FollowsExactly(env, Repeat(elem, n), s[4..], j.items, rest); }
    }
  }

  /** An array is as many items as its type says. */
  lemma ArrayReads(env: Env, elem: Ty, n: nat, s: Bytes, j: Json, rest: Bytes)
    requires Grounded(env)
    ensures Decode(env, Array(elem, n), s) == Ok(j, rest)
      <==> j.JArr? && Follow(env, seq(n, _ => elem), s, j.items, rest)
  {
    assert Repeat(elem, n) == seq(n, _ => elem);
    hide DecodeSeq, Follow, Grounded;
    if j.JArr? { FollowsExactly(env, Repeat(elem, n), s, j.items, rest); }
  }

  /** An option is null for a byte 0, and for any other byte what follows it. */
  lemma OptionReads(env: Env, inner: Ty, s: Bytes)
    requires Grounded(env)
    ensures Decode(env, Opt(inner), s) ==
      if s == [] then Err(UnexpectedEof)
      else if s[0] == 0 then Ok(JNull, s[1..])
      else Decode(env, inner, s[1..])
  {
  }

  /** The i-th field is the last of its name. */
  ghost predicate LastOfName(fields: seq<Field>, i: nat) {
    i < |fields| && forall k :: i < k < |fields| ==> fields[k].name != fields[i].name
  }

  ghost function NamesOf(fields: seq<Field>): set<Bytes> { set f | f in fields :: f.name }

  lemma {:induction false} ObjectKeys(fields: seq<Field>, items: seq<Json>)
    requires |fields| == |items|
    ensures Object(fields, items).Keys == NamesOf(fields)
  {
    if fields != [] {
      var n := |fields| - 1;
      ObjectKeys(fields[..n], items[..n]);
      assert fields == fields[..n] + [fields[n]];
    }
  }

  lemma {:induction false} ObjectValue(fields: seq<Field>, items: seq<Json>, i: nat)
    requires |fields| == |items| && LastOfName(fields, i)
    ensures fields[i].name in Object(fields, items) && Object(fields, items)[fields[i].name] == items[i]
  {
    var n := |fields| - 1;
    if i < n {
      assert LastOfName(fields[..n], i);
      ObjectValue(fields[..n], items[..n], i);
    }
  }

  lemma ObjectIs(fields: seq<Field>, items: seq<Json>)
    requires |fields| == |items|
    ensures Object(fields, items).Keys == NamesOf(fields)
    ensures forall i: nat :: LastOfName(fields, i) ==> fields[i].name in Object(fields, items) && Object(fields, items)[fields[i].name] == items[i]
  {
    ObjectKeys(fields, items);
    hide Object, LastOfName, NamesOf;
    forall i: nat | LastOfName(fields, i)
      ensures fields[i].name in Object(fields, items) && Object(fields, items)[fields[i].name] == items[i]
    {
      ObjectValue(fields, items, i);
    }
  }

  lemma ObjectExactly(fields: seq<Field>, items: seq<Json>, m: map<Bytes, Json>)
    requires |fields| == |items|
    requires m.Keys == NamesOf(fields) && forall i: nat :: LastOfName(fields, i) ==> m[fields[i].name] == items[i]
    ensures m == Object(fields, items)
  {
    ObjectIs(fields, items);
    forall k | k in m ensures m[k] == Object(fields, items)[k] {
      var i := LastNamed(fields, k);
      assert LastOfName(fields, i);
    }
  }

  ghost function LastNamed(fields: seq<Field>, name: Bytes): (i: nat)
    requires exists f :: f in fields && f.name == name
    ensures LastOfName(fields, i) && fields[i].name == name
  {
    var n := |fields| - 1;
    if fields[n].name == name then n
    else
      assert fields == fields[..n] + [fields[n]];
      LastNamed(fields[..n], name)
  }

  /** The values of the fields decoded in order, under their names; of fields with one name the last. */
  ghost predicate ShowsFields(fields: seq<Field>, items: seq<Json>, j: Json) {
    && j.JObj? && |items| == |fields|
    && j.members.Keys == NamesOf(fields)
    && forall i: nat :: LastOfName(fields, i) ==> j.members[fields[i].name] == items[i]
  }

  /** A struct is its fields one after another, shown as an object. */
  lemma StructReads(env: Env, name: string, s: Bytes, j: Json, rest: Bytes)
    requires Grounded(env) && name in env && env[name].StructDef?
    ensures var fields := env[name].fields;
      Decode(env, Defined(name), s) == Ok(j, rest)
      <==> exists items :: ShowsFields(fields, items, j) && Follow(env, FieldTypes(fields), s, items, rest)
  {
    var fields := env[name].fields;
    var r := DecodeSeq(env, FieldTypes(fields), s);
    hide DecodeSeq, Follow, Grounded, Object, LastOfName, NamesOf;
    if Decode(env, Defined(name), s) == Ok(j, rest) {
      ObjectIs(fields, r.value);
      FollowsExactly(env, FieldTypes(fields), s, r.value, rest);
      assert ShowsFields(fields, r.value, j) && Follow(env, FieldTypes(fields), s, r.value, rest);
    }
    if items :| ShowsFields(fields, items, j) && Follow(env, FieldTypes(fields), s, items, rest) {
      FollowsExactly(env, FieldTypes(fields), s, items, rest);
      ObjectExactly(fields, items, j.members);
    }
  }

  /** What an enum shows: the variant's name under "variant", and under "value" null or the array of its fields. */
  ghost predicate ShowsVariant(v: Variant, items: seq<Json>, j: Json) {
    && j.JObj? && j.members.Keys == {Ascii("variant"), Ascii("value")}
    && j.members[Ascii("variant")] == JText(v.name)
    && j.members[Ascii("value")] == if v.fields.None? then JNull else JArr(items)
  }

  lemma VariantObjectIs(v: Variant, items: seq<Json>, j: Json)
    ensures ShowsVariant(v, items, j) <==> j == VariantObject(v.name, if v.fields.None? then JNull else JArr(items))
  {
    assert Ascii("variant") == VARIANT && Ascii("value") == VALUE && |VARIANT| != |VALUE|;
    var payload := if v.fields.None? then JNull else JArr(items);
    var m := map[VARIANT := JText(v.name), VALUE := payload];
    assert m.Keys == {VARIANT, VALUE};
    if ShowsVariant(v, items, j) { assert j.members == m; }
  }

  /**
  An enum is the position of a variant in one byte and then the variant's fields, if it has any; shown as an
  object of exactly two members, "variant" for its name and "value" for its fields' values or null.
  */
  lemma EnumReads(env: Env, name: string, s: Bytes, j: Json, rest: Bytes)
    requires Grounded(env) && name in env && env[name].EnumDef?
    ensures var variants := env[name].variants;
      Decode(env, Defined(name), s) == Ok(j, rest)
      <==> s != [] && s[0] < |variants|
           && exists items :: ShowsVariant(variants[s[0]], items, j)
                && (if variants[s[0]].fields.None? then rest == s[1..]
                    else Follow(env, variants[s[0]].fields.value, s[1..], items, rest))
  {
    var variants := env[name].variants;
    if s != [] && s[0] < |variants| {
      var v := variants[s[0]];
      hide Grounded, Follow, ShowsVariant;
      if v.fields.None? {
        VariantObjectIs(v, [], j);
        forall items ensures ShowsVariant(v, items, j) <==> ShowsVariant(v, [], j) {
          VariantObjectIs(v, items, j);
        }
      } else {
        SomeFields(env, name, s, j, rest);
      }
    }
  }

  lemma SomeFields(env: Env, name: string, s: Bytes, j: Json, rest: Bytes)
    requires Grounded(env) && name in env && env[name].EnumDef?
    requires s != [] && s[0] < |env[name].variants| && env[name].variants[s[0]].fields.Some?
    ensures var v := env[name].variants[s[0]];
      Decode(env, Defined(name), s) == Ok(j, rest)
      <==> exists items :: ShowsVariant(v, items, j) && Follow(env, v.fields.value, s[1..], items, rest)
  {
    var v := env[name].variants[s[0]];
    var r := DecodeSeq(env, v.fields.value, s[1..]);
    assert Decode(env, Defined(name), s)
        == if r.Ok? then Ok(VariantObject(v.name, JArr(r.value)), r.rest) else Err(r.error);
    hide DecodeSeq, Decode, Follow, Grounded, ShowsVariant;
    if r.Ok? {
      VariantObjectIs(v, r.value, j);
      FollowsExactly(env, v.fields.value, s[1..], r.value, rest);
    }
    if items :| ShowsVariant(v, items, j) && Follow(env, v.fields.value, s[1..], items, rest) {
      FollowsExactly(env, v.fields.value, s[1..], items, rest);
      VariantObjectIs(v, items, j);
    }
  }

  /** The errors of a vec. */
  lemma VecRefuses(env: Env, elem: Ty, s: Bytes, e: Error)
    requires Grounded(env)
    ensures Decode(env, Vec(elem), s) == Err(e) <==>
      if |s| < 4 then e == UnexpectedEof else DecodeSeq(env, seq(NumberOf(s[..4]), _ => elem), s[4..]) == Err(e)
  {
    if |s| >= 4 {
      NumberIs(s[..4]);
      hide NumberOf, FromLE;
      assert Repeat(elem, FromLE(s[..4])) == seq(FromLE(s[..4]), _ => elem);
      hide DecodeSeq;
    }
  }

  /** The errors of an array and of a struct are those of their items. */
  lemma ItemsRefuse(env: Env, elem: Ty, n: nat, name: string, s: Bytes, e: Error)
    requires Grounded(env)
    ensures Decode(env, Array(elem, n), s) == Err(e) <==> DecodeSeq(env, seq(n, _ => elem), s) == Err(e)
    ensures name in env && env[name].StructDef? ==>
      (Decode(env, Defined(name), s) == Err(e) <==> DecodeSeq(env, FieldTypes(env[name].fields), s) == Err(e))
  {
    assert Repeat(elem, n) == seq(n, _ => elem);
    hide DecodeSeq;
  }

  /** The errors of an enum: no byte, no such variant, or a field of the variant that fails. */
  lemma EnumRefuses(env: Env, name: string, s: Bytes, e: Error)
    requires Grounded(env) && name in env && env[name].EnumDef?
    ensures var variants := env[name].variants;
      Decode(env, Defined(name), s) == Err(e) <==>
      if s == [] then e == UnexpectedEof
      else if s[0] >= |variants| then e == VariantOutOfBounds
      else variants[s[0]].fields.Some? && DecodeSeq(env, variants[s[0]].fields.value, s[1..]) == Err(e)
  {
  }

  /** What is refused whatever the input. */
  lemma Refuses(env: Env, name: string, s: Bytes)
    requires Grounded(env)
    ensures Decode(env, UnknownShape, s) == Err(UnsupportedShape)
    ensures Decode(env, Prim(UnknownPrimitive), s) == Err(UnsupportedPrimitive)
    ensures name !in env ==> Decode(env, Defined(name), s) == Err(UnsupportedShape)
    ensures name in env && env[name].UnknownKind? ==> Decode(env, Defined(name), s) == Err(UnsupportedKind)
    ensures name in env && env[name].EnumWithoutVariants? ==>
      Decode(env, Defined(name), s) == Err(if s == [] then UnexpectedEof else VariantsMissing)
  {
  }
}
