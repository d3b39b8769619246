/**
The decoder as it runs: a cursor over the input whose offset every read moves, and loops that push
into arrays and insert into objects; and the decoding of an instruction's arguments after its
discriminator.  The methods take every input on which decoding ends: the ghost parameter `d` is a
recursion depth that suffices, and the result is that of the decoder cut off there.
*/
module BorshCursor {
  import opened Bytes
  import opened BorshTypes
  import BorshJson
  import opened BorshValues
  import opened BorshTermination
  import Base58

  datatype Outcome<T> = Success(value: T) | Failure(error: Error)

  class DecodeCursor {
    const bytes: Bytes
    var offset: nat

    constructor (bytes: Bytes)
      ensures Valid() && this.bytes == bytes && Remaining() == bytes
    {
      this.bytes, offset := bytes, 0;
    }

    ghost predicate Valid()
      reads this
    {
      offset <= |bytes|
    }

    ghost function Remaining(): Bytes
      requires Valid()
      reads this
    {
      bytes[offset..]
    }

    method Take(n: nat) returns (r: Outcome<Bytes>)
      requires Valid()
      modifies this
      ensures Valid()
      ensures if |old(Remaining())| < n then r == Failure(UnexpectedEof) && offset == old(offset)
              else r == Success(old(Remaining())[..n]) && Remaining() == old(Remaining())[n..]
    {
      if offset + n > |bytes| { return Failure(UnexpectedEof); }
      var start := offset;
      offset := offset + n;
      r := Success(bytes[start..start + n]);
      assert bytes[start..][..n] == r.value && bytes[start..][n..] == bytes[offset..];
    }

    method ReadU8() returns (r: Outcome<byte>)
      requires Valid()
      modifies this
      ensures Valid()
      ensures if old(Remaining()) == [] then r == Failure(UnexpectedEof)
              else r == Success(old(Remaining())[0]) && Remaining() == old(Remaining())[1..]
    {
      var b := Take(1);
      r := if b.Success? then Success(b.value[0]) else Failure(b.error);
    }

    method ReadNumber(w: nat) returns (r: Outcome<nat>)
      requires Valid()
      modifies this
      ensures Valid()
      ensures if |old(Remaining())| < w then r == Failure(UnexpectedEof)
              else r == Success(FromLE(old(Remaining())[..w])) && Remaining() == old(Remaining())[w..]
    {
      var b := Take(w);
      r := if b.Success? then Success(FromLE(b.value)) else Failure(b.error);
    }
  }

  /** A run of the cursor did what the function says: same value and same bytes left, or same error. */
  ghost predicate Agrees<T(!new)>(r: Outcome<T>, left: Bytes, spec: Parsed<T>) {
    match spec
    case Ok(value, rest) => r == Success(value) && left == rest
    case Err(e) => r == Failure(e)
  }

  method DecodePrimitiveAt(kind: Primitive, c: DecodeCursor) returns (r: Outcome<Json>)
    requires c.Valid()
    modifies c
    ensures c.Valid() && Agrees(r, c.Remaining(), DecodePrimitive(kind, old(c.Remaining())))
  {
    match kind
    case U8 => r := DecodeNumberAt(1, c);
    case U16 => r := DecodeNumberAt(2, c);
    case U32 => r := DecodeNumberAt(4, c);
    case U64 => r := DecodeNumberAt(8, c);
    case I64 =>
      var n := c.ReadNumber(8);
      r := if n.Success? then Success(JNum(ToSigned(n.value))) else Failure(n.error);
    case Bool =>
      var b := c.ReadU8();
      r := if b.Failure? then Failure(b.error)
           else if b.value == 0 then Success(JBool(false))
           else if b.value == 1 then Success(JBool(true))
           else Failure(InvalidBool);
    case String =>
      ghost var s := c.Remaining();
      var len := c.ReadNumber(4);
      if len.Failure? { return Failure(len.error); }
      var data := c.Take(len.value);
      if data.Failure? { return Failure(data.error); }
      assert data.value == s[4..4 + len.value] && c.Remaining() == s[4 + len.value..];
      r := if ValidUtf8(data.value) then Success(JText(data.value)) else Failure(InvalidUtf8);
    case Pubkey =>
      var key := c.Take(32);
      r := if key.Success? then Success(JText(Base58.Encode(key.value))) else Failure(key.error);
    case UnknownPrimitive => r := Failure(UnsupportedPrimitive);
  }

  method DecodeNumberAt(w: nat, c: DecodeCursor) returns (r: Outcome<Json>)
    requires c.Valid()
    modifies c
    ensures c.Valid() && Agrees(r, c.Remaining(), DecodeNumber(w, old(c.Remaining())))
  {
    var n := c.ReadNumber(w);
    r := if n.Success? then Success(JNum(n.value)) else Failure(n.error);
  }

  /** What a loop over the types still has to produce once it holds the items in `done`. */
  ghost function After(done: seq<Json>, todo: Parsed<seq<Json>>): Parsed<seq<Json>> {
    match todo
    case Ok(items, rest) => Ok(done + items, rest)
    case Err(e) => Err(e)
  }

  lemma AfterEnds(done: seq<Json>, todo: Parsed<seq<Json>>)
    ensures After([], todo) == todo
    ensures todo.Ok? && todo.value == [] ==> After(done, todo) == Ok(done, todo.rest)
  {
    if todo.Ok? {
      assert [] + todo.value == todo.value;
      assert done + [] == done;
    }
  }

  lemma AfterStep(env: Env, done: seq<Json>, tys: seq<Ty>, s: Bytes, d: nat)
    requires tys != [] && SeqWithin(env, tys, s, d).Some?
    ensures Within(env, tys[0], s, d).Some?
    ensures match Within(env, tys[0], s, d).value
      case Ok(j, rest) =>
        && SeqWithin(env, tys[1..], rest, d).Some?
        && After(done, SeqWithin(env, tys, s, d).value) == After(done + [j], SeqWithin(env, tys[1..], rest, d).value)
      case Err(e) => After(done, SeqWithin(env, tys, s, d).value) == Err(e)
  {
    var first := Within(env, tys[0], s, d).value;
    if first.Ok? && SeqWithin(env, tys[1..], first.rest, d).value.Ok? {
      var others := SeqWithin(env, tys[1..], first.rest, d).value.value;
      assert done + ([first.value] + others) == (done + [first.value]) + others;
    }
  }

  method DecodeType(env: Env, ty: Ty, c: DecodeCursor, ghost d: nat) returns (r: Outcome<Json>)
    requires c.Valid() && Within(env, ty, c.Remaining(), d).Some?
    modifies c
    ensures c.Valid() && Agrees(r, c.Remaining(), Within(env, ty, old(c.Remaining()), d).value)
    decreases d, 0, 1
  {
    match ty
    case Prim(kind) => r := DecodePrimitiveAt(kind, c);
    case Vec(elem) =>
      var n := c.ReadNumber(4);
      if n.Failure? { return Failure(n.error); }
      r := DecodeItems(env, Repeat(elem, n.value), c, d - 1);
    case Opt(inner) =>
      var present := c.ReadU8();
      if present.Failure? { return Failure(present.error); }
      if present.value == 0 { return Success(JNull); }
      r := DecodeType(env, inner, c, d - 1);
    case Array(elem, n) => r := DecodeItems(env, Repeat(elem, n), c, d - 1);
    case Defined(name) =>
      if name !in env { return Failure(UnsupportedShape); }
      r := DecodeDefined(env, name, c, d);
    case UnknownShape => r := Failure(UnsupportedShape);
  }

  method DecodeItems(env: Env, tys: seq<Ty>, c: DecodeCursor, ghost d: nat) returns (r: Outcome<Json>)
    requires c.Valid() && SeqWithin(env, tys, c.Remaining(), d).Some?
    modifies c
    ensures c.Valid() && Agrees(r, c.Remaining(), AsArray(SeqWithin(env, tys, old(c.Remaining()), d).value))
    decreases d, 1, 0
  {
    hide Within;
    var arr: seq<Json> := [];
    ghost var spec := SeqWithin(env, tys, c.Remaining(), d).value;
    AfterEnds([], spec);
    assert tys[0..] == tys;
    for i := 0 to |tys|
      invariant c.Valid() && SeqWithin(env, tys[i..], c.Remaining(), d).Some?
      invariant spec == After(arr, SeqWithin(env, tys[i..], c.Remaining(), d).value)
    {
      AfterStep(env, arr, tys[i..], c.Remaining(), d);
      var item := DecodeType(env, tys[i], c, d);
      if item.Failure? { return Failure(item.error); }
      arr := arr + [item.value];
      assert tys[i..][1..] == tys[i + 1..];
    }
    AfterEnds(arr, SeqWithin(env, tys[|tys|..], c.Remaining(), d).value);
    r := Success(JArr(arr));
  }

  lemma ObjectNext(fields: seq<Field>, items: seq<Json>, j: Json)
    requires |items| < |fields|
    ensures Object(fields[..|items| + 1], items + [j]) == Object(fields[..|items|], items)[fields[|items|].name := j]
  {
    assert fields[..|items| + 1][..|items|] == fields[..|items|] && (items + [j])[..|items|] == items;
  }

  function AsObject(fields: seq<Field>, r: Parsed<seq<Json>>): Parsed<Json>
    requires r.Ok? ==> |r.value| == |fields|
  {
    match r
    case Ok(items, rest) => Ok(JObj(Object(fields, items)), rest)
    case Err(e) => Err(e)
  }

  method DecodeFields(env: Env, fields: seq<Field>, c: DecodeCursor, ghost d: nat) returns (r: Outcome<Json>)
    requires c.Valid() && SeqWithin(env, FieldTypes(fields), c.Remaining(), d).Some?
    modifies c
    ensures c.Valid()
    ensures Agrees(r, c.Remaining(), AsObject(fields, SeqWithin(env, FieldTypes(fields), old(c.Remaining()), d).value))
    decreases d, 1, 0
  {
    hide Within, Object;
    var out: map<Bytes, Json> := map[];
    ghost var items: seq<Json>, tys := [], FieldTypes(fields);
    ghost var spec := SeqWithin(env, tys, c.Remaining(), d).value;
    AfterEnds([], spec);
    assert tys[0..] == tys;
    NoFields();
    for i := 0 to |fields|
      invariant c.Valid() && SeqWithin(env, tys[i..], c.Remaining(), d).Some?
      invariant |items| == i && out == Object(fields[..i], items)
      invariant spec == After(items, SeqWithin(env, tys[i..], c.Remaining(), d).value)
    {
      AfterStep(env, items, tys[i..], c.Remaining(), d);
      var item := DecodeType(env, fields[i].ty, c, d);
      if item.Failure? { return Failure(item.error); }
      ObjectNext(fields, items, item.value);
      out := out[fields[i].name := item.value];
      items := items + [item.value];
      assert tys[i..][1..] == tys[i + 1..];
    }
    AfterEnds(items, SeqWithin(env, tys[|tys|..], c.Remaining(), d).value);
    assert fields[..|fields|] == fields;
    r := Success(JObj(out));
  }

  lemma NoFields()
    ensures Object([], []) == map[]
  {
  }

  method DecodeDefined(env: Env, name: string, c: DecodeCursor, ghost d: nat) returns (r: Outcome<Json>)
    requires c.Valid() && name in env && Within(env, Defined(name), c.Remaining(), d).Some?
    modifies c
    ensures c.Valid() && Agrees(r, c.Remaining(), Within(env, Defined(name), old(c.Remaining()), d).value)
    decreases d, 0, 0
  {
    match env[name]
    case StructDef(fields) => r := DecodeFields(env, fields, c, d - 1);
    case EnumDef(variants) =>
      var idx := c.ReadU8();
      if idx.Failure? { return Failure(idx.error); }
      if |variants| <= idx.value { return Failure(VariantOutOfBounds); }
      var variant := variants[idx.value];
      var payload := JNull;
      if variant.fields.Some? {
        var items := DecodeItems(env, variant.fields.value, c, d - 1);
        if items.Failure? { return items; }
        payload := items.value;
      }
      r := Success(VariantObject(variant.name, payload));
    case EnumWithoutVariants =>
      var idx := c.ReadU8();
      r := Failure(if idx.Failure? then idx.error else VariantsMissing);
    case UnknownKind => r := Failure(UnsupportedKind);
  }

  // ----- instructions -----

  datatype Instruction = Instruction(name: string, discriminator: Bytes, args: seq<Field>)

  datatype Call = Call(name: string, args: Json)

  datatype Lookup = Decoded(call: Call) | Undecodable(error: Error) | UnrecognizedDiscriminator

  /** The first instruction with the discriminator. */
  function Find(instructions: seq<Instruction>, discriminator: Bytes): Option<Instruction> {
    if instructions == [] then None
    else if instructions[0].discriminator == discriminator then Some(instructions[0])
    else Find(instructions[1..], discriminator)
  }

  /** Bytes after the arguments are ignored. */
  function Answer(ix: Instruction, r: Parsed<seq<Json>>): Lookup
    requires r.Ok? ==> |r.value| == |ix.args|
  {
    match r
    case Ok(items, _) => Decoded(Call(ix.name, JObj(Object(ix.args, items))))
    case Err(e) => Undecodable(e)
  }

  method DecodeInstructionArgs(env: Env, instructions: seq<Instruction>, discriminator: Bytes, bytes: Bytes, ghost d: nat)
      returns (r: Lookup)
    requires var ix := Find(instructions, discriminator);
      ix.Some? ==> SeqWithin(env, FieldTypes(ix.value.args), bytes, d).Some?
    ensures match Find(instructions, discriminator)
      case None => r == UnrecognizedDiscriminator
      case Some(ix) => r == Answer(ix, SeqWithin(env, FieldTypes(ix.args), bytes, d).value)
  {
    for i := 0 to |instructions|
      invariant Find(instructions, discriminator) == Find(instructions[i..], discriminator)
    {
      var ix := instructions[i];
      if ix.discriminator == discriminator {
        hide SeqWithin, Object;
        var c := new DecodeCursor(bytes);
        var obj := DecodeFields(env, ix.args, c, d);
        return if obj.Success? then Decoded(Call(ix.name, obj.value)) else Undecodable(obj.error);
      }
      assert instructions[i..][1..] == instructions[i + 1..];
    }
    r := UnrecognizedDiscriminator;
  }

  ghost predicate FirstWith(instructions: seq<Instruction>, discriminator: Bytes, i: nat) {
    && i < |instructions| && instructions[i].discriminator == discriminator
    && forall k :: 0 <= k < i ==> instructions[k].discriminator != discriminator
  }

  /** The instruction that decides is the first with the discriminator. */
  lemma {:induction false} FindsFirst(instructions: seq<Instruction>, discriminator: Bytes) returns (i: nat)
    ensures if Find(instructions, discriminator).Some?
      then FirstWith(instructions, discriminator, i) && instructions[i] == Find(instructions, discriminator).value
      else forall k :: 0 <= k < |instructions| ==> instructions[k].discriminator != discriminator
  {
    i := 0;
    if instructions != [] && instructions[0].discriminator != discriminator {
      var rest := instructions[1..];
      var j := FindsFirst(rest, discriminator);
      i := j + 1;
      assert forall k :: 0 < k < |instructions| ==> instructions[k] == rest[k - 1];
    }
  }

  /** The answer names the instruction and shows its arguments' values under their names, or is their error. */
  lemma AnswersExactly(ix: Instruction, r: Parsed<seq<Json>>)
    requires r.Ok? ==> |r.value| == |ix.args|
    ensures r.Err? ==> Answer(ix, r) == Undecodable(r.error)
    ensures r.Ok? ==>
      Answer(ix, r).Decoded? && Answer(ix, r).call.name == ix.name && BorshJson.ShowsFields(ix.args, r.value, Answer(ix, r).call.args)
  {
    if r.Ok? { BorshJson.ObjectIs(ix.args, r.value); }
  }

  lemma {:induction false} FoundAt(instructions: seq<Instruction>, i: nat)
    requires i < |instructions|
    requires forall j, k :: 0 <= j < k < |instructions| ==>
      instructions[j].discriminator != instructions[k].discriminator
    ensures Find(instructions, instructions[i].discriminator) == Some(instructions[i])
  {
    if i > 0 { FoundAt(instructions[1..], i - 1); }
  }

  /**
  With distinct discriminators, the arguments of any instruction come back by name, whatever
  follows their encoding in the instruction's data.
  */
  lemma InstructionRoundTrip(env: Env, instructions: seq<Instruction>, i: nat, args: seq<Val>, trailing: Bytes) returns (d: nat)
    requires Grounded(env) && i < |instructions|
    requires forall j, k :: 0 <= j < k < |instructions| ==>
      instructions[j].discriminator != instructions[k].discriminator
    requires |args| == |instructions[i].args| && AllTyped(env, FieldTypes(instructions[i].args), args)
    ensures var ix := instructions[i];
      var tys := FieldTypes(ix.args);
      var r := SeqWithin(env, tys, EncodeAll(env, tys, args) + trailing, d);
      && Find(instructions, ix.discriminator) == Some(ix)
      && r.Some? && Answer(ix, r.value) == Decoded(Call(ix.name, JObj(Object(ix.args, ViewAll(env, tys, args)))))
  {
    var tys := FieldTypes(instructions[i].args);
    FoundAt(instructions, i);
    RoundTripAll(env, tys, args, trailing);
    d := EnoughSeqDepth(env, tys, EncodeAll(env, tys, args) + trailing);
  }
}
