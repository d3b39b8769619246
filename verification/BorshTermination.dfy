/**
When decoding terminates: with the decoder cut off at a recursion depth, some depth suffices for every
type and input exactly when no struct leads back to itself before a byte is read, which is when the rank
that the decoder's termination measure needs exists.
*/
module BorshTermination {
  import opened Bytes
  import opened BorshTypes

  /** The struct that decoding a value of this type enters first. */
  function Head(env: Env, ty: Ty): Option<string> {
    match ty
    case Array(elem, n) => if n == 0 then None else Head(env, elem)
    case Defined(m) => if m in env && env[m].StructDef? then Some(m) else None
    case _ => None
  }

  /** The i-th field of struct n is decoded at the struct's own first byte, and enters struct m there. */
  ghost predicate Enters(env: Env, n: string, i: nat, m: string)
    requires n in env && env[n].StructDef?
  {
    Reached(env, FieldTypes(env[n].fields), i) && Head(env, env[n].fields[i].ty) == Some(m)
  }

  ghost predicate Edge(env: Env, n: string, m: string) {
    n in env && env[n].StructDef? && exists i: nat :: Enters(env, n, i, m)
  }

  ghost predicate Path(env: Env, p: seq<string>) {
    forall i, j :: 0 <= i < j < |p| && j == i + 1 ==> Edge(env, p[i], p[j])
  }

  ghost predicate Cycle(env: Env, p: seq<string>) {
    |p| >= 2 && Path(env, p) && p[0] == p[|p| - 1]
  }

  lemma {:induction false} HeadBelow(env: Env, rank: Rank, ty: Ty)
    ensures var h := Head(env, ty);
      h.Some? && h.value in rank ==> rank[h.value] <= TyRank(env, rank, ty)
  {
    if ty.Array? { HeadBelow(env, rank, ty.elem); }
  }

  lemma {:induction false} RankFallsAlong(env: Env, rank: Rank, p: seq<string>)
    requires Ranked(env, rank) && |p| >= 2 && Path(env, p)
    requires forall n :: n in p ==> n in rank
    ensures rank[p[|p| - 1]] < rank[p[0]]
  {
    assert Edge(env, p[0], p[1]);
    var i: nat :| Enters(env, p[0], i, p[1]);
    HeadBelow(env, rank, env[p[0]].fields[i].ty);
    if |p| > 2 {
      RankFallsAlong(env, rank, p[1..]);
    }
  }

  lemma EdgesEndInStructs(env: Env, p: seq<string>, i: nat)
    requires |p| >= 2 && Path(env, p) && i < |p|
    ensures p[i] in env && env[p[i]].StructDef?
  {
    if i < |p| - 1 {
      assert Edge(env, p[i], p[i + 1]);
    } else {
      assert Edge(env, p[i - 1], p[i]);
      var k: nat :| Enters(env, p[i - 1], k, p[i]);
      HeadIsStruct(env, env[p[i - 1]].fields[k].ty);
    }
  }

  lemma {:induction false} HeadIsStruct(env: Env, ty: Ty)
    ensures Head(env, ty).Some? ==> Head(env, ty).value in env && env[Head(env, ty).value].StructDef?
  {
    if ty.Array? { HeadIsStruct(env, ty.elem); }
  }

  // ----- no cycle: peel off one struct after another -----

  /** `rank` already serves the structs outside `open`, and those refer to no struct in `open`. */
  ghost predicate RankedOutside(env: Env, open: set<string>, rank: Rank) {
    && rank.Keys !! open
    && (forall n :: n in env && env[n].StructDef? && n !in open ==> n in rank)
    && forall n :: n in env && env[n].StructDef? && n !in open ==>
        forall i: nat :: Reached(env, FieldTypes(env[n].fields), i) ==>
          && TyRank(env, rank, env[n].fields[i].ty) < rank[n]
          && (Head(env, env[n].fields[i].ty).Some? ==> Head(env, env[n].fields[i].ty).value !in open)
  }

  lemma {:induction false} RankUnaffected(env: Env, rank: Rank, n: string, r: nat, ty: Ty)
    requires Head(env, ty) != Some(n)
    ensures TyRank(env, rank[n := r], ty) == TyRank(env, rank, ty)
  {
    if ty.Array? && ty.len > 0 { RankUnaffected(env, rank, n, r, ty.elem); }
  }

  ghost function MaxRank(env: Env, rank: Rank, fields: seq<Field>): nat {
    if fields == [] then 0
    else
      var a, b := TyRank(env, rank, fields[0].ty), MaxRank(env, rank, fields[1..]);
      if a >= b then a else b
  }

  lemma {:induction false} MaxRankBounds(env: Env, rank: Rank, fields: seq<Field>)
    ensures forall f :: f in fields ==> TyRank(env, rank, f.ty) <= MaxRank(env, rank, fields)
  {
    if fields != [] {
      MaxRankBounds(env, rank, fields[1..]);
      assert fields == [fields[0]] + fields[1..];
    }
  }

  ghost predicate LeadsInto(env: Env, open: set<string>, n: string) {
    exists m :: m in open && Edge(env, n, m)
  }

  /** Some struct in `open` refers to none in `open`, or the references lead around a cycle. */
  lemma SinkOrCycle(env: Env, open: set<string>)
    requires open != {}
    requires forall p :: !Cycle(env, p)
    ensures exists n :: n in open && !LeadsInto(env, open, n)
  {
    if forall n :: n in open ==> LeadsInto(env, open, n) {
      var p := Walk(env, open, |open| + 1);
      var i, j := Pigeonhole(p, open);
      Loop(env, p, i, j);
    }
  }

  lemma Loop(env: Env, p: seq<string>, i: nat, j: nat)
    requires Path(env, p) && i < j < |p| && p[i] == p[j]
    ensures exists c :: Cycle(env, c)
  {
    var c := p[i..j + 1];
    assert Cycle(env, c);
  }

  lemma NextOnWalk(env: Env, open: set<string>, n: string) returns (m: string)
    requires LeadsInto(env, open, n)
    ensures m in open && Edge(env, n, m)
  {
    m :| m in open && Edge(env, n, m);
  }

  lemma {:induction false} Walk(env: Env, open: set<string>, steps: nat) returns (p: seq<string>)
    requires open != {} && forall n :: n in open ==> LeadsInto(env, open, n)
    ensures |p| == steps + 1 && forall i :: 0 <= i < |p| ==> p[i] in open
    ensures Path(env, p)
  {
    hide Edge, LeadsInto;
    if steps == 0 {
      var n :| n in open;
      p := [n];
    } else {
      var q := Walk(env, open, steps - 1);
      var m := NextOnWalk(env, open, q[steps - 1]);
      p := q + [m];
      assert forall i :: 0 <= i < |q| ==> p[i] == q[i];
    }
  }

  lemma {:induction false} Pigeonhole(p: seq<string>, s: set<string>) returns (i: nat, j: nat)
    requires |p| > |s| && forall k :: 0 <= k < |p| ==> p[k] in s
    ensures i < j < |p| && p[i] == p[j]
  {
    var last := |p| - 1;
    if k :| 0 <= k < last && p[k] == p[last] {
      i, j := k, last;
    } else {
      i, j := Pigeonhole(p[..last], s - {p[last]});
    }
  }

  lemma {:induction false} Peel(env: Env, open: set<string>, rank: Rank) returns (full: Rank)
    requires forall n :: n in open ==> n in env && env[n].StructDef?
    requires forall p :: !Cycle(env, p)
    requires RankedOutside(env, open, rank)
    ensures Ranked(env, full)
    decreases |open|
  {
    if open == {} {
      full := rank;
    } else {
      SinkOrCycle(env, open);
      var n :| n in open && !LeadsInto(env, open, n);
      var r := MaxRank(env, rank, env[n].fields) + 1;
      MaxRankBounds(env, rank, env[n].fields);
      var wider := rank[n := r];
      PeelStep(env, open, rank, n, r);
      full := Peel(env, open - {n}, wider);
    }
  }

  lemma PeelStep(env: Env, open: set<string>, rank: Rank, n: string, r: nat)
    requires n in open && n in env && env[n].StructDef? && RankedOutside(env, open, rank)
    requires !LeadsInto(env, open, n)
    requires forall f :: f in env[n].fields ==> TyRank(env, rank, f.ty) < r
    ensures RankedOutside(env, open - {n}, rank[n := r])
  {
    var wider := rank[n := r];
    forall m, i: nat | m in env && env[m].StructDef? && m !in open - {n} && Reached(env, FieldTypes(env[m].fields), i)
      ensures TyRank(env, wider, env[m].fields[i].ty) < wider[m]
      ensures Head(env, env[m].fields[i].ty).Some? ==> Head(env, env[m].fields[i].ty).value !in open
    {
      var ty := env[m].fields[i].ty;
      if m == n && Head(env, ty).Some? {
        assert Enters(env, n, i, Head(env, ty).value);
        assert Edge(env, n, Head(env, ty).value);
      }
      assert Head(env, ty) != Some(n);
      RankUnaffected(env, rank, n, r, ty);
    }
  }

  /** The measure exists exactly when no struct leads back to itself before a byte is read. */
  lemma GroundedIffNoCycle(env: Env)
    ensures Grounded(env) <==> forall p :: !Cycle(env, p)
  {
    if Grounded(env) {
      var rank := RankOf(env);
      forall p ensures !Cycle(env, p) {
        if Cycle(env, p) {
          forall n | n in p ensures n in rank {
            var i :| 0 <= i < |p| && p[i] == n;
            EdgesEndInStructs(env, p, i);
          }
          RankFallsAlong(env, rank, p);
        }
      }
    }
    if forall p :: !Cycle(env, p) {
      var open := set n | n in env && env[n].StructDef?;
      var rank := Peel(env, open, map[]);
    }
  }

  // ----- the decoder cut off at a depth -----

  /** None when the depth does not suffice. */
  function Within(env: Env, ty: Ty, s: Bytes, d: nat): Option<Parsed<Json>>
    decreases d, 0
  {
    match ty
    case Prim(kind) => Some(DecodePrimitive(kind, s))
    case Vec(elem) =>
      if |s| < 4 then Some(Err(UnexpectedEof)) else ArrayWithin(env, Repeat(elem, FromLE(s[..4])), s[4..], d)
    case Opt(inner) =>
      if |s| < 1 then Some(Err(UnexpectedEof))
      else if s[0] == 0 then Some(Ok(JNull, s[1..]))
      else if d == 0 then None
      else Within(env, inner, s[1..], d - 1)
    case Array(elem, n) => ArrayWithin(env, Repeat(elem, n), s, d)
    case Defined(name) =>
      if name !in env then Some(Err(UnsupportedShape))
      else (
        match env[name]
        case StructDef(fields) =>
          if d == 0 then None else StructWithin(fields, SeqWithin(env, FieldTypes(fields), s, d - 1))
        case EnumDef(variants) =>
          if |s| < 1 then Some(Err(UnexpectedEof))
          else if |variants| <= s[0] then Some(Err(VariantOutOfBounds))
          else
            var v := variants[s[0]];
            if v.fields.None? then Some(Ok(VariantObject(v.name, JNull), s[1..]))
            else if d == 0 then None
            else VariantWithin(v.name, SeqWithin(env, v.fields.value, s[1..], d - 1))
        case EnumWithoutVariants => Some(if |s| < 1 then Err(UnexpectedEof) else Err(VariantsMissing))
        case UnknownKind => Some(Err(UnsupportedKind))
      )
    case UnknownShape => Some(Err(UnsupportedShape))
  }

  function ArrayWithin(env: Env, tys: seq<Ty>, s: Bytes, d: nat): Option<Parsed<Json>>
    decreases d, 0, 0
  {
    if d == 0 then None
    else
      match SeqWithin(env, tys, s, d - 1)
      case None => None
      case Some(r) => Some(AsArray(r))
  }

  function StructWithin(fields: seq<Field>, r: Option<Parsed<seq<Json>>>): Option<Parsed<Json>>
    requires r.Some? && r.value.Ok? ==> |r.value.value| == |fields|
  {
    match r
    case None => None
    case Some(Ok(items, rest)) => Some(Ok(JObj(Object(fields, items)), rest))
    case Some(Err(e)) => Some(Err(e))
  }

  function VariantWithin(name: Bytes, r: Option<Parsed<seq<Json>>>): Option<Parsed<Json>> {
    match r
    case None => None
    case Some(Ok(items, rest)) => Some(Ok(VariantObject(name, JArr(items)), rest))
    case Some(Err(e)) => Some(Err(e))
  }

  function SeqWithin(env: Env, tys: seq<Ty>, s: Bytes, d: nat): (r: Option<Parsed<seq<Json>>>)
    ensures r.Some? && r.value.Ok? ==> |r.value.value| == |tys|
    decreases d, 1, |tys|
  {
    if tys == [] then Some(Ok([], s))
    else
      match Within(env, tys[0], s, d)
      case None => None
      case Some(Err(e)) => Some(Err(e))
      case Some(Ok(first, rest)) =>
        match SeqWithin(env, tys[1..], rest, d)
        case None => None
        case Some(Err(e)) => Some(Err(e))
        case Some(Ok(others, end)) => Some(Ok([first] + others, end))
  }

  /** Decoding the type from these bytes comes to an end. */
  ghost predicate Terminates(env: Env, ty: Ty, s: Bytes) {
    exists d: nat :: Within(env, ty, s, d).Some?
  }

  lemma {:induction false} DeeperAgrees(env: Env, ty: Ty, s: Bytes, d: nat, e: nat)
    requires Within(env, ty, s, d).Some? && d <= e
    ensures Within(env, ty, s, e) == Within(env, ty, s, d)
    decreases d, 0, 0
  {
    match ty
    case Vec(elem) =>
      if |s| >= 4 { DeeperSeqAgrees(env, Repeat(elem, FromLE(s[..4])), s[4..], d - 1, e - 1); }
    case Opt(inner) =>
      if |s| >= 1 && s[0] != 0 { DeeperAgrees(env, inner, s[1..], d - 1, e - 1); }
    case Array(elem, n) => DeeperSeqAgrees(env, Repeat(elem, n), s, d - 1, e - 1);
    case Defined(name) =>
      if name in env {
        match env[name] {
          case StructDef(fields) => DeeperSeqAgrees(env, FieldTypes(fields), s, d - 1, e - 1);
          case EnumDef(variants) =>
            if 1 <= |s| && s[0] < |variants| && variants[s[0]].fields.Some? {
              DeeperSeqAgrees(env, variants[s[0]].fields.value, s[1..], d - 1, e - 1);
            }
          case _ =>
        }
      }
    case _ =>
  }

  lemma {:induction false} DeeperSeqAgrees(env: Env, tys: seq<Ty>, s: Bytes, d: nat, e: nat)
    requires SeqWithin(env, tys, s, d).Some? && d <= e
    ensures SeqWithin(env, tys, s, e) == SeqWithin(env, tys, s, d)
    decreases d, 1, |tys|
  {
    if tys != [] {
      DeeperAgrees(env, tys[0], s, d, e);
      var first := Within(env, tys[0], s, d).value;
      if first.Ok? { DeeperSeqAgrees(env, tys[1..], first.rest, d, e); }
    }
  }

  /** When nothing leads back to itself, some depth suffices and gives what the decoder gives. */
  lemma {:induction false} EnoughDepth(env: Env, ty: Ty, s: Bytes) returns (d: nat)
    requires Grounded(env)
    ensures Within(env, ty, s, d) == Some(Decode(env, ty, s))
    decreases |s|, 2 * Height(env, ty) + 1, 0
  {
    d := 0;
    match ty
    case Vec(elem) =>
      if |s| >= 4 {
        var e := EnoughSeqDepth(env, Repeat(elem, FromLE(s[..4])), s[4..]);
        d := e + 1;
      }
    case Opt(inner) =>
      if |s| >= 1 && s[0] != 0 {
        var e := EnoughDepth(env, inner, s[1..]);
        d := e + 1;
      }
    case Array(elem, n) =>
      ArrayReach(env, elem, n);
      var e := EnoughSeqDepth(env, Repeat(elem, n), s);
      d := e + 1;
    case Defined(name) =>
      if name in env {
        match env[name] {
          case StructDef(fields) =>
            StructReach(env, name);
            var e := EnoughSeqDepth(env, FieldTypes(fields), s);
            d := e + 1;
          case EnumDef(variants) =>
            if 1 <= |s| && s[0] < |variants| && variants[s[0]].fields.Some? {
              var e := EnoughSeqDepth(env, variants[s[0]].fields.value, s[1..]);
              d := e + 1;
            }
          case _ =>
        }
      }
    case _ =>
  }

  lemma {:induction false} EnoughSeqDepth(env: Env, tys: seq<Ty>, s: Bytes) returns (d: nat)
    requires Grounded(env)
    ensures SeqWithin(env, tys, s, d) == Some(DecodeSeq(env, tys, s))
    decreases |s|, 2 * Reach(env, tys), |tys|
  {
    d := 0;
    if tys != [] {
      d := EnoughDepth(env, tys[0], s);
      var first := Decode(env, tys[0], s);
      if first.Ok? {
        var e := EnoughSeqDepth(env, tys[1..], first.rest);
        var f := d;
        d := d + e;
        DeeperAgrees(env, tys[0], s, f, d);
        DeeperSeqAgrees(env, tys[1..], first.rest, e, d);
      }
    }
  }

  // ----- a cycle never ends -----

  /** A type that takes nothing leaves the bytes as they are, at every depth that suffices. */
  lemma {:induction false} NothingTaken(env: Env, ty: Ty, s: Bytes, d: nat, k: nat)
    requires EmptyWithin(env, ty, k)
    ensures Within(env, ty, s, d).None? || (Within(env, ty, s, d).value.Ok? && Within(env, ty, s, d).value.rest == s)
    decreases d, 0, 0
  {
    if d > 0 {
      match ty
      case Array(elem, n) =>
        if n == 0 {
          assert SeqWithin(env, Repeat(elem, n), s, d - 1) == Some(Ok([], s));
        } else {
          assert forall t :: t in Repeat(elem, n) ==> t == elem;
          NothingTakenBy(env, Repeat(elem, n), s, d - 1, k - 1);
        }
      case Defined(name) =>
        var tys := FieldTypes(env[name].fields);
        forall t | t in tys ensures EmptyWithin(env, t, k - 1) {
          var i :| 0 <= i < |tys| && tys[i] == t;
          assert env[name].fields[i] in env[name].fields;
        }
        NothingTakenBy(env, tys, s, d - 1, k - 1);
    }
  }

  lemma {:induction false} NothingTakenBy(env: Env, tys: seq<Ty>, s: Bytes, d: nat, k: nat)
    requires forall t :: t in tys ==> EmptyWithin(env, t, k)
    ensures var r := SeqWithin(env, tys, s, d); r.None? || (r.value.Ok? && r.value.rest == s)
    decreases d, 1, |tys|
  {
    if tys != [] {
      assert tys[0] in tys && forall t :: t in tys[1..] ==> t in tys;
      NothingTaken(env, tys[0], s, d, k);
      NothingTakenBy(env, tys[1..], s, d, k);
    }
  }

  ghost predicate NeverWithin(env: Env, n: string, d: nat) {
    forall s, e: nat :: e <= d ==> Within(env, Defined(n), s, e).None?
  }

  /** A type whose head does not end within a depth does not either. */
  lemma {:induction false} HeadNeverEnds(env: Env, ty: Ty, s: Bytes, d: nat, m: string)
    requires Head(env, ty) == Some(m) && NeverWithin(env, m, d)
    ensures Within(env, ty, s, d).None?
  {
    if ty.Array? && d > 0 {
      HeadNeverEnds(env, ty.elem, s, d - 1, m);
      assert ty.len > 0 && Repeat(ty.elem, ty.len)[0] == ty.elem;
      assert SeqWithin(env, Repeat(ty.elem, ty.len), s, d - 1).None?;
    }
  }

  /** Nor does a sequence that reaches such a type. */
  lemma {:induction false} ReachedNeverEnds(env: Env, tys: seq<Ty>, i: nat, s: Bytes, d: nat, m: string)
    requires Reached(env, tys, i) && Head(env, tys[i]) == Some(m) && NeverWithin(env, m, d)
    ensures SeqWithin(env, tys, s, d).None?
    decreases i
  {
    if i == 0 {
      HeadNeverEnds(env, tys[0], s, d, m);
    } else {
      var k: nat :| EmptyWithin(env, tys[0], k);
      NothingTaken(env, tys[0], s, d, k);
      assert Reached(env, tys[1..], i - 1);
      ReachedNeverEnds(env, tys[1..], i - 1, s, d, m);
    }
  }

  lemma {:induction false} CycleNeverEnds(env: Env, p: seq<string>, d: nat)
    requires Cycle(env, p)
    ensures forall i :: 0 <= i < |p| ==> NeverWithin(env, p[i], d)
  {
    forall i | 0 <= i < |p| - 1 ensures NeverWithin(env, p[i], d) {
      assert Edge(env, p[i], p[i + 1]);
      var k: nat :| Enters(env, p[i], k, p[i + 1]);
      forall s, e: nat | e <= d ensures Within(env, Defined(p[i]), s, e).None? {
        if e > 0 {
          CycleNeverEnds(env, p, e - 1);
          ReachedNeverEnds(env, FieldTypes(env[p[i]].fields), k, s, e - 1, p[i + 1]);
        }
      }
    }
  }

  /** Decoding ends for every type and input iff no struct leads back to itself before a byte is read. */
  lemma TerminatesIffNoCycle(env: Env)
    ensures (forall ty, s :: Terminates(env, ty, s)) <==> forall p :: !Cycle(env, p)
    ensures Grounded(env) ==> forall ty, s, d: nat :: Within(env, ty, s, d).Some? ==> Within(env, ty, s, d).value == Decode(env, ty, s)
  {
    GroundedIffNoCycle(env);
    if Grounded(env) {
      forall ty, s ensures Terminates(env, ty, s) {
        var d := EnoughDepth(env, ty, s);
      }
      forall ty, s, d: nat | Within(env, ty, s, d).Some? ensures Within(env, ty, s, d).value == Decode(env, ty, s) {
        var e := EnoughDepth(env, ty, s);
        if d <= e { DeeperAgrees(env, ty, s, d, e); } else { DeeperAgrees(env, ty, s, e, d); }
      }
    }
    if p :| Cycle(env, p) {
      forall d: nat ensures Within(env, Defined(p[0]), [], d).None? {
        CycleNeverEnds(env, p, d);
      }
      assert !Terminates(env, Defined(p[0]), []);
    }
  }

  /** In particular a struct on a cycle ends on no input at all. */
  lemma CycleEndsNowhere(env: Env, p: seq<string>, s: Bytes)
    requires Cycle(env, p)
    ensures !Terminates(env, Defined(p[0]), s)
  {
    forall d: nat ensures Within(env, Defined(p[0]), s, d).None? {
      CycleNeverEnds(env, p, d);
    }
  }

  // ----- environments with a cycle that the type does not lead to -----

  predicate Names(ty: Ty, n: string) {
    match ty
    case Vec(elem) => Names(elem, n)
    case Opt(inner) => Names(inner, n)
    case Array(elem, _) => Names(elem, n)
    case Defined(m) => m == n
    case _ => false
  }

  ghost predicate NamesOnly(ty: Ty, names: set<string>) { forall n :: Names(ty, n) ==> n in names }

  ghost predicate AllNameOnly(tys: seq<Ty>, names: set<string>) { forall t :: t in tys ==> NamesOnly(t, names) }

  /** The definitions under these names mention no other name. */
  ghost predicate Closed(env: Env, names: set<string>) {
    forall n :: n in names && n in env ==>
      match env[n]
      case StructDef(fields) => AllNameOnly(FieldTypes(fields), names)
      case EnumDef(variants) => forall v :: v in variants && v.fields.Some? ==> AllNameOnly(v.fields.value, names)
      case _ => true
  }

  function Only(env: Env, names: set<string>): Env { map n | n in env && n in names :: env[n] }

  lemma {:induction false} OnlyNamesMatter(env: Env, names: set<string>, ty: Ty, s: Bytes, d: nat)
    requires Closed(env, names) && NamesOnly(ty, names)
    ensures Within(env, ty, s, d) == Within(Only(env, names), ty, s, d)
    decreases d, 0, 0
  {
    match ty
    case Vec(elem) =>
      assert forall n :: Names(elem, n) ==> Names(ty, n);
      if |s| >= 4 && d > 0 { OnlyNamesMatterInAll(env, names, Repeat(elem, FromLE(s[..4])), s[4..], d - 1); }
    case Opt(inner) =>
      assert forall n :: Names(inner, n) ==> Names(ty, n);
      if |s| >= 1 && d > 0 { OnlyNamesMatter(env, names, inner, s[1..], d - 1); }
    case Array(elem, n) =>
      assert forall n :: Names(elem, n) ==> Names(ty, n);
      if d > 0 { OnlyNamesMatterInAll(env, names, Repeat(elem, n), s, d - 1); }
    case Defined(name) =>
      assert Names(ty, name);
      if name in env && d > 0 {
        match env[name] {
          case StructDef(fields) => OnlyNamesMatterInAll(env, names, FieldTypes(fields), s, d - 1);
          case EnumDef(variants) =>
            if 1 <= |s| && s[0] < |variants| && variants[s[0]].fields.Some? {
              assert variants[s[0]] in variants;
              OnlyNamesMatterInAll(env, names, variants[s[0]].fields.value, s[1..], d - 1);
            }
          case _ =>
        }
      }
    case _ =>
  }

  lemma {:induction false} OnlyNamesMatterInAll(env: Env, names: set<string>, tys: seq<Ty>, s: Bytes, d: nat)
    requires Closed(env, names) && AllNameOnly(tys, names)
    ensures SeqWithin(env, tys, s, d) == SeqWithin(Only(env, names), tys, s, d)
    decreases d, 1, |tys|
  {
    if tys != [] {
      assert tys[0] in tys && forall t :: t in tys[1..] ==> t in tys;
      OnlyNamesMatter(env, names, tys[0], s, d);
      var first := Within(env, tys[0], s, d);
      if first.Some? && first.value.Ok? { OnlyNamesMatterInAll(env, names, tys[1..], first.value.rest, d); }
    }
  }

  /** A type that leads to no cycle decodes as it does without the definitions it does not lead to. */
  lemma CyclesElsewhere(env: Env, names: set<string>, ty: Ty, s: Bytes)
    requires Closed(env, names) && NamesOnly(ty, names) && Grounded(Only(env, names))
    ensures Terminates(env, ty, s)
    ensures forall d: nat :: Within(env, ty, s, d).Some? ==> Within(env, ty, s, d).value == Decode(Only(env, names), ty, s)
  {
    var d := EnoughDepth(Only(env, names), ty, s);
    OnlyNamesMatter(env, names, ty, s, d);
    TerminatesIffNoCycle(Only(env, names));
    forall e: nat ensures Within(env, ty, s, e) == Within(Only(env, names), ty, s, e) {
      OnlyNamesMatter(env, names, ty, s, e);
    }
  }
}
