/** Sequence operations that queries and their direct meaning share, and how they commute with Map. */
module Lists {

  function Map<A, B>(xs: seq<A>, f: A -> B): (ys: seq<B>)
    ensures |ys| == |xs| && forall i :: 0 <= i < |xs| ==> ys[i] == f(xs[i])
  {
    if xs == [] then [] else [f(xs[0])] + Map(xs[1..], f)
  }

  function Filter<A>(xs: seq<A>, p: A -> bool): (ys: seq<A>)
    ensures |ys| <= |xs|
    ensures forall x :: x in xs && p(x) ==> x in ys
    ensures forall x :: x in ys ==> x in xs && p(x)
  {
    if xs == [] then []
    else if p(xs[0]) then [xs[0]] + Filter(xs[1..], p)
    else Filter(xs[1..], p)
  }

  function Flatten<A>(xss: seq<seq<A>>): seq<A> {
    if xss == [] then [] else xss[0] + Flatten(xss[1..])
  }

  datatype Group<K, A> = Group(key: K, members: seq<A>)

  function HasKey<K(==), A>(key: A -> K, k: K): A -> bool { x => key(x) == k }

  function LacksKey<K(==), A>(key: A -> K, k: K): A -> bool { x => key(x) != k }

  /** The groups of equal keys, in the order in which the keys first occur. */
  function Groups<K(==), A>(xs: seq<A>, key: A -> K): seq<Group<K, A>>
    decreases |xs|
  {
    if xs == [] then []
    else
      var k := key(xs[0]);
      [Group(k, Filter(xs, HasKey(key, k)))] + Groups(Filter(xs[1..], LacksKey(key, k)), key)
  }

  /** Stable: the new element goes after everything it does not precede. */
  function InsertSorted<A>(ys: seq<A>, x: A, precedes: (A, A) -> bool): seq<A> {
    if ys == [] || !precedes(x, ys[|ys| - 1]) then ys + [x]
    else InsertSorted(ys[..|ys| - 1], x, precedes) + [ys[|ys| - 1]]
  }

  function Sort<A>(xs: seq<A>, precedes: (A, A) -> bool): seq<A> {
    if xs == [] then [] else InsertSorted(Sort(xs[..|xs| - 1], precedes), xs[|xs| - 1], precedes)
  }

  function Take<A>(xs: seq<A>, n: nat): seq<A> { if |xs| <= n then xs else xs[..n] }

  // ----- Map and the other operations -----

  lemma MapAppend<A(!new), B(!new)>(xs: seq<A>, ys: seq<A>, f: A -> B)
    ensures Map(xs + ys, f) == Map(xs, f) + Map(ys, f)
  {
  }

  lemma MapTake<A(!new), B(!new)>(xs: seq<A>, n: nat, f: A -> B)
    ensures Take(Map(xs, f), n) == Map(Take(xs, n), f)
  {
  }

  lemma MapTwice<A(!new), B(!new), C(!new)>(xs: seq<A>, f: A -> B, g: B -> C, h: A -> C)
    requires forall x :: x in xs ==> g(f(x)) == h(x)
    ensures Map(Map(xs, f), g) == Map(xs, h)
  {
    assert forall i :: 0 <= i < |xs| ==> xs[i] in xs;
  }

  lemma MapSquare<A(!new), B(!new), C(!new), D(!new)>(xs: seq<A>, f: A -> B, g: B -> D, f': A -> C, g': C -> D)
    requires forall x :: x in xs ==> g(f(x)) == g'(f'(x))
    ensures Map(Map(xs, f), g) == Map(Map(xs, f'), g')
  {
    assert forall i :: 0 <= i < |xs| ==> xs[i] in xs;
  }

  lemma MapCongruent<A(!new), B(!new)>(xs: seq<A>, f: A -> B, g: A -> B)
    requires forall x :: x in xs ==> f(x) == g(x)
    ensures Map(xs, f) == Map(xs, g)
  {
    assert forall i :: 0 <= i < |xs| ==> xs[i] in xs;
  }

  lemma {:induction false} MapFilter<A(!new), B(!new)>(xs: seq<A>, f: A -> B, p: A -> bool, q: B -> bool)
    requires forall x :: x in xs ==> q(f(x)) == p(x)
    ensures Filter(Map(xs, f), q) == Map(Filter(xs, p), f)
  {
    if xs != [] {
      assert xs[0] in xs && Map(xs, f)[1..] == Map(xs[1..], f);
      MapFilter(xs[1..], f, p, q);
    }
  }

  lemma {:induction false} FilterCongruent<A(!new)>(xs: seq<A>, p: A -> bool, q: A -> bool)
    requires forall x :: x in xs ==> p(x) == q(x)
    ensures Filter(xs, p) == Filter(xs, q)
  {
    if xs != [] {
      assert xs[0] in xs;
      FilterCongruent(xs[1..], p, q);
    }
  }

  lemma {:induction false} GroupsCongruent<K(!new), A(!new)>(xs: seq<A>, key: A -> K, key': A -> K)
    requires forall x :: x in xs ==> key(x) == key'(x)
    ensures Groups(xs, key) == Groups(xs, key')
    decreases |xs|
  {
    if xs != [] {
      var k := key(xs[0]);
      assert xs[0] in xs;
      FilterCongruent(xs, HasKey(key, k), HasKey(key', k));
      FilterCongruent(xs[1..], LacksKey(key, k), LacksKey(key', k));
      GroupsCongruent(Filter(xs[1..], LacksKey(key, k)), key, key');
    }
  }

  /** A group seen through f, with its key seen through h. */
  function Through<K1, K2, A, B>(f: A -> B, h: K1 -> K2): Group<K1, A> -> Group<K2, B> {
    (g: Group<K1, A>) => Group(h(g.key), Map(g.members, f))
  }

  lemma {:induction false} MapGroups<K1(!new), K2(!new), A(!new), B(!new)>(xs: seq<A>, f: A -> B, key: A -> K1, key': B -> K2, h: K1 -> K2)
    requires forall x :: x in xs ==> key'(f(x)) == h(key(x))
    requires forall x, y :: x in xs && y in xs && h(key(x)) == h(key(y)) ==> key(x) == key(y)
    ensures Groups(Map(xs, f), key') == Map(Groups(xs, key), Through(f, h))
    decreases |xs|
  {
    if xs != [] {
      var k := key(xs[0]);
      var ys := Map(xs, f);
      assert xs[0] in xs && ys[1..] == Map(xs[1..], f);
      MapFilter(xs, f, HasKey(key, k), HasKey(key', h(k)));
      MapFilter(xs[1..], f, LacksKey(key, k), LacksKey(key', h(k)));
      MapGroups(Filter(xs[1..], LacksKey(key, k)), f, key, key', h);
    }
  }

  lemma MapSnoc<A(!new), B(!new)>(xs: seq<A>, x: A, f: A -> B)
    ensures Map(xs + [x], f) == Map(xs, f) + [f(x)]
  {
  }

  lemma InsertSnoc<A(!new)>(init: seq<A>, last: A, x: A, before: (A, A) -> bool)
    ensures InsertSorted(init + [last], x, before)
            == if before(x, last) then InsertSorted(init, x, before) + [last] else init + [last] + [x]
  {
    assert (init + [last])[..|init|] == init;
  }

  lemma {:induction false} MapInsert<A(!new), B(!new)>(ys: seq<A>, x: A, f: A -> B,
                                                       before: (A, A) -> bool, before': (B, B) -> bool)
    requires forall y :: y in ys ==> before'(f(x), f(y)) == before(x, y)
    ensures InsertSorted(Map(ys, f), f(x), before') == Map(InsertSorted(ys, x, before), f)
  {
    MapSnoc(ys, x, f);
    if ys != [] {
      hide Map, InsertSorted;
      var init, last := ys[..|ys| - 1], ys[|ys| - 1];
      assert ys == init + [last] && last in ys;
      assert forall y :: y in init ==> y in ys;
      MapSnoc(init, last, f);
      InsertSnoc(init, last, x, before);
      InsertSnoc(Map(init, f), f(last), f(x), before');
      if before(x, last) {
        MapInsert(init, x, f, before, before');
        MapSnoc(InsertSorted(init, x, before), last, f);
      }
    }
  }

  lemma {:induction false} InsertMembers<A(!new)>(ys: seq<A>, x: A, before: (A, A) -> bool)
    ensures |InsertSorted(ys, x, before)| == |ys| + 1
    ensures forall z :: z in InsertSorted(ys, x, before) <==> z in ys || z == x
  {
    if ys != [] && before(x, ys[|ys| - 1]) {
      InsertMembers(ys[..|ys| - 1], x, before);
      assert ys == ys[..|ys| - 1] + [ys[|ys| - 1]];
    }
  }

  lemma {:induction false} SortMembers<A(!new)>(xs: seq<A>, before: (A, A) -> bool)
    ensures |Sort(xs, before)| == |xs|
    ensures forall z :: z in Sort(xs, before) <==> z in xs
  {
    if xs != [] {
      var init, last := xs[..|xs| - 1], xs[|xs| - 1];
      SortMembers(init, before);
      InsertMembers(Sort(init, before), last, before);
      assert xs == init + [last];
    }
  }

  ghost predicate SameOrder<A(!new), B(!new)>(xs: seq<A>, f: A -> B, before: (A, A) -> bool, before': (B, B) -> bool) {
    forall x, y :: x in xs && y in xs ==> before'(f(x), f(y)) == before(x, y)
  }

  lemma SameOrderInit<A(!new), B(!new)>(xs: seq<A>, f: A -> B, before: (A, A) -> bool, before': (B, B) -> bool)
    requires xs != [] && SameOrder(xs, f, before, before')
    ensures var init, last := xs[..|xs| - 1], xs[|xs| - 1];
      && SameOrder(init, f, before, before')
      && forall y :: y in Sort(init, before) ==> before'(f(last), f(y)) == before(last, y)
  {
    var init, last := xs[..|xs| - 1], xs[|xs| - 1];
    SortMembers(init, before);
    assert last in xs && forall y :: y in init ==> y in xs;
  }

  lemma {:induction false} MapSort<A(!new), B(!new)>(xs: seq<A>, f: A -> B, before: (A, A) -> bool, before': (B, B) -> bool)
    requires SameOrder(xs, f, before, before')
    ensures Sort(Map(xs, f), before') == Map(Sort(xs, before), f)
  {
    if xs != [] {
      var init, last := xs[..|xs| - 1], xs[|xs| - 1];
      SameOrderInit(xs, f, before, before');
      hide SameOrder;
      assert Map(xs, f)[..|xs| - 1] == Map(init, f);
      MapSort(init, f, before, before');
      MapInsert(Sort(init, before), last, f, before, before');
    }
  }

  // ----- what Groups means -----

  /** One group a key that occurs, with exactly the elements that have it, in their order. */
  lemma {:induction false} GroupsExactly<K(!new), A(!new)>(xs: seq<A>, key: A -> K)
    ensures forall g :: g in Groups(xs, key) ==>
      g.members == Filter(xs, HasKey(key, g.key)) && g.members != []
    ensures forall x :: x in xs ==> exists g :: g in Groups(xs, key) && g.key == key(x)
    ensures forall i, j :: 0 <= i < j < |Groups(xs, key)| ==>
      Groups(xs, key)[i].key != Groups(xs, key)[j].key
    decreases |xs|
  {
    if xs != [] {
      var k := key(xs[0]);
      var first := Group(k, Filter(xs, HasKey(key, k)));
      var others := Filter(xs[1..], LacksKey(key, k));
      var rest := Groups(others, key);
      GroupsExactly(others, key);
      assert xs[0] in first.members;
      forall g | g in rest ensures g.key != k && g.members == Filter(xs, HasKey(key, g.key)) {
        assert g.members[0] in g.members && g.members[0] in others;
        FilterTwice(xs[1..], LacksKey(key, k), HasKey(key, g.key));
      }
      forall x | x in xs ensures exists g :: g in Groups(xs, key) && g.key == key(x) {
        if key(x) == k {
          assert first in Groups(xs, key);
        } else {
          assert x in others;
          var g :| g in rest && g.key == key(x);
          assert g in Groups(xs, key);
        }
      }
    }
  }

  lemma {:induction false} FilterTwice<A(!new)>(xs: seq<A>, p: A -> bool, q: A -> bool)
    requires forall x :: x in xs && q(x) ==> p(x)
    ensures Filter(Filter(xs, p), q) == Filter(xs, q)
  {
    if xs != [] {
      assert xs[0] in xs;
      FilterTwice(xs[1..], p, q);
    }
  }
}
