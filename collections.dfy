/** Insertion-ordered sets and maps, as JavaScript's `Set` and `Map` behave. */
module Collections {

  predicate NoDuplicates<T(==)>(s: seq<T>)
  {
    forall i, j :: 0 <= i < j < |s| ==> s[i] != s[j]
  }

  /** `set.add(x)`: an element already present leaves the set, and its order, unchanged. */
  function Insert<T(==)>(s: seq<T>, x: T): (r: seq<T>)
    ensures x in r
    ensures NoDuplicates(s) ==> NoDuplicates(r)
  {
    if x in s then s else s + [x]
  }

  /** Adding the elements of `xs`, left to right, to the set `s`. */
  function AddAll<T(==)>(s: seq<T>, xs: seq<T>): seq<T>
    decreases |xs|
  {
    if xs == [] then s else Insert(AddAll(s, xs[..|xs| - 1]), xs[|xs| - 1])
  }

  /** What `Array.from(new Set(xs))` returns: `xs` without its repetitions, first occurrences kept. */
  function Dedupe<T(==)>(xs: seq<T>): seq<T>
  {
    AddAll([], xs)
  }

  /** Adding a set of elements keeps what was there, in place, adds exactly the new elements and repeats nothing. */
  lemma {:induction false} AddAllProperties<T>(s: seq<T>, xs: seq<T>)
    requires NoDuplicates(s)
    ensures NoDuplicates(AddAll(s, xs))
    ensures |s| <= |AddAll(s, xs)| && AddAll(s, xs)[..|s|] == s
    ensures forall x :: x in AddAll(s, xs) <==> x in s || x in xs
    decreases |xs|
  {
    if xs != [] {
      var init := xs[..|xs| - 1];
      AddAllProperties(s, init);
      var prev := AddAll(s, init);
      assert xs == init + [xs[|xs| - 1]];
      if xs[|xs| - 1] !in prev {
        assert (prev + [xs[|xs| - 1]])[..|s|] == prev[..|s|];
      }
    }
  }

  lemma AddAllOne<T>(s: seq<T>, x: T)
    ensures AddAll(s, [x]) == Insert(s, x)
  {
    assert [x][..0] == [];
  }

  /** Adding `a` and then `b` is adding `a + b`. */
  lemma {:induction false} AddAllAppend<T>(s: seq<T>, a: seq<T>, b: seq<T>)
    ensures AddAll(s, a + b) == AddAll(AddAll(s, a), b)
    decreases |b|
  {
    if b == [] {
      assert a + b == a;
    } else {
      assert (a + b)[..|a + b| - 1] == a + b[..|b| - 1];
      AddAllAppend(s, a, b[..|b| - 1]);
    }
  }

  /** `xs.filter(y => y !== x)`. */
  function Remove<T(==)>(xs: seq<T>, x: T): (r: seq<T>)
    ensures forall y :: y in r ==> y in xs && y != x
    ensures forall y :: y in xs && y != x ==> y in r
    ensures NoDuplicates(xs) ==> NoDuplicates(r)
    decreases |xs|
  {
    if xs == [] then []
    else
      var init := Remove(xs[..|xs| - 1], x);
      assert xs == xs[..|xs| - 1] + [xs[|xs| - 1]];
      assert NoDuplicates(xs) ==> xs[|xs| - 1] !in xs[..|xs| - 1];
      if xs[|xs| - 1] == x then init else init + [xs[|xs| - 1]]
  }

  /** Filtering out each of `ps` in turn: exactly the elements outside `ps` remain. */
  function RemoveAll<T(==)>(xs: seq<T>, ps: seq<T>): (r: seq<T>)
    ensures forall y :: y in r ==> y in xs && y !in ps
    ensures forall y :: y in xs && y !in ps ==> y in r
    decreases |ps|
  {
    if ps == [] then xs
    else
      var r := Remove(RemoveAll(xs, ps[..|ps| - 1]), ps[|ps| - 1]);
      assert ps == ps[..|ps| - 1] + [ps[|ps| - 1]];
      r
  }

  /** Removing `a` and then `b` is removing `a + b`. */
  lemma {:induction false} RemoveAllAppend<T>(xs: seq<T>, a: seq<T>, b: seq<T>)
    ensures RemoveAll(xs, a + b) == RemoveAll(RemoveAll(xs, a), b)
    decreases |b|
  {
    if b == [] {
      assert a + b == a;
    } else {
      assert (a + b)[..|a + b| - 1] == a + b[..|b| - 1];
      RemoveAllAppend(xs, a, b[..|b| - 1]);
    }
  }

  /** Filtering out the first element, which occurs nowhere else, leaves the rest. */
  lemma {:induction false} RemoveFirst<T>(x: T, xs: seq<T>)
    requires x !in xs
    ensures Remove([x] + xs, x) == xs
    decreases |xs|
  {
    if xs != [] {
      var ys := [x] + xs;
      assert ys[..|ys| - 1] == [x] + xs[..|xs| - 1];
      RemoveFirst(x, xs[..|xs| - 1]);
      assert xs == xs[..|xs| - 1] + [xs[|xs| - 1]];
    } else {
      assert [x] + xs == [x];
      assert [x][..0] == [];
    }
  }

  /**
   * A JavaScript `Map` from strings: entries keep the position at which their key was first
   * inserted; `set` on a present key replaces the value in place; `delete` removes the key.
   */
  datatype OrderedMap<V> = OrderedMap(keys: seq<string>, entries: map<string, V>)
  {
    ghost predicate Valid()
    {
      NoDuplicates(keys) && forall k :: k in entries <==> k in keys
    }

    /** `map.set(k, v)`. */
    function Set(k: string, v: V): (m: OrderedMap<V>)
      requires Valid()
      ensures m.Valid()
      ensures m.entries == entries[k := v]
      ensures k in keys ==> m.keys == keys
      ensures k !in keys ==> m.keys == keys + [k]
    {
      OrderedMap(if k in entries then keys else keys + [k], entries[k := v])
    }

    /** `map.delete(k)`. */
    function Delete(k: string): (m: OrderedMap<V>)
      requires Valid()
      ensures m.Valid()
      ensures k !in m.entries
      ensures forall j :: j != k && j in entries ==> j in m.entries && m.entries[j] == entries[j]
      ensures m.keys == Remove(keys, k)
    {
      OrderedMap(Remove(keys, k), entries - {k})
    }

    /** `Array.from(map.values())`: the values in key order. */
    function Values(): (vs: seq<V>)
      requires Valid()
      ensures |vs| == |keys|
      ensures forall i :: 0 <= i < |keys| ==> vs[i] == entries[keys[i]]
    {
      ValuesOf(keys, entries)
    }
  }

  /** Every entry of a map is among its values. */
  lemma EntryListed<V>(m: OrderedMap<V>, k: string)
    requires m.Valid() && k in m.entries
    ensures m.entries[k] in m.Values()
  {
    var j :| 0 <= j < |m.keys| && m.keys[j] == k;
    assert m.Values()[j] == m.entries[k];
  }

  function ValuesOf<V>(keys: seq<string>, entries: map<string, V>): (vs: seq<V>)
    requires forall k :: k in keys ==> k in entries
    ensures |vs| == |keys|
    ensures forall i :: 0 <= i < |keys| ==> vs[i] == entries[keys[i]]
    decreases |keys|
  {
    if keys == [] then [] else ValuesOf(keys[..|keys| - 1], entries) + [entries[keys[|keys| - 1]]]
  }

  /** The empty `new Map()`. */
  function EmptyMap<V>(): (m: OrderedMap<V>)
    ensures m.Valid() && m.keys == []
  {
    OrderedMap([], map[])
  }
}
