/**
  The `java.util.HashSet` behaviour that the catalogue's entities see.

  Both entity classes return one constant `hashCode` for every instance, so all
  elements of a set share one bucket and a lookup compares the probe with every
  element through `equals`. Their `equals` holds exactly when the two objects
  have the same `Key`: the id when one is set, otherwise the object itself.
  A set is therefore modelled as a Dafny `set` of objects whose membership test
  is "some element has the probe's key".
 */
module HashSets {

  /** What an entity's `equals` compares: its id if it has one, else its identity. */
  datatype Key = Id(id: int) | Instance(obj: object)

  /** `s.contains(x)`: some element of `s` is equal to `x`. */
  predicate Has<T>(s: set<T>, x: T, key: T -> Key)
  {
    exists e :: e in s && key(e) == key(x)
  }

  /** A hash set never holds two equal elements. */
  predicate Distinct<T>(s: set<T>, key: T -> Key)
  {
    forall a, b :: a in s && b in s && key(a) == key(b) ==> a == b
  }

  /**
    `s.add(x)`: the new set and the boolean `add` returns. An element equal to
    `x` that is already present is kept and `x` is not inserted.
   */
  function Add<T>(s: set<T>, x: T, key: T -> Key): (r: (set<T>, bool))
    ensures r.1 <==> !Has(s, x, key)
    ensures r.1 ==> r.0 == s + {x}
    ensures !r.1 ==> r.0 == s
    ensures Has(r.0, x, key)
    ensures Distinct(s, key) ==> Distinct(r.0, key)
    ensures |r.0| == |s| + (if r.1 then 1 else 0)
  {
    if Has(s, x, key) then (s, false) else (s + {x}, true)
  }

  /**
    `s.remove(x)`: the new set and the boolean `remove` returns. The element
    equal to `x` leaves the set, whichever object it is.
   */
  function Remove<T>(s: set<T>, x: T, key: T -> Key): (r: (set<T>, bool))
    ensures r.1 <==> Has(s, x, key)
    ensures r.0 <= s
    ensures !r.1 ==> r.0 == s
    ensures !Has(r.0, x, key)
    ensures forall e :: e in s && key(e) != key(x) ==> e in r.0
    ensures Distinct(s, key) ==> Distinct(r.0, key)
    ensures Distinct(s, key) ==> |r.0| == |s| - (if r.1 then 1 else 0)
  {
    var rest := set e | e in s && key(e) != key(x);
    RemoveDistinctSize(s, x, key, rest);
    (rest, Has(s, x, key))
  }

  /** In a set without equal elements, removing by key drops at most one element. */
  lemma RemoveDistinctSize<T>(s: set<T>, x: T, key: T -> Key, rest: set<T>)
    requires rest == set e | e in s && key(e) != key(x)
    ensures Distinct(s, key) ==> |rest| == |s| - (if Has(s, x, key) then 1 else 0)
  {
    if Distinct(s, key) && Has(s, x, key) {
      var e :| e in s && key(e) == key(x);
      assert rest == s - {e};
    } else if Distinct(s, key) {
      assert rest == s;
    }
  }

  /** After `add(x)`, the set contains exactly what it contained before, and `x`. */
  lemma AddHas<T>(s: set<T>, x: T, key: T -> Key, y: T)
    ensures Has(Add(s, x, key).0, y, key) <==> Has(s, y, key) || key(y) == key(x)
  {
    if key(y) == key(x) {
      assert Has(Add(s, x, key).0, x, key);
    }
  }

  /** After `remove(x)`, the set contains exactly what it contained before, except `x`. */
  lemma RemoveHas<T>(s: set<T>, x: T, key: T -> Key, y: T)
    ensures Has(Remove(s, x, key).0, y, key) <==> Has(s, y, key) && key(y) != key(x)
  {
    var r := Remove(s, x, key).0;
    if Has(s, y, key) && key(y) != key(x) {
      var e :| e in s && key(e) == key(y);
      assert e in r;
    }
  }

  /** Adding an element no element of the set is equal to inserts it. */
  lemma AddAbsent<T>(s: set<T>, x: T, key: T -> Key)
    requires forall e :: e in s ==> key(e) != key(x)
    ensures Add(s, x, key) == (s + {x}, true)
  {
  }

  /** Removing an element the set holds, from a set without equal elements, drops exactly it. */
  lemma RemovePresent<T>(s: set<T>, x: T, key: T -> Key)
    requires x in s && Distinct(s, key)
    ensures Remove(s, x, key) == (s - {x}, true)
  {
    assert Remove(s, x, key).0 == s - {x};
  }
}
