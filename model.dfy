/**
  The two JPA entities of the catalogue, `Vin` (a wine, owning side of the
  pairing) and `Plat` (a dish, inverse side), with their hand-written
  `equals`/`hashCode` and the two operations that keep the pairing
  bidirectional: `Vin.addPlat` and `Vin.removePlat`.

  A Java `HashSet` field becomes a `set` field that the methods reassign; the
  inverse collection of a dish may be null, so it is an `Option<set<Vin>>`.
 */
module Model {
  import opened Wrappers
  import opened HashSets

  /**
    `Vin.class.hashCode()` and `Plat.class.hashCode()`. The JVM picks these
    values; nothing below depends on which, only on their being fixed.
   */
  const VinClassHash: int := 1
  const PlatClassHash: int := 2

  /** What `Plat.equals` compares. */
  function PlatKey(p: Plat): Key
  {
    if p.id.Some? then Id(p.id.value) else Instance(p)
  }

  /** What `Vin.equals` compares. */
  function VinKey(v: Vin): Key
  {
    if v.id.Some? then Id(v.id.value) else Instance(v)
  }

  class Plat {
    /** The surrogate key, `None` until the entity is persisted. */
    const id: Option<int>
    /** The wines paired with this dish; `None` is a null collection. */
    var vinsAccordes: Option<set<Vin>>

    /** The inverse collection, when present, is a hash set: no two equal wines. */
    ghost predicate Valid()
      reads this
    {
      vinsAccordes.Some? ==> Distinct(vinsAccordes.value, VinKey)
    }

    /** `new Plat()`, with the id the storage layer assigns given up front. */
    constructor (id: Option<int>)
      ensures this.id == id
      ensures vinsAccordes == Some({})
      ensures Valid()
    {
      this.id := id;
      vinsAccordes := Some({});
    }

    /** `equals(o)`: the same object, or another `Plat` with the same non-null id. */
    function Equals(o: object?): (r: bool)
      ensures r <==> o is Plat && PlatKey(this) == PlatKey(o as Plat)
    {
      if this == o then true
      else if o == null || !(o is Plat) then false
      else id.Some? && id == (o as Plat).id
    }

    /** `hashCode()`: the class's hash, whatever the id. */
    function HashCode(): int
    {
      PlatClassHash
    }
  }

  class Vin {
    /** The surrogate key, `None` until the entity is persisted. */
    const id: Option<int>
    /** The dishes paired with this wine (owning side of the join table). */
    var platsAccordes: set<Plat>

    /** The forward collection is a hash set: no two equal dishes. */
    ghost predicate Valid()
      reads this
    {
      Distinct(platsAccordes, PlatKey)
    }

    /** `new Vin()`, with the id the storage layer assigns given up front. */
    constructor (id: Option<int>)
      ensures this.id == id
      ensures platsAccordes == {}
      ensures Valid()
    {
      this.id := id;
      platsAccordes := {};
    }

    /** `equals(o)`: the same object, or another `Vin` with the same non-null id. */
    function Equals(o: object?): (r: bool)
      ensures r <==> o is Vin && VinKey(this) == VinKey(o as Vin)
    {
      if this == o then true
      else if o == null || !(o is Vin) then false
      else id.Some? && id == (o as Vin).id
    }

    /** `hashCode()`: the class's hash, whatever the id. */
    function HashCode(): int
    {
      VinClassHash
    }

    /**
      `addPlat(plat)`: a null dish is ignored; a dish equal to one already
      paired changes nothing; otherwise the dish joins `platsAccordes` and,
      when its inverse collection is not null, this wine joins that.
     */
    method AddPlat(plat: Plat?)
      requires Valid()
      requires plat != null ==> plat.Valid()
      modifies this`platsAccordes, (if plat == null then {} else {plat})`vinsAccordes
      ensures Valid()
      ensures plat != null ==> plat.Valid()
      ensures plat == null ==> platsAccordes == old(platsAccordes)
      ensures plat != null ==> AddedPlat(this, plat)
      ensures plat != null ==> Has<Plat>(platsAccordes, plat, PlatKey)
      ensures plat != null && old(Accorde(this, plat)) ==> Accorde(this, plat)
      ensures plat != null && plat.vinsAccordes.Some? && !old(Has<Plat>(platsAccordes, plat, PlatKey)) ==>
                Has(plat.vinsAccordes.value, this, VinKey)
    {
      if plat == null {
        return;
      }
      var (dishes, added) := Add<Plat>(platsAccordes, plat, PlatKey);
      platsAccordes := dishes;
      if added {
        var vins := plat.vinsAccordes;
        if vins.Some? {
          plat.vinsAccordes := Some(Add(vins.value, this, VinKey).0);
        }
      }
    }

    /**
      `removePlat(plat)`: a null dish or one that is not paired changes
      nothing; otherwise the paired dish equal to `plat` leaves
      `platsAccordes` and, when the inverse collection of `plat` is not null,
      this wine leaves that.
     */
    method RemovePlat(plat: Plat?)
      requires Valid()
      requires plat != null ==> plat.Valid()
      modifies this`platsAccordes, (if plat == null then {} else {plat})`vinsAccordes
      ensures Valid()
      ensures plat != null ==> plat.Valid()
      ensures plat == null ==> platsAccordes == old(platsAccordes)
      ensures plat != null ==> RemovedPlat(this, plat)
      ensures plat != null ==> !Has<Plat>(platsAccordes, plat, PlatKey)
      ensures plat != null && old(Accorde(this, plat)) ==> Accorde(this, plat)
      ensures plat != null && plat.vinsAccordes.Some? && old(Has<Plat>(platsAccordes, plat, PlatKey)) ==>
                !Has(plat.vinsAccordes.value, this, VinKey)
    {
      if plat == null {
        return;
      }
      var (dishes, removed) := Remove<Plat>(platsAccordes, plat, PlatKey);
      platsAccordes := dishes;
      if removed {
        var vins := plat.vinsAccordes;
        if vins.Some? {
          plat.vinsAccordes := Some(Remove(vins.value, this, VinKey).0);
        }
      }
    }
  }

  /** The new state of `w` and `d` after `w.addPlat(d)` for a non-null `d`. */
  twostate predicate AddedPlat(w: Vin, d: Plat)
    reads w, d
  {
    if Has(old(w.platsAccordes), d, PlatKey) then
      w.platsAccordes == old(w.platsAccordes) && d.vinsAccordes == old(d.vinsAccordes)
    else
      w.platsAccordes == old(w.platsAccordes) + {d} &&
      d.vinsAccordes == if old(d.vinsAccordes).None? then None
                        else Some(Add(old(d.vinsAccordes).value, w, VinKey).0)
  }

  /** The new state of `w` and `d` after `w.removePlat(d)` for a non-null `d`. */
  twostate predicate RemovedPlat(w: Vin, d: Plat)
    reads w, d
  {
    if !Has(old(w.platsAccordes), d, PlatKey) then
      w.platsAccordes == old(w.platsAccordes) && d.vinsAccordes == old(d.vinsAccordes)
    else
      w.platsAccordes == Remove(old(w.platsAccordes), d, PlatKey).0 &&
      d.vinsAccordes == if old(d.vinsAccordes).None? then None
                        else Some(Remove(old(d.vinsAccordes).value, w, VinKey).0)
  }

  /** The pairing invariant for one wine and one dish: d is in w's dishes iff w is in d's wines. */
  ghost predicate Accorde(w: Vin, d: Plat)
    reads w, d
  {
    d.vinsAccordes.Some? &&
    (Has(w.platsAccordes, d, PlatKey) <==> Has(d.vinsAccordes.value, w, VinKey))
  }

  /** The pairing invariant over a catalogue of wines and dishes. */
  ghost predicate Consistent(vins: set<Vin>, plats: set<Plat>)
    reads vins, plats
  {
    forall w, d :: w in vins && d in plats ==> Accorde(w, d)
  }

  /** At most one instance per entity, as within one persistence context. */
  ghost predicate OneInstancePerId(vins: set<Vin>, plats: set<Plat>)
  {
    Distinct(vins, VinKey) && Distinct(plats, PlatKey)
  }

  /** `w.addPlat(d)` keeps a consistent catalogue consistent. */
  twostate lemma AddPlatKeepsConsistent(vins: set<Vin>, plats: set<Plat>, w: Vin, d: Plat)
    requires w in vins && d in plats && OneInstancePerId(vins, plats)
    requires old(Consistent(vins, plats))
    requires AddedPlat(w, d)
    requires unchanged(vins - {w}) && unchanged(plats - {d})
    ensures Consistent(vins, plats)
  {
    forall v, p | v in vins && p in plats
      ensures Accorde(v, p)
    {
      assert old(Accorde(v, p));
      if !Has(old(w.platsAccordes), d, PlatKey) {
        if v == w {
          AddHas(old(w.platsAccordes), d, PlatKey, p);
        }
        if p == d {
          AddHas(old(d.vinsAccordes).value, w, VinKey, v);
        }
      }
    }
  }

  /** `w.removePlat(d)` keeps a consistent catalogue consistent. */
  twostate lemma RemovePlatKeepsConsistent(vins: set<Vin>, plats: set<Plat>, w: Vin, d: Plat)
    requires w in vins && d in plats && OneInstancePerId(vins, plats)
    requires old(Consistent(vins, plats))
    requires RemovedPlat(w, d)
    requires unchanged(vins - {w}) && unchanged(plats - {d})
    ensures Consistent(vins, plats)
  {
    forall v, p | v in vins && p in plats
      ensures Accorde(v, p)
    {
      assert old(Accorde(v, p));
      if Has(old(w.platsAccordes), d, PlatKey) {
        if v == w {
          RemoveHas(old(w.platsAccordes), d, PlatKey, p);
        }
        if p == d {
          RemoveHas(old(d.vinsAccordes).value, w, VinKey, v);
        }
      }
    }
  }

  /**
    `Plat.equals` is an equivalence: reflexive, symmetric and transitive; it is
    false for null and for an object of another class.
   */
  lemma PlatEqualsIsEquivalence(a: Plat, b: Plat, c: Plat, v: Vin)
    ensures a.Equals(a)
    ensures !a.Equals(null) && !a.Equals(v)
    ensures a.Equals(b) <==> b.Equals(a)
    ensures a.Equals(b) && b.Equals(c) ==> a.Equals(c)
  {
  }

  /**
    Two distinct dishes are equal exactly when the first has an id and the
    second has the same one; two dishes without an id are never equal.
   */
  lemma PlatEqualsById(a: Plat, b: Plat)
    requires a != b
    ensures a.Equals(b) <==> a.id.Some? && a.id == b.id
    ensures a.id.None? ==> !a.Equals(b)
  {
  }

  /** Every dish has the same hash code, so equal dishes have equal hash codes. */
  lemma PlatHashCodeIsConstant(a: Plat, b: Plat)
    ensures a.HashCode() == b.HashCode()
    ensures a.Equals(b) ==> a.HashCode() == b.HashCode()
  {
  }

  /** A hash set given two distinct dishes with one id keeps only the first. */
  lemma PlatSetHoldsOnePerId(a: Plat, b: Plat)
    requires a != b && a.id.Some? && a.id == b.id
    ensures Add(Add({}, a, PlatKey).0, b, PlatKey) == ({a}, false)
  {
    assert Has({a}, b, PlatKey);
  }

  /**
    `Vin.equals` is an equivalence: reflexive, symmetric and transitive; it is
    false for null and for an object of another class.
   */
  lemma VinEqualsIsEquivalence(a: Vin, b: Vin, c: Vin, p: Plat)
    ensures a.Equals(a)
    ensures !a.Equals(null) && !a.Equals(p)
    ensures a.Equals(b) <==> b.Equals(a)
    ensures a.Equals(b) && b.Equals(c) ==> a.Equals(c)
  {
  }

  /**
    Two distinct wines are equal exactly when the first has an id and the
    second has the same one; two wines without an id are never equal.
   */
  lemma VinEqualsById(a: Vin, b: Vin)
    requires a != b
    ensures a.Equals(b) <==> a.id.Some? && a.id == b.id
    ensures a.id.None? ==> !a.Equals(b)
  {
  }

  /** Every wine has the same hash code, so equal wines have equal hash codes. */
  lemma VinHashCodeIsConstant(a: Vin, b: Vin)
    ensures a.HashCode() == b.HashCode()
    ensures a.Equals(b) ==> a.HashCode() == b.HashCode()
  {
  }

  /**
    A wine that leaves a dish it is paired with and adds it again restores
    the pairing exactly, on both sides.
   */
  method LeaveAndReturn(w: Vin, d: Plat)
    requires w.Valid() && d.Valid()
    requires d in w.platsAccordes && d.vinsAccordes.Some? && w in d.vinsAccordes.value
    modifies w`platsAccordes, d`vinsAccordes
    ensures w.Valid() && d.Valid()
    ensures w.platsAccordes == old(w.platsAccordes)
    ensures d.vinsAccordes == old(d.vinsAccordes)
  {
    ghost var dishes, wines := w.platsAccordes, d.vinsAccordes.value;
    RemovePresent(dishes, d, PlatKey);
    RemovePresent(wines, w, VinKey);
    w.RemovePlat(d);
    assert w.platsAccordes == dishes - {d};
    assert d.vinsAccordes == Some(wines - {w});
    AddAbsent(dishes - {d}, d, PlatKey);
    AddAbsent(wines - {w}, w, VinKey);
    w.AddPlat(d);
    assert (dishes - {d}) + {d} == dishes;
    assert (wines - {w}) + {w} == wines;
  }

  /** Adding one dish three times pairs it once, on both sides. */
  method RepeatedAddScenario() returns (vin: Vin, plat: Plat)
    ensures vin.platsAccordes == {plat}
    ensures plat.vinsAccordes == Some({vin})
  {
    vin := new Vin(Some(1));
    plat := new Plat(Some(1));
    vin.AddPlat(plat);
    vin.AddPlat(plat);
    vin.AddPlat(plat);
  }

  /** A dish whose inverse collection is null still gets the forward link. */
  method NullInverseScenario() returns (vin: Vin, plat: Plat)
    ensures vin.platsAccordes == {plat}
    ensures plat.vinsAccordes == None
  {
    vin := new Vin(Some(1));
    plat := new Plat(Some(3));
    plat.vinsAccordes := None;
    vin.AddPlat(plat);
  }

  /** Two wines pair with one dish: it lists both, and each lists it. */
  method TwoWinesScenario() returns (vin1: Vin, vin2: Vin, plat: Plat)
    ensures fresh(vin1) && fresh(vin2) && fresh(plat)
    ensures vin1.id == Some(1) && vin2.id == Some(2) && plat.id == Some(1)
    ensures vin1.Valid() && vin2.Valid() && plat.Valid()
    ensures plat.vinsAccordes == Some({vin1, vin2})
    ensures vin1.platsAccordes == {plat} && vin2.platsAccordes == {plat}
  {
    vin1 := new Vin(Some(1));
    vin2 := new Vin(Some(2));
    plat := new Plat(Some(1));
    assert !Has(vin1.platsAccordes, plat, PlatKey);
    vin1.AddPlat(plat);
    assert vin1.platsAccordes == {plat};
    assert plat.vinsAccordes == Some({vin1});
    AddAbsent({vin1}, vin2, VinKey);
    assert Add({vin1}, vin2, VinKey).0 == {vin1, vin2};
    assert !Has(vin2.platsAccordes, plat, PlatKey);
    vin2.AddPlat(plat);
  }

  /** Three wines pair with one dish: it lists all three, and each lists it. */
  method ThreeWinesScenario() returns (vin1: Vin, vin2: Vin, vin3: Vin, plat: Plat)
    ensures fresh(vin1) && fresh(vin2) && fresh(vin3) && fresh(plat)
    ensures vin1.id == Some(1) && vin2.id == Some(2) && vin3.id == Some(3) && plat.id == Some(1)
    ensures vin1.Valid() && vin2.Valid() && vin3.Valid() && plat.Valid()
    ensures plat.vinsAccordes == Some({vin1, vin2, vin3})
    ensures vin1.platsAccordes == {plat} && vin2.platsAccordes == {plat} && vin3.platsAccordes == {plat}
  {
    vin1, vin2, plat := TwoWinesScenario();
    vin3 := new Vin(Some(3));
    AddAbsent({vin1, vin2}, vin3, VinKey);
    assert Add({vin1, vin2}, vin3, VinKey).0 == {vin1, vin2, vin3};
    assert !Has(vin3.platsAccordes, plat, PlatKey);
    vin3.AddPlat(plat);
  }

  /** One of three paired wines leaves the dish and comes back: the pairing is as before. */
  method LeaveAndReturnScenario() returns (vin1: Vin, vin2: Vin, vin3: Vin, plat: Plat)
    ensures fresh(vin1) && fresh(vin2) && fresh(vin3) && fresh(plat)
    ensures vin1.id == Some(1) && vin2.id == Some(2) && vin3.id == Some(3) && plat.id == Some(1)
    ensures vin1.Valid() && vin2.Valid() && vin3.Valid() && plat.Valid()
    ensures plat.vinsAccordes == Some({vin1, vin2, vin3})
    ensures vin1.platsAccordes == {plat} && vin2.platsAccordes == {plat} && vin3.platsAccordes == {plat}
  {
    vin1, vin2, vin3, plat := ThreeWinesScenario();
    RemovePresent({vin1, vin2, vin3}, vin2, VinKey);
    RemovePresent({plat}, plat, PlatKey);
    assert {vin1, vin2, vin3} - {vin2} == {vin1, vin3};
    assert {plat} - {plat} == {};
    vin2.RemovePlat(plat);
    assert plat.vinsAccordes == Some({vin1, vin3});
    AddAbsent({vin1, vin3}, vin2, VinKey);
    assert Add({vin1, vin3}, vin2, VinKey).0 == {vin1, vin2, vin3};
    assert !Has(vin2.platsAccordes, plat, PlatKey);
    vin2.AddPlat(plat);
  }

  /**
    Three wines pair with one dish; one of them leaves and comes back, the two
    others leave; only the one that came back stays paired, on both sides.
   */
  method SharedDishScenario() returns (vin1: Vin, vin2: Vin, vin3: Vin, plat: Plat)
    ensures plat.vinsAccordes == Some({vin2})
    ensures vin1.platsAccordes == {} && vin2.platsAccordes == {plat} && vin3.platsAccordes == {}
  {
    vin1, vin2, vin3, plat := LeaveAndReturnScenario();
    RemovePresent({vin1, vin2, vin3}, vin1, VinKey);
    RemovePresent({plat}, plat, PlatKey);
    assert {vin1, vin2, vin3} - {vin1} == {vin2, vin3};
    assert {plat} - {plat} == {};
    vin1.RemovePlat(plat);
    assert plat.vinsAccordes == Some({vin2, vin3});
    RemovePresent({vin2, vin3}, vin3, VinKey);
    assert {vin2, vin3} - {vin3} == {vin2};
    vin3.RemovePlat(plat);
  }
}
