/**
  The wine search of `VinService.searchVins`.

  The service turns four optional criteria into a list of restrictions (one
  per criterion that is set) and hands their conjunction to the repository,
  which returns the stored wines that satisfy it. Here the stored wines are a
  sequence of rows in storage order and the repository's query is a filter
  over it. Prices are whole numbers of cents.
 */
module VinService {
  import opened Wrappers

  /** The wine colours. */
  datatype CouleurVin = Rouge | Blanc | Rose | Orange | Bulle

  /**
    The columns of a stored wine that a search reads. `prix` and `couleur`
    may be null in the table; the `region` column is NOT NULL.
   */
  datatype VinRow = VinRow(prix: Option<int>, region: string, couleur: Option<CouleurVin>)

  /** The arguments of `searchVins`; `None` is a null argument. */
  datatype Criteres = Criteres(couleur: Option<CouleurVin>, minPrix: Option<int>, maxPrix: Option<int>, region: Option<string>)

  /** No criterion at all. */
  const SansCritere := Criteres(None, None, None, None)

  /** One predicate of the list the search builds. */
  datatype Restriction =
    | CouleurEgale(couleur: CouleurVin)
    | PrixAuMoins(min: int)
    | PrixAuPlus(max: int)
    | RegionContient(motif: string)

  /** ASCII lower case of one character. */
  function LowerChar(c: char): (r: char)
    ensures !('A' <= r <= 'Z')
    ensures !('A' <= c <= 'Z') ==> r == c
  {
    if 'A' <= c <= 'Z' then (c as int - 'A' as int + 'a' as int) as char else c
  }

  const Majuscules: string := "ABCDEFGHIJKLMNOPQRSTUVWXYZ"
  const Minuscules: string := "abcdefghijklmnopqrstuvwxyz"

  /** An ASCII letter, of either case. */
  predicate IsLetter(c: char)
  {
    'A' <= c <= 'Z' || 'a' <= c <= 'z'
  }

  /** The position of an ASCII letter in the alphabet, 0 for `A` and `a`. */
  function Rang(c: char): int
    requires IsLetter(c)
  {
    if 'A' <= c <= 'Z' then c as int - 'A' as int else c as int - 'a' as int
  }

  /** Two characters that are the same, or the two cases of one letter. */
  predicate SameUpToCase(a: char, b: char)
  {
    a == b || (IsLetter(a) && IsLetter(b) && Rang(a) == Rang(b))
  }

  /** ASCII lower case of a string, character by character. */
  function Lower(s: string): (r: string)
    ensures |r| == |s|
    ensures forall i :: 0 <= i < |s| ==> r[i] == LowerChar(s[i])
    ensures forall i :: 0 <= i < |r| ==> !('A' <= r[i] <= 'Z')
  {
    if s == [] then [] else [LowerChar(s[0])] + Lower(s[1..])
  }

  /** `s LIKE '%motif%'`: `motif` starts at some position of `s`. */
  predicate Contains(s: string, motif: string)
    ensures motif <= s ==> Contains(s, motif)
    ensures Contains(s, motif) ==> |motif| <= |s|
    decreases |s|
  {
    motif <= s || (|motif| < |s| && Contains(s[1..], motif))
  }

  /** The list of predicates `searchVins` builds, in the order it adds them. */
  function Restrictions(c: Criteres): (rs: seq<Restriction>)
    ensures |rs| <= 4
    ensures rs == [] <==> c.couleur.None? && c.minPrix.None? && c.maxPrix.None? && (c.region.None? || c.region.value == "")
    ensures forall k :: CouleurEgale(k) in rs <==> c.couleur == Some(k)
    ensures forall m :: PrixAuMoins(m) in rs <==> c.minPrix == Some(m)
    ensures forall m :: PrixAuPlus(m) in rs <==> c.maxPrix == Some(m)
    ensures forall q :: RegionContient(q) in rs <==> c.region.Some? && c.region.value != "" && q == Lower(c.region.value)
  {
    (if c.couleur.Some? then [CouleurEgale(c.couleur.value)] else [])
    + (if c.minPrix.Some? then [PrixAuMoins(c.minPrix.value)] else [])
    + (if c.maxPrix.Some? then [PrixAuPlus(c.maxPrix.value)] else [])
    + (if c.region.Some? && c.region.value != "" then [RegionContient(Lower(c.region.value))] else [])
  }

  /**
    Whether one predicate accepts a row. A comparison with a null column is
    not true, so a row without a price fails every price predicate and a row
    without a colour fails the colour predicate.
   */
  predicate Holds(r: Restriction, v: VinRow)
    ensures Holds(r, v) && (r.PrixAuMoins? || r.PrixAuPlus?) ==> v.prix.Some?
    ensures Holds(r, v) && r.CouleurEgale? ==> v.couleur.Some?
    ensures Holds(r, v) && r.RegionContient? ==> |r.motif| <= |v.region|
    ensures r.RegionContient? && r.motif == [] ==> Holds(r, v)
  {
    match r
    case CouleurEgale(k) => v.couleur == Some(k)
    case PrixAuMoins(m) => v.prix.Some? && m <= v.prix.value
    case PrixAuPlus(m) => v.prix.Some? && v.prix.value <= m
    case RegionContient(m) => Contains(Lower(v.region), m)
  }

  /** The AND of a list of predicates; the AND of no predicate accepts every row. */
  predicate AllHold(rs: seq<Restriction>, v: VinRow)
    ensures AllHold(rs, v) <==> forall i :: 0 <= i < |rs| ==> Holds(rs[i], v)
  {
    rs == [] || (Holds(rs[0], v) && AllHold(rs[1..], v))
  }

  /** The specification `searchVins` hands to the repository. */
  predicate Matches(v: VinRow, c: Criteres)
    ensures Matches(v, c) <==> forall r :: r in Restrictions(c) ==> Holds(r, v)
  {
    AllHold(Restrictions(c), v)
  }

  /** The rows the repository returns for the criteria, in storage order. */
  function SearchVins(vins: seq<VinRow>, c: Criteres): (r: seq<VinRow>)
    ensures |r| <= |vins|
    ensures multiset(r) <= multiset(vins)
    ensures forall v :: v in r <==> v in vins && Matches(v, c)
  {
    if vins == [] then []
    else
      assert vins == [vins[0]] + vins[1..];
      (if Matches(vins[0], c) then [vins[0]] else []) + SearchVins(vins[1..], c)
  }

  // ---------------------------------------------------------------------------
  // Each criterion on its own

  predicate CouleurOk(v: VinRow, c: Criteres)
  {
    c.couleur.Some? ==> v.couleur == c.couleur
  }

  predicate MinPrixOk(v: VinRow, c: Criteres)
  {
    c.minPrix.Some? ==> v.prix.Some? && c.minPrix.value <= v.prix.value
  }

  predicate MaxPrixOk(v: VinRow, c: Criteres)
  {
    c.maxPrix.Some? ==> v.prix.Some? && v.prix.value <= c.maxPrix.value
  }

  predicate RegionOk(v: VinRow, c: Criteres)
  {
    c.region.Some? && c.region.value != "" ==> Contains(Lower(v.region), Lower(c.region.value))
  }

  function CouleurSeule(c: Criteres): Criteres { SansCritere.(couleur := c.couleur) }
  function MinPrixSeul(c: Criteres): Criteres { SansCritere.(minPrix := c.minPrix) }
  function MaxPrixSeul(c: Criteres): Criteres { SansCritere.(maxPrix := c.maxPrix) }
  function RegionSeule(c: Criteres): Criteres { SansCritere.(region := c.region) }

  // ---------------------------------------------------------------------------
  // Lemmas

  /** The AND of two lists is the AND of their concatenation. */
  lemma {:induction false} AllHoldAppend(rs: seq<Restriction>, qs: seq<Restriction>, v: VinRow)
    ensures AllHold(rs + qs, v) <==> AllHold(rs, v) && AllHold(qs, v)
    decreases |rs|
  {
    if rs != [] {
      assert (rs + qs)[0] == rs[0];
      assert (rs + qs)[1..] == rs[1..] + qs;
      AllHoldAppend(rs[1..], qs, v);
    } else {
      assert rs + qs == qs;
    }
  }

  /**
    A row matches exactly when it meets every criterion that is set: the
    colour, the inclusive lower and upper price bounds, and the region
    substring ignoring case; a null or empty region sets nothing.
   */
  lemma MatchesIffEveryCriterion(v: VinRow, c: Criteres)
    ensures Matches(v, c) <==> CouleurOk(v, c) && MinPrixOk(v, c) && MaxPrixOk(v, c) && RegionOk(v, c)
  {
    var a := if c.couleur.Some? then [CouleurEgale(c.couleur.value)] else [];
    var b := if c.minPrix.Some? then [PrixAuMoins(c.minPrix.value)] else [];
    var d := if c.maxPrix.Some? then [PrixAuPlus(c.maxPrix.value)] else [];
    var e := if c.region.Some? && c.region.value != "" then [RegionContient(Lower(c.region.value))] else [];
    assert Restrictions(c) == a + b + d + e;
    AllHoldAppend(a + b + d, e, v);
    AllHoldAppend(a + b, d, v);
    AllHoldAppend(a, b, v);
  }

  /** A search with no criterion, or only an empty region, returns every row in order. */
  lemma {:induction false} NoCriterionReturnsAll(vins: seq<VinRow>, c: Criteres)
    requires c.couleur.None? && c.minPrix.None? && c.maxPrix.None?
    requires c.region.None? || c.region.value == ""
    ensures Restrictions(c) == []
    ensures SearchVins(vins, c) == vins
  {
    if vins != [] {
      NoCriterionReturnsAll(vins[1..], c);
    }
  }

  /**
    The search keeps every copy of a matching row and no copy of another one,
    so it removes rows and never reorders, duplicates or invents them.
   */
  lemma {:induction false} SearchCounts(vins: seq<VinRow>, c: Criteres, v: VinRow)
    ensures multiset(SearchVins(vins, c))[v] == if Matches(v, c) then multiset(vins)[v] else 0
  {
    if vins != [] {
      assert vins == [vins[0]] + vins[1..];
      SearchCounts(vins[1..], c, v);
    }
  }

  /** Searching a concatenation searches each part. */
  lemma {:induction false} SearchAppend(a: seq<VinRow>, b: seq<VinRow>, c: Criteres)
    ensures SearchVins(a + b, c) == SearchVins(a, c) + SearchVins(b, c)
    decreases |a|
  {
    if a != [] {
      var head := if Matches(a[0], c) then [a[0]] else [];
      assert (a + b)[0] == a[0];
      assert (a + b)[1..] == a[1..] + b;
      assert SearchVins(a + b, c) == head + SearchVins(a[1..] + b, c);
      assert SearchVins(a, c) == head + SearchVins(a[1..], c);
      SearchAppend(a[1..], b, c);
    } else {
      assert a + b == b;
    }
  }

  /** Filtering the result of one search by a second gives the search whose matches are those of both. */
  lemma {:induction false} SearchOfSearch(vins: seq<VinRow>, c1: Criteres, c2: Criteres, c: Criteres)
    requires forall v :: Matches(v, c) <==> Matches(v, c1) && Matches(v, c2)
    ensures SearchVins(SearchVins(vins, c1), c2) == SearchVins(vins, c)
  {
    if vins != [] {
      var head := if Matches(vins[0], c1) then [vins[0]] else [];
      SearchOfSearch(vins[1..], c1, c2, c);
      SearchAppend(head, SearchVins(vins[1..], c1), c2);
      assert Matches(vins[0], c) <==> Matches(vins[0], c1) && Matches(vins[0], c2);
    }
  }

  /** A row matches exactly when it matches each criterion searched for alone. */
  lemma MatchesIffEachAlone(v: VinRow, c: Criteres)
    ensures Matches(v, c) <==>
      Matches(v, CouleurSeule(c)) && Matches(v, MinPrixSeul(c)) &&
      Matches(v, MaxPrixSeul(c)) && Matches(v, RegionSeule(c))
  {
    MatchesIffEveryCriterion(v, c);
    MatchesIffEveryCriterion(v, CouleurSeule(c));
    MatchesIffEveryCriterion(v, MinPrixSeul(c));
    MatchesIffEveryCriterion(v, MaxPrixSeul(c));
    MatchesIffEveryCriterion(v, RegionSeule(c));
  }

  /**
    The criteria combine with AND: searching with all of them returns what
    searching with each one alone, one after the other, leaves.
   */
  lemma SearchIsIntersection(vins: seq<VinRow>, c: Criteres)
    ensures SearchVins(vins, c) ==
      SearchVins(SearchVins(SearchVins(SearchVins(vins, CouleurSeule(c)), MinPrixSeul(c)), MaxPrixSeul(c)), RegionSeule(c))
  {
    var cm := CouleurSeule(c).(minPrix := c.minPrix);
    var cmx := cm.(maxPrix := c.maxPrix);
    forall v
      ensures Matches(v, cm) <==> Matches(v, CouleurSeule(c)) && Matches(v, MinPrixSeul(c))
      ensures Matches(v, cmx) <==> Matches(v, cm) && Matches(v, MaxPrixSeul(c))
      ensures Matches(v, c) <==> Matches(v, cmx) && Matches(v, RegionSeule(c))
    {
      MatchesIffEachAlone(v, c);
      MatchesIffEachAlone(v, cm);
      MatchesIffEachAlone(v, cmx);
    }
    SearchOfSearch(vins, CouleurSeule(c), MinPrixSeul(c), cm);
    SearchOfSearch(vins, cm, MaxPrixSeul(c), cmx);
    SearchOfSearch(vins, cmx, RegionSeule(c), c);
  }

  /** `c2` keeps every criterion `c1` sets, with the same value, and may set more. */
  predicate Narrows(c2: Criteres, c1: Criteres)
  {
    && (c1.couleur.Some? ==> c2.couleur == c1.couleur)
    && (c1.minPrix.Some? ==> c2.minPrix == c1.minPrix)
    && (c1.maxPrix.Some? ==> c2.maxPrix == c1.maxPrix)
    && (c1.region.Some? && c1.region.value != "" ==> c2.region == c1.region)
  }

  /** Adding a criterion never enlarges the result: it only filters what the search returned before. */
  lemma AddingCriterionNarrows(vins: seq<VinRow>, c1: Criteres, c2: Criteres)
    requires Narrows(c2, c1)
    ensures SearchVins(vins, c2) == SearchVins(SearchVins(vins, c1), c2)
    ensures |SearchVins(vins, c2)| <= |SearchVins(vins, c1)|
  {
    forall v
      ensures Matches(v, c2) <==> Matches(v, c1) && Matches(v, c2)
    {
      MatchesIffEveryCriterion(v, c1);
      MatchesIffEveryCriterion(v, c2);
    }
    SearchOfSearch(vins, c1, c2, c2);
  }

  /** A lower price bound above the upper one is accepted and matches no row. */
  lemma {:induction false} InvertedRangeMatchesNothing(vins: seq<VinRow>, c: Criteres)
    requires c.minPrix.Some? && c.maxPrix.Some? && c.minPrix.value > c.maxPrix.value
    ensures SearchVins(vins, c) == []
  {
    if vins != [] {
      MatchesIffEveryCriterion(vins[0], c);
      InvertedRangeMatchesNothing(vins[1..], c);
    }
  }

  /** Lower case is idempotent and keeps the length. */
  lemma {:induction false} LowerLower(s: string)
    ensures |Lower(s)| == |s|
    ensures Lower(Lower(s)) == Lower(s)
  {
    if s != [] {
      LowerLower(s[1..]);
      assert Lower(s)[0] == LowerChar(s[0]);
      assert Lower(s)[1..] == Lower(s[1..]);
    }
  }

  /** Lower case works character by character. */
  lemma {:induction false} LowerAt(s: string, i: nat)
    requires i < |s|
    ensures |Lower(s)| == |s| && Lower(s)[i] == LowerChar(s[i])
  {
    LowerLower(s);
    if i > 0 {
      LowerAt(s[1..], i - 1);
    }
  }

  /** Lower-casing maps the `k`-th capital letter to the `k`-th small letter. */
  lemma LowerCharFoldsAlphabet(c: char, k: int)
    requires 0 <= k < 26 && c == Majuscules[k]
    ensures LowerChar(c) == Minuscules[k]
  {
  }

  /** Lower-casing merges two characters exactly when they are the two cases of one letter. */
  lemma LowerCharMergesOnlyCase(a: char, b: char)
    ensures LowerChar(a) == LowerChar(b) <==> SameUpToCase(a, b)
  {
  }

  /** Two strings of one length that agree at every position up to case. */
  predicate AgreeUpToCase(s: string, t: string)
  {
    |s| == |t| && forall i :: 0 <= i < |s| ==> SameUpToCase(s[i], t[i])
  }

  /** Strings that agree up to case at every position are equal in lower case. */
  lemma SameUpToCaseLowerEqual(s: string, t: string)
    requires AgreeUpToCase(s, t)
    ensures Lower(s) == Lower(t)
  {
    var ls, lt := Lower(s), Lower(t);
    forall i | 0 <= i < |s|
      ensures ls[i] == lt[i]
    {
      LowerCharMergesOnlyCase(s[i], t[i]);
    }
  }

  /** Strings equal in lower case agree up to case at every position. */
  lemma LowerEqualSameUpToCase(s: string, t: string, i: int)
    requires Lower(s) == Lower(t)
    requires 0 <= i < |s|
    ensures |s| == |t| && SameUpToCase(s[i], t[i])
  {
    assert LowerChar(s[i]) == Lower(s)[i];
    LowerCharMergesOnlyCase(s[i], t[i]);
  }

  /**
    Two strings are equal in lower case exactly when they have the same
    length and agree at every position up to the case of a letter.
   */
  lemma LowerEqualIffSameUpToCase(s: string, t: string)
    ensures Lower(s) == Lower(t) <==> AgreeUpToCase(s, t)
  {
    if AgreeUpToCase(s, t) {
      SameUpToCaseLowerEqual(s, t);
    }
    if Lower(s) == Lower(t) {
      assert |s| == |Lower(s)| == |Lower(t)| == |t|;
      forall i | 0 <= i < |s|
        ensures SameUpToCase(s[i], t[i])
      {
        LowerEqualSameUpToCase(s, t, i);
      }
    }
  }

  /** `motif` occurs in `s` at position `i`. */
  predicate OccursAt(s: string, motif: string, i: int)
  {
    0 <= i <= |s| - |motif| && s[i..i + |motif|] == motif
  }

  /** `Contains` says that the pattern occurs at some position. */
  lemma {:induction false} ContainsIffOccurs(s: string, motif: string)
    ensures Contains(s, motif) <==> exists i :: OccursAt(s, motif, i)
    decreases |s|
  {
    if motif <= s {
      assert OccursAt(s, motif, 0);
    } else if |motif| < |s| {
      ContainsIffOccurs(s[1..], motif);
      if Contains(s[1..], motif) {
        var i :| OccursAt(s[1..], motif, i);
        assert s[1..][i..i + |motif|] == s[i + 1..i + 1 + |motif|];
        assert OccursAt(s, motif, i + 1);
      }
      if exists i :: OccursAt(s, motif, i) {
        var i :| OccursAt(s, motif, i);
        assert i != 0;
        assert s[1..][i - 1..i - 1 + |motif|] == s[i..i + |motif|];
        assert OccursAt(s[1..], motif, i - 1);
      }
    }
  }

  /**
    The region criterion ignores case on both sides: two criteria that are
    equal in lower case select the same rows, and so do two region columns.
   */
  lemma RegionIgnoresCase(v: VinRow, w: VinRow, c: Criteres, q1: string, q2: string)
    requires Lower(q1) == Lower(q2)
    requires Lower(v.region) == Lower(w.region) && v.prix == w.prix && v.couleur == w.couleur
    ensures Matches(v, c.(region := Some(q1))) <==> Matches(w, c.(region := Some(q2)))
  {
    LowerLower(q1);
    LowerLower(q2);
    MatchesIffEveryCriterion(v, c.(region := Some(q1)));
    MatchesIffEveryCriterion(w, c.(region := Some(q2)));
  }

  /** An empty region sets no criterion, exactly as a null one. */
  lemma EmptyRegionIsNoCriterion(c: Criteres)
    ensures Restrictions(c.(region := Some(""))) == Restrictions(c.(region := None))
  {
  }

  /** Lower-casing leaves a string without capital letters as it is. */
  lemma LowerKeepsSmall(s: string)
    requires forall i :: 0 <= i < |s| ==> !('A' <= s[i] <= 'Z')
    ensures Lower(s) == s
  {
    assert forall i :: 0 <= i < |s| ==> Lower(s)[i] == s[i];
  }

  /** "bourgogne" occurs in the lower case of "France (Bourgogne)", after "france (". */
  lemma BourgogneOccurs(region: string)
    requires region == "France (Bourgogne)"
    ensures OccursAt(Lower(region), "bourgogne", 8)
  {
    LowerLower(region);
    forall k | 0 <= k < 9
      ensures Lower(region)[8 + k] == "bourgogne"[k]
    {
      LowerAt(region, 8 + k);
    }
  }

  /** A search for the region "bourgogne" finds a wine of "France (Bourgogne)". */
  lemma RegionExampleMatches(v: VinRow)
    requires v.region == "France (Bourgogne)"
    ensures Matches(v, SansCritere.(region := Some("bourgogne")))
  {
    BourgogneOccurs(v.region);
    ContainsIffOccurs(Lower(v.region), "bourgogne");
    LowerKeepsSmall("bourgogne");
    MatchesIffEveryCriterion(v, SansCritere.(region := Some("bourgogne")));
  }

  /** A search for the region "bourgogne" leaves out a wine of "Bordeaux". */
  lemma RegionExampleExcludes(w: VinRow)
    requires w.region == "Bordeaux"
    ensures !Matches(w, SansCritere.(region := Some("bourgogne")))
  {
    LowerLower(w.region);
    LowerKeepsSmall("bourgogne");
    MatchesIffEveryCriterion(w, SansCritere.(region := Some("bourgogne")));
  }

  /** Between 70.00 and 150.00 inclusive, wines at 60.00, 85.50 and 150.00 give the last two. */
  lemma PriceRangeExample(w1: VinRow, w2: VinRow, w3: VinRow)
    requires w1.prix == Some(6000) && w2.prix == Some(8550) && w3.prix == Some(15000)
    ensures SearchVins([w1, w2, w3], SansCritere.(minPrix := Some(7000), maxPrix := Some(15000))) == [w2, w3]
  {
    var c := SansCritere.(minPrix := Some(7000), maxPrix := Some(15000));
    MatchesIffEveryCriterion(w1, c);
    MatchesIffEveryCriterion(w2, c);
    MatchesIffEveryCriterion(w3, c);
    assert !Matches(w1, c) && Matches(w2, c) && Matches(w3, c);
    assert [w3][1..] == [];
    assert SearchVins([w3], c) == [w3];
    assert [w2, w3][1..] == [w3];
    assert SearchVins([w2, w3], c) == [w2, w3];
    assert [w1, w2, w3][1..] == [w2, w3];
  }
}
