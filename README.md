# Sommelier catalogue: wine–dish pairing and wine search

The sommelier API is a Spring/JPA catalogue of wines (`Vin`) and dishes
(`Plat`). Two pieces of it hold logic beyond persistence plumbing, and this
Dafny project models both and proves their properties:

1. **The pairing association.** A wine owns the set of its paired dishes
   (`platsAccordes`). A dish mirrors it in the set of its paired wines
   (`vinsAccordes`), and that set may be null. `Vin.addPlat` and
   `Vin.removePlat` update both sets in place. A null dish, adding a dish
   already paired and removing a dish that is not paired are no-ops; a null
   inverse set only skips the reverse update, and the wine's own set still
   changes. Set membership is decided by the entities' hand-written `equals`:
   the same object, or the same non-null id. `hashCode` is one constant per
   class, so a `HashSet` of entities compares a probe with every element
   through `equals`.
2. **The wine search.** `VinService.searchVins` builds a list of up to four
   predicates: exact colour, inclusive minimum price, inclusive maximum price,
   and a case-insensitive region substring. The region predicate is added only
   when the region is neither null nor empty. The list is combined with AND,
   so an empty list accepts every wine.

Files:

- `wrappers.dfy`: module `Wrappers`, the `Option` type that stands for a
  nullable value.
- `hash_sets.dfy`: module `HashSets`, the behaviour of a `java.util.HashSet`
  whose elements all share one hash code. A `Key` is what `equals` compares:
  `Id(n)` when the entity has id `n`, `Instance(o)` when it has none. `Has`
  is `contains`, and `Add` and `Remove` return the new set and the boolean
  that `add` and `remove` return.
- `model.dfy`: module `Model`, the classes `Plat` and `Vin` with their
  fields, `Equals`, `HashCode`, `AddPlat` and `RemovePlat`.
  - `AddPlat` and `RemovePlat` state the complete new state of both sets
    through the two-state predicates `AddedPlat` and `RemovedPlat`. Their
    field-level `modifies` frames say that nothing else changes.
  - `Accorde(w, d)` is the pairing invariant for one pair: `d` is in `w`'s
    dishes iff `w` is in `d`'s wines, and `d`'s set is not null.
    `Consistent(vins, plats)` is that invariant over a whole catalogue. Two
    two-state lemmas prove that each operation keeps a consistent catalogue
    consistent.
  - `LeaveAndReturn` shows, for any paired wine and dish, that removing the
    dish and adding it again restores both sets.
  - Six scenario methods (`RepeatedAddScenario`, `NullInverseScenario`,
    `TwoWinesScenario`, `ThreeWinesScenario`, `LeaveAndReturnScenario`,
    `SharedDishScenario`)
    replay test sequences of the project's tests on fresh objects, to check that
    the contracts determine the resulting state.
  - The classes keep only the fields the pairing and `equals` read: the id
    and the two collections. The names, ingredients and allergens play no
    part in `equals`, `hashCode`, `addPlat` or `removePlat`.
- `vin_service.dfy`: module `VinService`.
  - `Restrictions` is the predicate list. `Holds` and `AllHold` are the
    predicates and their AND. `Matches` is the specification handed to the
    Spring Data repository.
  - `SearchVins` stands for the Spring Data repository query: it filters a sequence of
    stored rows (`VinRow`) in storage order. A `VinRow` is the value the
    query reads from a stored wine's columns (price, region, colour). It is a separate type from the `Vin` class because the search
    neither reads nor changes the pairing collections.
  - The lemmas state the search's properties against a reference reading of
    each criterion on its own (`CouleurOk`, `MinPrixOk`, `MaxPrixOk`,
    `RegionOk`).

Modelling choices:

- Prices are whole numbers of cents, in the rows and in the criteria.
- SQL compares a null column as "unknown", so a row whose `prix` is null fails
  every active price criterion. A row whose `couleur` is null fails an active
  colour criterion. Without such a criterion, both rows match.
- The region test is `lower(region) LIKE '%' + lower(criterion) + '%'`. It is
  modelled as ASCII lower case on both sides followed by a plain substring
  test (`Contains`).
- A stored region is never null, because its column is NOT NULL
  (`@Column(nullable = false)` on `region`). `VinRow.region` is therefore a
  plain string, and a row with a null region cannot arise.
- The colour values are `Rouge`, `Blanc`, `Rose`, `Orange` and `Bulle`, the
  values the project's tests use. `CouleurVin.java` is not part of this
  model.
- The pairing invariant is proved for a catalogue holding at most one
  instance per id (`OneInstancePerId`), which a JPA persistence context
  guarantees. Suppose two distinct `Plat` objects `p1` and `p2` share an id,
  and `p1` is the one that is paired. Then `removePlat(p2)` removes `p1` from
  the wine's set, but it unlinks the wine from `p2`'s inverse set, so `p1`'s
  inverse set still lists the wine.
- The search does not reject a minimum price above the maximum: such a
  search runs and matches nothing (`InvertedRangeMatchesNothing`). It ignores
  only a null or empty region, so a region made only of spaces is searched
  for literally.

## Model

| member | source | states |
|---|---|---|
| `HashSets.Add` | src/main/java/com/vinotech/sommelier_api/model/Vin.java:50 | `add` returns true iff no equal element is present; it then inserts the element, otherwise it leaves the set as it was; afterwards the set contains the element; the size grows by exactly the returned boolean; a set without equal elements stays so |
| `HashSets.AddHas` | src/main/java/com/vinotech/sommelier_api/model/Vin.java:50 | after `add(x)`, `contains(y)` holds iff it held before or `y` equals `x` |
| `HashSets.AddAbsent` | src/main/java/com/vinotech/sommelier_api/model/Vin.java:50 | adding an element that no element equals inserts exactly it and returns true |
| `HashSets.Remove` | src/main/java/com/vinotech/sommelier_api/model/Vin.java:67 | `remove` returns true iff an equal element is present; the new set is a subset that no longer contains `x`, keeps every element not equal to `x`, is unchanged when it returns false, and in a set without equal elements shrinks by exactly the returned boolean |
| `HashSets.RemoveHas` | src/main/java/com/vinotech/sommelier_api/model/Vin.java:67 | after `remove(x)`, `contains(y)` holds iff it held before and `y` is not equal to `x` |
| `HashSets.RemovePresent` | src/main/java/com/vinotech/sommelier_api/model/Vin.java:67 | removing an element the set holds, from a set without equal elements, drops exactly that element and returns true |
| `Model.Plat.constructor` | src/main/java/com/vinotech/sommelier_api/model/Plat.java:48-49 | a new dish has the given id and a non-null empty `vinsAccordes` |
| `Model.Plat.Equals` | src/main/java/com/vinotech/sommelier_api/model/Plat.java:35-40 | `equals(o)` holds iff `o` is a `Plat` with the same key: the same object, or the same non-null id |
| `Model.PlatEqualsIsEquivalence` | src/main/java/com/vinotech/sommelier_api/model/Plat.java:35-40 | `Plat.equals` is reflexive, symmetric and transitive, and false for null and for a `Vin` |
| `Model.PlatEqualsById` | src/main/java/com/vinotech/sommelier_api/model/Plat.java:39 | two distinct dishes are equal iff the first has an id equal to the second's; a dish without an id equals no other dish |
| `Model.Plat.HashCode` | src/main/java/com/vinotech/sommelier_api/model/Plat.java:42-45 | the class hash whatever the fields; what this promises is stated by `PlatHashCodeIsConstant` |
| `Model.PlatHashCodeIsConstant` | src/main/java/com/vinotech/sommelier_api/model/Plat.java:42-45 | every dish has the same hash code, so equal dishes have equal hash codes |
| `Model.PlatSetHoldsOnePerId` | src/main/java/com/vinotech/sommelier_api/model/Plat.java:35-45 | a hash set given two distinct dishes that share an id keeps only the first, and the second `add` returns false |
| `Model.Vin.constructor` | src/main/java/com/vinotech/sommelier_api/model/Vin.java:83 | a new wine has the given id and an empty `platsAccordes` |
| `Model.Vin.Equals` | src/main/java/com/vinotech/sommelier_api/model/Vin.java:92-97 | `equals(o)` holds iff `o` is a `Vin` with the same key: the same object, or the same non-null id |
| `Model.VinEqualsIsEquivalence` | src/main/java/com/vinotech/sommelier_api/model/Vin.java:92-97 | `Vin.equals` is reflexive, symmetric and transitive, and false for null and for a `Plat` |
| `Model.VinEqualsById` | src/main/java/com/vinotech/sommelier_api/model/Vin.java:96 | two distinct wines are equal iff the first has an id equal to the second's; two wines without an id are never equal |
| `Model.Vin.HashCode` | src/main/java/com/vinotech/sommelier_api/model/Vin.java:104-107 | the class hash whatever the fields; what this promises is stated by `VinHashCodeIsConstant` |
| `Model.VinHashCodeIsConstant` | src/main/java/com/vinotech/sommelier_api/model/Vin.java:104-107 | every wine has the same hash code, so equal wines have equal hash codes |
| `Model.Vin.AddPlat` | src/main/java/com/vinotech/sommelier_api/model/Vin.java:46-56 | a null dish changes nothing; a dish equal to a paired one leaves both sets as they were; otherwise the dish joins `platsAccordes` and, if the dish's set is not null, the wine joins it (a null set stays null); afterwards the dish is paired; the pair invariant is kept; both sets stay free of equal elements; nothing outside the two sets changes |
| `Model.Vin.RemovePlat` | src/main/java/com/vinotech/sommelier_api/model/Vin.java:63-73 | a null or unpaired dish changes nothing; otherwise the paired dish equal to it leaves `platsAccordes` and, if the dish's set is not null, the wine leaves it; afterwards the dish is not paired; the pair invariant is kept; nothing outside the two sets changes |
| `Model.AddPlatKeepsConsistent` | src/main/java/com/vinotech/sommelier_api/model/Vin.java:41-56 | if every wine–dish pair of a catalogue with one instance per id satisfies "d in w's dishes iff w in d's wines" before `addPlat`, every pair satisfies it after |
| `Model.RemovePlatKeepsConsistent` | src/main/java/com/vinotech/sommelier_api/model/Vin.java:58-73 | the same for `removePlat`, so other wines stay in the dish's set and other dishes stay in the wine's set |
| `Model.RepeatedAddScenario` | src/main/java/com/vinotech/sommelier_api/model/Vin.java:50-55 | adding one dish three times leaves exactly one dish in the wine's set and exactly one wine in the dish's set |
| `Model.NullInverseScenario` | src/main/java/com/vinotech/sommelier_api/model/Vin.java:50-54 | adding a dish whose inverse set is null records the forward link and leaves the inverse set null |
| `Model.TwoWinesScenario` | src/main/java/com/vinotech/sommelier_api/model/Vin.java:46-56 | two wines adding one dish both appear in its set, and each lists the dish |
| `Model.ThreeWinesScenario` | src/main/java/com/vinotech/sommelier_api/model/Vin.java:46-56 | three wines adding one dish accumulate in its set, and each lists the dish |
| `Model.LeaveAndReturn` | src/main/java/com/vinotech/sommelier_api/model/Vin.java:46-73 | for any wine and dish paired on both sides, with sets free of equal elements, `removePlat` followed by `addPlat` leaves both sets exactly as they were, and both stay free of equal elements |
| `Model.LeaveAndReturnScenario` | src/main/java/com/vinotech/sommelier_api/model/Vin.java:46-73 | a wine that removes a dish and adds it again restores the previous pairing on both sides |
| `Model.SharedDishScenario` | src/main/java/com/vinotech/sommelier_api/model/Vin.java:63-73 | when two of three paired wines remove a dish, only the third stays in the dish's set, and the dish stays only in that wine's set |
| `VinService.SearchVins` | src/main/java/com/vinotech/sommelier_api/service/VinService.java:50-72 | the search returns at most the stored rows, as a sub-multiset, and a row is in the result iff it is stored and matches the criteria |
| `VinService.AllHoldAppend` | src/main/java/com/vinotech/sommelier_api/service/VinService.java:67 | the AND over two predicate lists joined together is the AND of the two ANDs |
| `VinService.MatchesIffEveryCriterion` | src/main/java/com/vinotech/sommelier_api/service/VinService.java:52-67 | a row matches iff its colour equals the requested colour, its price is at least the minimum and at most the maximum, and its lower-cased region contains the lower-cased region criterion, where each condition applies only when its criterion is set and the region criterion applies only when it is neither null nor empty |
| `VinService.NoCriterionReturnsAll` | src/main/java/com/vinotech/sommelier_api/service/VinService.java:52-67 | with no criterion (or only an empty region) the predicate list is empty and the search returns every stored row, in order |
| `VinService.SearchCounts` | src/main/java/com/vinotech/sommelier_api/service/VinService.java:50-72 | the result holds every copy of each matching stored row and no copy of a row that does not match |
| `VinService.SearchAppend` | src/main/java/com/vinotech/sommelier_api/service/VinService.java:71 | searching two runs of rows joined together gives the two results joined together |
| `VinService.SearchOfSearch` | src/main/java/com/vinotech/sommelier_api/service/VinService.java:67 | when `c` accepts exactly the rows both `c1` and `c2` accept, filtering the `c1` result by `c2` gives the `c` result |
| `VinService.MatchesIffEachAlone` | src/main/java/com/vinotech/sommelier_api/service/VinService.java:54-65 | a row matches iff it matches each criterion searched for alone |
| `VinService.SearchIsIntersection` | src/main/java/com/vinotech/sommelier_api/service/VinService.java:67 | the search with all criteria equals applying the colour, minimum, maximum and region searches one after the other: the AND, never the OR |
| `VinService.AddingCriterionNarrows` | src/main/java/com/vinotech/sommelier_api/service/VinService.java:52-67 | criteria that keep every criterion of another set return a filter of that set's result, never a longer one |
| `VinService.InvertedRangeMatchesNothing` | src/main/java/com/vinotech/sommelier_api/service/VinService.java:57-62 | a minimum price above the maximum is accepted and the search returns no row |
| `VinService.LowerChar` | src/main/java/com/vinotech/sommelier_api/service/VinService.java:64 | the lower case of a character is never an upper-case ASCII letter, and any other character is left as it is; `LowerCharFoldsAlphabet` gives the value of each capital |
| `VinService.LowerCharFoldsAlphabet` | src/main/java/com/vinotech/sommelier_api/service/VinService.java:64 | for every k from 0 to 25, the k-th capital `A`…`Z` becomes the k-th small letter `a`…`z` |
| `VinService.LowerCharMergesOnlyCase` | src/main/java/com/vinotech/sommelier_api/service/VinService.java:64 | two characters have the same lower case iff they are equal or are the two cases of one ASCII letter, so no two different letters are merged |
| `VinService.LowerEqualIffSameUpToCase` | src/main/java/com/vinotech/sommelier_api/service/VinService.java:63-65 | two strings are equal in lower case iff they have the same length and agree at every position up to the case of a letter, so the region test confuses exactly the strings that differ only in case |
| `VinService.Lower` | src/main/java/com/vinotech/sommelier_api/service/VinService.java:64 | `toLowerCase`/`lower` keeps the length, maps each character through `LowerChar`, and leaves no upper-case ASCII letter |
| `VinService.Contains` | src/main/java/com/vinotech/sommelier_api/service/VinService.java:64 | `LIKE '%m%'`: a prefix always matches (so the empty pattern matches every string), and a match needs the pattern no longer than the text; `ContainsIffOccurs` gives the full reading |
| `VinService.Restrictions` | src/main/java/com/vinotech/sommelier_api/service/VinService.java:52-65 | the list has at most four predicates; it is empty iff no colour, minimum or maximum is given and the region is null or empty; it holds a colour predicate exactly for the given colour, a minimum and a maximum predicate exactly for the given bounds, and a region predicate exactly when the region is neither null nor empty, with the criterion lower-cased; `MatchesIffEveryCriterion` gives what the list accepts |
| `VinService.Holds` | src/main/java/com/vinotech/sommelier_api/service/VinService.java:54-65 | a price predicate rejects a row with a null price, the colour predicate rejects a row with a null colour, a region predicate needs the pattern no longer than the region, and an empty region pattern accepts every row |
| `VinService.AllHold` | src/main/java/com/vinotech/sommelier_api/service/VinService.java:67 | `criteriaBuilder.and` over the list accepts a row iff every predicate in it does, so the empty list accepts every row |
| `VinService.Matches` | src/main/java/com/vinotech/sommelier_api/service/VinService.java:51-68 | the specification accepts a row iff every predicate of `Restrictions` accepts it; `MatchesIffEveryCriterion` restates this per criterion |
| `VinService.LowerLower` | src/main/java/com/vinotech/sommelier_api/service/VinService.java:64 | lower-casing keeps the length and is idempotent |
| `VinService.LowerAt` | src/main/java/com/vinotech/sommelier_api/service/VinService.java:64 | lower-casing works character by character |
| `VinService.ContainsIffOccurs` | src/main/java/com/vinotech/sommelier_api/service/VinService.java:64 | `LIKE '%m%'` as modelled holds iff `m` occurs at some position of the string |
| `VinService.RegionIgnoresCase` | src/main/java/com/vinotech/sommelier_api/service/VinService.java:63-65 | region criteria that are equal in lower case select the same rows, and so do region columns that are equal in lower case |
| `VinService.EmptyRegionIsNoCriterion` | src/main/java/com/vinotech/sommelier_api/service/VinService.java:63 | an empty region adds no predicate, the same as a null region |
| `VinService.BourgogneOccurs` | src/main/java/com/vinotech/sommelier_api/service/VinService.java:64 | "bourgogne" occurs in the lower case of "France (Bourgogne)", at position 8 |
| `VinService.RegionExampleMatches` | src/main/java/com/vinotech/sommelier_api/service/VinService.java:63-65 | the region criterion "bourgogne" accepts a wine of "France (Bourgogne)" |
| `VinService.RegionExampleExcludes` | src/main/java/com/vinotech/sommelier_api/service/VinService.java:63-65 | the region criterion "bourgogne" rejects a wine of "Bordeaux" |
| `VinService.PriceRangeExample` | src/main/java/com/vinotech/sommelier_api/service/VinService.java:57-62 | prices from 70.00 to 150.00 inclusive select, from wines at 60.00, 85.50 and 150.00, exactly the last two, in order |

## Left out

- The HTTP layer (`VinController`, `PlatController`, `RestExceptionHandler`) and the CORS configuration (`WebConfig`): routing and status codes only.
- `DataInitializer`: it reads a JSON file from the classpath and prints to the console at startup.
- `VinService.save`, `findAll` and `findById`, and the repositories: plain calls into the database with no logic of their own.
- Pagination and sorting of `searchVins`: the repository applies the `Pageable`. The model returns the whole filtered sequence in storage order.
- Floating point: `minPrix` and `maxPrix` are `Double` and `prix` is a `BigDecimal`. All prices are whole numbers of cents here.
- `VinService.Holds`: treats `%` and `_` in the region criterion as ordinary characters, whereas SQL `LIKE` reads them as wildcards because the code does not escape them. Lower-casing is ASCII only, whereas Java's `toLowerCase` and the database's `lower` follow locale and Unicode rules.
- Lombok getters, setters and builders: ids are fixed when an object is created (`const id`), and `setId` on an entity that is already in a set is not modelled.
- JPA column constraints other than the NOT NULL on `region` (lengths, precision, the NOT NULL on `nom`), and the name, tasting-notes and grape columns: the search neither reads nor checks them.
- The HashSet objects themselves: a set is a value that the owning field holds, so a set object shared by two entities, or changed through a getter outside `addPlat`/`removePlat`, is not modelled.
- `Model.Vin.AddPlat`, `Model.Vin.RemovePlat`: require that the sets hold no two equal elements (`Valid`), which the `Set` contract guarantees for every Java set.
- An all-argument `Plat` constructor, which the tests call to build a dish with a null inverse set: the entity declares only a no-argument constructor, so the model builds the dish that way and then sets the field to `None`.
- The entities' other columns (names, ingredients, allergens, prices, descriptions): no code in the pairing or `equals` reads them, and the search reads the wine's columns through `VinRow`.
- The values of `Vin.class.hashCode()` and `Plat.class.hashCode()`: the JVM chooses them, and the model fixes arbitrary constants.
