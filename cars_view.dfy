/** The car catalogue (src/components/CarsView.tsx): brands with their model
    lists, shown sorted by brand, with add and delete for brands and models. */
module CarsView {
  import opened Seqs
  import opened Text
  import opened Sorting
  import opened Index

  /** No two brands are the same up to letter case. */
  predicate UniqueBrands(cars: seq<Car>)
  {
    forall i, j :: 0 <= i < j < |cars| ==> Lower(cars[i].brand) != Lower(cars[j].brand)
  }

  /** No brand lists a model twice. */
  predicate UniqueModels(cars: seq<Car>)
  {
    forall c :: c in cars ==> forall i, j :: 0 <= i < j < |c.models| ==> c.models[i] != c.models[j]
  }

  /** Whether some brand equals `name` once both are lower-cased. */
  predicate HasBrandLike(cars: seq<Car>, name: string)
  {
    exists c :: c in cars && Lower(c.brand) == Lower(name)
  }

  /** `handleAddBrand` as written: the empty check trims the input, the
      duplicate check compares the untrimmed input, and the stored brand is
      the trimmed input. */
  function AddBrandAsWritten(cars: seq<Car>, input: string): seq<Car>
  {
    if Trim(input) == "" then cars
    else if HasBrandLike(cars, input) then cars
    else cars + [Car(Trim(input), [])]
  }

  /** Leading or trailing blanks slip past the duplicate check: " BMW" adds a
      second "BMW". */
  lemma AddBrandAsWrittenDuplicates()
    ensures AddBrandAsWritten([Car("BMW", [])], " BMW") == [Car("BMW", []), Car("BMW", [])]
    ensures UniqueBrands([Car("BMW", [])]) && !UniqueBrands(AddBrandAsWritten([Car("BMW", [])], " BMW"))
  {
    assert TrimStart(" BMW") == "BMW" by {
      assert " BMW"[1..] == "BMW";
    }
    assert TrimEnd("BMW") == "BMW";
    assert Lower(" BMW") != Lower("BMW") by {
      assert |Lower(" BMW")| == 4;
    }
    assert !HasBrandLike([Car("BMW", [])], " BMW");
    var r := AddBrandAsWritten([Car("BMW", [])], " BMW");
    assert Lower(r[0].brand) == Lower(r[1].brand);
  }

  /** `handleAddBrand` with the duplicate check on the name that is stored. */
  function AddBrand(cars: seq<Car>, input: string): seq<Car>
  {
    if Trim(input) == "" then cars
    else if HasBrandLike(cars, Trim(input)) then cars
    else cars + [Car(Trim(input), [])]
  }

  /** A blank name or a name some brand already has (up to case) changes
      nothing; otherwise the trimmed name is appended with no models. The
      catalogue keeps its brands unique. */
  lemma AddBrandSpec(cars: seq<Car>, input: string)
    ensures Trim(input) == "" || HasBrandLike(cars, Trim(input)) ==> AddBrand(cars, input) == cars
    ensures Trim(input) != "" && !HasBrandLike(cars, Trim(input)) ==>
      AddBrand(cars, input) == cars + [Car(Trim(input), [])]
    ensures Trim(input) != "" ==> HasBrandLike(AddBrand(cars, input), Trim(input))
    ensures UniqueBrands(cars) ==> UniqueBrands(AddBrand(cars, input))
  {
    var r := AddBrand(cars, input);
    if Trim(input) != "" && !HasBrandLike(cars, Trim(input)) {
      assert r[|cars|] in r;
      forall i, j | 0 <= i < j < |r| && UniqueBrands(cars) ensures Lower(r[i].brand) != Lower(r[j].brand) {
        if j == |cars| {
          assert r[i] == cars[i] && cars[i] in cars;
        }
      }
    }
  }

  /** `handleAddModel`: a blank name changes nothing; otherwise every entry of
      the brand gets the trimmed name appended unless it already lists it. */
  function AddModel(cars: seq<Car>, brand: string, input: string): seq<Car>
  {
    if Trim(input) == "" then cars
    else
      seq(|cars|, i requires 0 <= i < |cars| =>
        if cars[i].brand == brand && Trim(input) !in cars[i].models
        then cars[i].(models := cars[i].models + [Trim(input)])
        else cars[i])
  }

  /** A blank name changes nothing. Otherwise each entry of the brand gets the
      trimmed name appended, unless the entry already lists it, in which case
      the entry stays as it was. The brands and every other entry are left
      alone. The brand then lists the model exactly once if its list had no
      repeats, and adding it again changes nothing. */
  lemma AddModelSpec(cars: seq<Car>, brand: string, input: string)
    ensures Trim(input) == "" ==> AddModel(cars, brand, input) == cars
    ensures Trim(input) != "" ==> forall i :: 0 <= i < |cars| && cars[i].brand == brand ==>
      AddModel(cars, brand, input)[i].models ==
        (if Trim(input) in cars[i].models then cars[i].models else cars[i].models + [Trim(input)])
    ensures |AddModel(cars, brand, input)| == |cars|
    ensures forall i :: 0 <= i < |cars| ==> AddModel(cars, brand, input)[i].brand == cars[i].brand
    ensures forall i :: 0 <= i < |cars| && cars[i].brand != brand ==> AddModel(cars, brand, input)[i] == cars[i]
    ensures Trim(input) != "" ==> forall i :: 0 <= i < |cars| && cars[i].brand == brand ==>
      Trim(input) in AddModel(cars, brand, input)[i].models
    ensures forall i :: 0 <= i < |cars| ==> ExtendsModels(cars[i].models, AddModel(cars, brand, input)[i].models)
    ensures UniqueBrands(cars) ==> UniqueBrands(AddModel(cars, brand, input))
    ensures UniqueModels(cars) ==> UniqueModels(AddModel(cars, brand, input))
    ensures AddModel(AddModel(cars, brand, input), brand, input) == AddModel(cars, brand, input)
  {
    var r := AddModel(cars, brand, input);
    if Trim(input) != "" {
      forall c | c in r && UniqueModels(cars)
        ensures forall i, j :: 0 <= i < j < |c.models| ==> c.models[i] != c.models[j]
      {
        var k :| 0 <= k < |r| && r[k] == c;
        assert cars[k] in cars;
      }
      var r2 := AddModel(r, brand, input);
      forall k | 0 <= k < |r| ensures r2[k] == r[k] {
        if r[k].brand == brand {
          assert Trim(input) in r[k].models;
        }
      }
    }
  }

  /** `b` is `a` with zero or more models appended. */
  predicate ExtendsModels(a: seq<string>, b: seq<string>)
  {
    |a| <= |b| && b[..|a|] == a
  }

  /** `handleDeleteBrand` */
  function DeleteBrand(cars: seq<Car>, brand: string): seq<Car>
  {
    Filter(cars, (c: Car) => c.brand != brand)
  }

  lemma {:induction false} FilterKeepsUniqueBrands(cars: seq<Car>, p: Car -> bool)
    requires UniqueBrands(cars)
    ensures UniqueBrands(Filter(cars, p))
    decreases |cars|
  {
    if cars != [] {
      var init := Init(cars);
      assert UniqueBrands(init);
      FilterKeepsUniqueBrands(init, p);
      FilterMembership(init, p);
      var f := Filter(init, p);
      if p(Last(cars)) {
        forall i | 0 <= i < |f| ensures Lower(f[i].brand) != Lower(Last(cars).brand) {
          assert f[i] in init;
          var k :| 0 <= k < |init| && init[k] == f[i];
          assert cars[k] == f[i];
        }
      }
    }
  }

  /** Deleting a brand removes every entry of that brand and keeps the others in order. */
  lemma DeleteBrandSpec(cars: seq<Car>, brand: string)
    ensures forall c :: c in DeleteBrand(cars, brand) <==> c in cars && c.brand != brand
    ensures IsSubsequence(DeleteBrand(cars, brand), cars)
    ensures forall c :: multiset(DeleteBrand(cars, brand))[c] == if c.brand != brand then multiset(cars)[c] else 0
    ensures (forall c :: c in cars ==> c.brand != brand) ==> DeleteBrand(cars, brand) == cars
    ensures UniqueBrands(cars) ==> UniqueBrands(DeleteBrand(cars, brand))
  {
    FilterMembership(cars, (c: Car) => c.brand != brand);
    FilterCount(cars, (c: Car) => c.brand != brand);
    FilterIsSubsequence(cars, (c: Car) => c.brand != brand);
    if forall c :: c in cars ==> c.brand != brand {
      FilterKeepsAll(cars, (c: Car) => c.brand != brand);
    }
    if UniqueBrands(cars) {
      FilterKeepsUniqueBrands(cars, (c: Car) => c.brand != brand);
    }
  }

  /** `handleDeleteModel` */
  function DeleteModel(cars: seq<Car>, brand: string, model: string): seq<Car>
  {
    seq(|cars|, i requires 0 <= i < |cars| =>
      if cars[i].brand == brand
      then cars[i].(models := Filter(cars[i].models, (m: string) => m != model))
      else cars[i])
  }

  /** Deleting a model removes it from the brand's entries only, keeps their
      other models in order, and leaves the brands unchanged. */
  lemma DeleteModelSpec(cars: seq<Car>, brand: string, model: string)
    ensures |DeleteModel(cars, brand, model)| == |cars|
    ensures forall i :: 0 <= i < |cars| ==> DeleteModel(cars, brand, model)[i].brand == cars[i].brand
    ensures forall i :: 0 <= i < |cars| && cars[i].brand != brand ==> DeleteModel(cars, brand, model)[i] == cars[i]
    ensures forall i :: 0 <= i < |cars| && cars[i].brand == brand ==>
      (forall m :: m in DeleteModel(cars, brand, model)[i].models <==> m in cars[i].models && m != model)
      && IsSubsequence(DeleteModel(cars, brand, model)[i].models, cars[i].models)
    ensures forall i :: 0 <= i < |cars| && cars[i].brand == brand ==>
      forall m :: multiset(DeleteModel(cars, brand, model)[i].models)[m] == if m != model then multiset(cars[i].models)[m] else 0
    ensures UniqueBrands(cars) ==> UniqueBrands(DeleteModel(cars, brand, model))
  {
    forall i | 0 <= i < |cars| && cars[i].brand == brand
      ensures (forall m :: m in DeleteModel(cars, brand, model)[i].models <==> m in cars[i].models && m != model)
      && IsSubsequence(DeleteModel(cars, brand, model)[i].models, cars[i].models)
      && forall m :: multiset(DeleteModel(cars, brand, model)[i].models)[m] == if m != model then multiset(cars[i].models)[m] else 0
    {
      FilterCount(cars[i].models, (m: string) => m != model);
      FilterMembership(cars[i].models, (m: string) => m != model);
      FilterIsSubsequence(cars[i].models, (m: string) => m != model);
    }
  }

  /** A collation: `less(a, b)` stands for `a.localeCompare(b, 'ru') < 0`.
      Like every collation `localeCompare` provides, it is a strict weak order:
      never both ways round, and "not before" is transitive, so the strings it
      ties fall into classes. */
  ghost predicate Collation(less: (string, string) -> bool)
  {
    (forall a, b :: less(a, b) ==> !less(b, a))
    && (forall a, b, c :: !less(a, b) && !less(b, c) ==> !less(a, c))
  }

  /** Code-point order is one such collation. */
  lemma CodePointCollation()
    ensures Collation(StrLess)
  {
    forall a, b | StrLess(a, b) ensures !StrLess(b, a) {
      StrLessAsymmetric(a, b);
    }
    forall a, b, c | !StrLess(a, b) && !StrLess(b, c) ensures !StrLess(a, c) {
      StrNotLessTransitive(c, b, a);
    }
  }

  /** The comparator `(a, b) => a.brand.localeCompare(b.brand, 'ru')` is
      positive: `a` goes after `b`. */
  function BrandAfter(less: (string, string) -> bool): (Car, Car) -> bool
  {
    (a: Car, b: Car) => less(b.brand, a.brand)
  }

  /** `sortedCars` under the collation `less`. */
  function SortedCars(cars: seq<Car>, less: (string, string) -> bool): seq<Car>
  {
    InsertionSort(cars, BrandAfter(less))
  }

  lemma BrandAfterStrictWeak(cars: seq<Car>, less: (string, string) -> bool)
    requires Collation(less)
    ensures StrictWeakOn(cars, BrandAfter(less))
  {
    var after := BrandAfter(less);
    forall a, b | a in cars && b in cars && after(a, b) ensures !after(b, a) {
      assert less(b.brand, a.brand);
    }
    forall a, b, c | a in cars && b in cars && c in cars && !after(a, b) && !after(b, c)
      ensures !after(a, c)
    {
      assert !less(c.brand, b.brand) && !less(b.brand, a.brand);
    }
  }

  /** Under any collation the list shows every entry once, brands in ascending
      collation order, and entries whose brands the collation ties with
      `brand` (in particular those with exactly that brand) in catalogue order. */
  lemma SortedCarsSpec(cars: seq<Car>, less: (string, string) -> bool, brand: string)
    requires Collation(less)
    ensures multiset(SortedCars(cars, less)) == multiset(cars)
    ensures forall i, j :: 0 <= i < j < |SortedCars(cars, less)| ==>
      !less(SortedCars(cars, less)[j].brand, SortedCars(cars, less)[i].brand)
    ensures Filter(SortedCars(cars, less), (c: Car) => !less(c.brand, brand) && !less(brand, c.brand))
      == Filter(cars, (c: Car) => !less(c.brand, brand) && !less(brand, c.brand))
    ensures Filter(SortedCars(cars, less), (c: Car) => c.brand == brand) == Filter(cars, (c: Car) => c.brand == brand)
  {
    var after := BrandAfter(less);
    SortPermutes(cars, after);
    BrandAfterStrictWeak(cars, less);
    SortSorted(cars, after);
    var tied := (c: Car) => !less(c.brand, brand) && !less(brand, c.brand);
    forall a, b | a in cars && b in cars && tied(a) && tied(b) ensures !after(a, b) {
      assert !less(b.brand, brand) && !less(brand, a.brand);
    }
    SortStable(cars, after, tied);
    assert !less(brand, brand);
    SortStable(cars, after, (c: Car) => c.brand == brand);
  }
}
