/** The client edit form (src/components/EditClientDialog.tsx): the sorted
    list of "brand model" choices built from the catalogue, and the update the
    form produces, with the car text split back into brand and model. */
module EditClientDialog {
  import opened Seqs
  import opened Text
  import opened Sorting
  import opened Index

  /** The choices one catalogue entry contributes, in its model order. */
  function BrandOptions(car: Car): (opts: seq<string>)
    ensures |opts| == |car.models|
  {
    seq(|car.models|, i requires 0 <= i < |car.models| => car.brand + " " + car.models[i])
  }

  /** Every (entry, model) pair as `brand model`, in catalogue order. */
  function CarOptions(cars: seq<Car>): seq<string>
    decreases |cars|
  {
    if cars == [] then [] else CarOptions(Init(cars)) + BrandOptions(Last(cars))
  }

  /** The total number of models in the catalogue. */
  function TotalModels(cars: seq<Car>): nat
    decreases |cars|
  {
    if cars == [] then 0 else TotalModels(Init(cars)) + |Last(cars).models|
  }

  /** Default `sort()` order: `a` goes after `b` when `b` is the smaller string. */
  predicate After(a: string, b: string)
  {
    StrLess(b, a)
  }

  /** The list `allCarOptions` holds. */
  function SortedCarOptions(cars: seq<Car>): seq<string>
  {
    InsertionSort(CarOptions(cars), After)
  }

  /** `allCarOptions`: nested loops push one choice per model, then the list is sorted. */
  method AllCarOptions(cars: seq<Car>) returns (options: seq<string>)
    ensures options == SortedCarOptions(cars)
  {
    var opts: seq<string> := [];
    var i := 0;
    while i < |cars|
      invariant 0 <= i <= |cars|
      invariant opts == CarOptions(cars[..i])
    {
      var car := cars[i];
      var j := 0;
      while j < |car.models|
        invariant 0 <= j <= |car.models|
        invariant opts == CarOptions(cars[..i]) + BrandOptions(car)[..j]
      {
        opts := opts + [car.brand + " " + car.models[j]];
        j := j + 1;
        assert BrandOptions(car)[..j] == BrandOptions(car)[..j - 1] + [BrandOptions(car)[j - 1]];
      }
      assert BrandOptions(car)[..j] == BrandOptions(car);
      assert Init(cars[..i + 1]) == cars[..i];
      i := i + 1;
    }
    assert cars[..i] == cars;
    options := InsertionSort(opts, After);
  }

  lemma {:induction false} CarOptionsSpec(cars: seq<Car>)
    ensures |CarOptions(cars)| == TotalModels(cars)
    ensures forall o :: o in CarOptions(cars) <==> exists c, m :: c in cars && m in c.models && o == c.brand + " " + m
    decreases |cars|
  {
    if cars != [] {
      var init, last := Init(cars), Last(cars);
      CarOptionsSpec(init);
      assert cars == init + [last];
      forall o ensures o in CarOptions(cars) <==> exists c, m :: c in cars && m in c.models && o == c.brand + " " + m {
        if o in BrandOptions(last) {
          var i :| 0 <= i < |last.models| && BrandOptions(last)[i] == o;
          assert last.models[i] in last.models;
        }
        if exists c, m :: c in cars && m in c.models && o == c.brand + " " + m {
          var c, m :| c in cars && m in c.models && o == c.brand + " " + m;
          if c == last {
            var i :| 0 <= i < |last.models| && last.models[i] == m;
            assert BrandOptions(last)[i] == o;
          } else {
            assert c in init;
          }
        }
      }
    }
  }

  lemma AfterStrictWeak(s: seq<string>)
    ensures StrictWeakOn(s, After)
  {
    forall a, b | a in s && b in s && After(a, b) ensures !After(b, a) {
      StrLessAsymmetric(b, a);
    }
    forall a, b, c | a in s && b in s && c in s && !After(a, b) && !After(b, c) ensures !After(a, c) {
      StrNotLessTransitive(a, b, c);
    }
  }

  /** The choices are one per model of the catalogue, each `brand model` of an
      entry, in ascending string order, and nothing else. */
  lemma SortedCarOptionsSpec(cars: seq<Car>)
    ensures |SortedCarOptions(cars)| == TotalModels(cars)
    ensures multiset(SortedCarOptions(cars)) == multiset(CarOptions(cars))
    ensures forall o :: o in SortedCarOptions(cars) <==> exists c, m :: c in cars && m in c.models && o == c.brand + " " + m
    ensures forall i, j :: 0 <= i < j < |SortedCarOptions(cars)| ==> !StrLess(SortedCarOptions(cars)[j], SortedCarOptions(cars)[i])
  {
    CarOptionsSpec(cars);
    SortPermutes(CarOptions(cars), After);
    SortMembership(CarOptions(cars), After);
    AfterStrictWeak(CarOptions(cars));
    SortSorted(CarOptions(cars), After);
  }

  /** `handleSave`'s split: the text before the first space is the brand, the
      rest (spaces kept) is the model. */
  function SplitCarText(text: string): (string, string)
  {
    var parts := Split(text, ' ');
    (parts[0], Join(parts[1..], ' '))
  }

  /** The brand never holds a space; with a space in the text, brand, a space
      and model give the text back; without one the model is empty. */
  lemma SplitCarTextSpec(text: string)
    ensures ' ' !in SplitCarText(text).0
    ensures ' ' in text ==> SplitCarText(text).0 + " " + SplitCarText(text).1 == text
    ensures ' ' !in text ==> SplitCarText(text) == (text, "")
  {
    var parts := Split(text, ' ');
    SplitPartsHaveNoSeparator(text, ' ');
    SplitSingle(text, ' ');
    if ' ' in text {
      JoinSplit(text, ' ');
      assert |parts| >= 2;
    }
  }

  /** The form starts with `brand model`; for a brand without spaces saving
      it unchanged gives back the same brand and model. */
  lemma CarTextRoundTrip(brand: string, model: string)
    requires ' ' !in brand
    ensures SplitCarText(brand + " " + model) == (brand, model)
  {
    SplitAtFirst(brand, model, ' ');
    assert brand + " " + model == brand + [' '] + model;
    var parts := Split(brand + " " + model, ' ');
    assert parts[1..] == Split(model, ' ');
    JoinSplit(model, ' ');
  }

  /** The form's texts. */
  datatype ClientForm = ClientForm(name: string, phone: string, carSearch: string, plateNumber: string, color: string)

  /** The update `handleSave` hands over. */
  datatype ClientUpdate = ClientUpdate(
    name: Option<string>,
    phone: Option<string>,
    carBrand: string,
    carModel: string,
    plateNumber: Option<string>,
    color: Option<string>)

  /** The form's initial state: the client's values, absent shown as empty, the car as `brand model`. */
  function InitialClientForm(client: ClientData): ClientForm
  {
    ClientForm(OrEmpty(client.name), OrEmpty(client.phone), client.carBrand + " " + client.carModel,
      OrEmpty(client.plateNumber), OrEmpty(client.color))
  }

  /** `handleSave`, behind the button that is disabled while the car text is empty. */
  function SaveClient(form: ClientForm): Option<ClientUpdate>
  {
    if form.carSearch == "" then None
    else
      var (brand, model) := SplitCarText(form.carSearch);
      Some(ClientUpdate(AbsentIfEmpty(form.name), AbsentIfEmpty(form.phone), brand, model,
        AbsentIfEmpty(form.plateNumber), AbsentIfEmpty(form.color)))
  }

  /** Nothing is saved with an empty car text; otherwise each optional text is
      absent exactly when empty, and brand and model come from the split. */
  lemma SaveClientSpec(form: ClientForm)
    ensures SaveClient(form).None? <==> form.carSearch == ""
    ensures SaveClient(form).Some? ==>
      var u := SaveClient(form).value;
      (u.name.None? <==> form.name == "") && (u.phone.None? <==> form.phone == "")
      && (u.plateNumber.None? <==> form.plateNumber == "") && (u.color.None? <==> form.color == "")
      && OrEmpty(u.name) == form.name && OrEmpty(u.phone) == form.phone
      && OrEmpty(u.plateNumber) == form.plateNumber && OrEmpty(u.color) == form.color
      && ' ' !in u.carBrand
      && (' ' in form.carSearch ==> u.carBrand + " " + u.carModel == form.carSearch)
      && (' ' !in form.carSearch ==> u.carBrand == form.carSearch && u.carModel == "")
  {
    SplitCarTextSpec(form.carSearch);
  }

  /** Saving the form unedited gives back the client's fields, with empty
      optional texts made absent, when its brand has no space. */
  lemma SaveClientUnedited(client: ClientData)
    requires ' ' !in client.carBrand
    ensures SaveClient(InitialClientForm(client)) == Some(ClientUpdate(
      AbsentIfEmpty(OrEmpty(client.name)), AbsentIfEmpty(OrEmpty(client.phone)), client.carBrand, client.carModel,
      AbsentIfEmpty(OrEmpty(client.plateNumber)), AbsentIfEmpty(OrEmpty(client.color))))
    ensures client.plateNumber != Some("") ==> SaveClient(InitialClientForm(client)).value.plateNumber == client.plateNumber
  {
    CarTextRoundTrip(client.carBrand, client.carModel);
    AbsentIfEmptyOfOrEmpty(client.plateNumber);
  }
}
