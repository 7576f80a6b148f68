/**
 * Building `index.json` from the parsed car images: the catalog of makes,
 * models per make and years per make-and-model, each listed once in
 * ascending order, and one item per car whose paths are written relative
 * to the project root. Scanning the data directory, reading image sizes
 * and writing the file are outside the model: the cars, with their
 * dimensions, are the input, and the payload is the result.
 */
module BuildIndex {
  import opened Wrappers
  import opened Text
  import opened CarParser
  import CarStore

  // ---- sorted(set) ----

  /** `le` orders every pair, is transitive, and only relates equal values both ways. */
  ghost predicate IsTotalOrder<T(!new)>(le: (T, T) -> bool) {
    && (forall a, b :: le(a, b) || le(b, a))
    && (forall a, b, c :: le(a, b) && le(b, c) ==> le(a, c))
    && (forall a, b :: le(a, b) && le(b, a) ==> a == b)
  }

  /** Python's ordering of integers. */
  predicate IntLe(a: int, b: int) { a <= b }

  lemma IntOrder()
    ensures IsTotalOrder(IntLe)
  {
  }

  /** Python's ordering of strings, by code point. */
  lemma LexOrder()
    ensures IsTotalOrder(LexLe)
  {
    forall a, b ensures LexLe(a, b) || LexLe(b, a) {
      LexLeTotal(a, b);
    }
    forall a, b, c | LexLe(a, b) && LexLe(b, c) ensures LexLe(a, c) {
      LexLeTransitive(a, b, c);
    }
    forall a, b | LexLe(a, b) && LexLe(b, a) ensures a == b {
      LexLeAntisymmetric(a, b);
    }
  }

  predicate IsLeast<T>(m: T, s: set<T>, le: (T, T) -> bool) {
    m in s && forall x :: x in s ==> le(m, x)
  }

  /** Each element comes strictly before the ones after it. */
  predicate StrictlyAscending<T(==)>(r: seq<T>, le: (T, T) -> bool) {
    forall i, j :: 0 <= i < j < |r| ==> le(r[i], r[j]) && r[i] != r[j]
  }

  lemma {:induction false} LeastExists<T(!new)>(s: set<T>, le: (T, T) -> bool)
    requires s != {} && IsTotalOrder(le)
    ensures exists m :: IsLeast(m, s, le)
    decreases |s|
  {
    var x :| x in s;
    if s == {x} {
      assert le(x, x);
      assert IsLeast(x, s, le);
    } else {
      LeastExists(s - {x}, le);
      var m :| IsLeast(m, s - {x}, le);
      if le(m, x) {
        assert IsLeast(m, s, le);
      } else {
        assert le(x, x);
        assert IsLeast(x, s, le);
      }
    }
  }

  /** `sorted(s)` for a set: its elements once each, in ascending order. */
  function SortedSet<T(==,!new)>(s: set<T>, le: (T, T) -> bool): (r: seq<T>)
    requires IsTotalOrder(le)
    ensures |r| == |s|
    ensures forall x :: x in r <==> x in s
    ensures StrictlyAscending(r, le)
    decreases |s|
  {
    if s == {} then []
    else
      LeastExists(s, le);
      var m :| IsLeast(m, s, le);
      var rest := SortedSet(s - {m}, le);
      [m] + rest
  }

  // ---- build_catalog ----

  /** `f"{car.make}|{car.model}"`, the key of `years_by_model`. */
  function KeyOf(make: string, model: string): string {
    make + "|" + model
  }

  /** When makes hold no `|`, the key names the make and the model. */
  lemma KeyOfInjective(make1: string, model1: string, make2: string, model2: string)
    requires '|' !in make1 && '|' !in make2
    requires KeyOf(make1, model1) == KeyOf(make2, model2)
    ensures make1 == make2 && model1 == model2
  {
    var k1, k2 := KeyOf(make1, model1), KeyOf(make2, model2);
    FirstPipe(make1, model1);
    FirstPipe(make2, model2);
    assert |make1| == |make2|;
    assert make1 == k1[..|make1|] && make2 == k2[..|make2|];
    assert model1 == k1[|make1| + 1..] && model2 == k2[|make2| + 1..];
  }

  /** The first `|` of a key is the one after the make. */
  lemma FirstPipe(make: string, model: string)
    requires '|' !in make
    ensures KeyOf(make, model)[|make|] == '|'
    ensures forall k :: 0 <= k < |make| ==> KeyOf(make, model)[k] != '|'
  {
    forall k | 0 <= k < |make| ensures KeyOf(make, model)[k] != '|' {
      assert KeyOf(make, model)[k] == make[k];
    }
  }

  /** `{car.make for car in cars}`. */
  function MakeSet(cars: seq<CarMeta>): set<string> {
    if cars == [] then {} else MakeSet(cars[..|cars| - 1]) + {cars[|cars| - 1].make}
  }

  /** The `models` defaultdict after the loop: each make's set of models. */
  function ModelSets(cars: seq<CarMeta>): map<string, set<string>> {
    if cars == [] then map[]
    else
      var m, car := ModelSets(cars[..|cars| - 1]), cars[|cars| - 1];
      m[car.make := Get(m, car.make, {}) + {car.model}]
  }

  /** The `years_by_model` defaultdict after the loop: each key's set of years. */
  function YearSets(cars: seq<CarMeta>): map<string, set<int>> {
    if cars == [] then map[]
    else
      var m, car := YearSets(cars[..|cars| - 1]), cars[|cars| - 1];
      var key := KeyOf(car.make, car.model);
      m[key := Get(m, key, {}) + {car.year}]
  }

  /** `build_catalog`: the sets, each listed in ascending order. */
  function Catalog(cars: seq<CarMeta>): CarStore.Catalog {
    LexOrder();
    IntOrder();
    var models, years := ModelSets(cars), YearSets(cars);
    CarStore.Catalog(
      SortedSet(MakeSet(cars), LexLe),
      map make | make in models :: SortedSet(models[make], LexLe),
      map key | key in years :: SortedSet(years[key], IntLe))
  }

  /** The loop of `build_catalog`, adding each car's model and year to its sets. */
  method BuildCatalog(cars: seq<CarMeta>) returns (catalog: CarStore.Catalog)
    ensures catalog == Catalog(cars)
  {
    var makes: set<string> := {};
    var models: map<string, set<string>> := map[];
    var years: map<string, set<int>> := map[];
    for i := 0 to |cars|
      invariant makes == MakeSet(cars[..i])
      invariant models == ModelSets(cars[..i]) && years == YearSets(cars[..i])
    {
      var car := cars[i];
      assert cars[..i + 1][..i] == cars[..i];
      makes := makes + {car.make};
      models := models[car.make := Get(models, car.make, {}) + {car.model}];
      var key := KeyOf(car.make, car.model);
      years := years[key := Get(years, key, {}) + {car.year}];
    }
    assert cars[..|cars|] == cars;
    LexOrder();
    IntOrder();
    catalog := CarStore.Catalog(
      SortedSet(makes, LexLe),
      map make | make in models :: SortedSet(models[make], LexLe),
      map key | key in years :: SortedSet(years[key], IntLe));
  }

  // ---- what the sets hold ----

  lemma {:induction false} MakeSetMembers(cars: seq<CarMeta>, make: string)
    ensures make in MakeSet(cars) <==> exists k :: 0 <= k < |cars| && cars[k].make == make
  {
    if cars != [] {
      var init := cars[..|cars| - 1];
      MakeSetMembers(init, make);
      if exists k :: 0 <= k < |init| && init[k].make == make {
        var k :| 0 <= k < |init| && init[k].make == make;
        assert cars[k] == init[k];
      }
      if exists k :: 0 <= k < |cars| && cars[k].make == make {
        var k :| 0 <= k < |cars| && cars[k].make == make;
        if k < |init| {
          assert init[k] == cars[k];
        }
      }
    }
  }

  lemma {:induction false} ModelSetsMembers(cars: seq<CarMeta>, make: string, model: string)
    ensures make in ModelSets(cars) <==> make in MakeSet(cars)
    ensures make in ModelSets(cars) && model in ModelSets(cars)[make] <==>
      exists k :: 0 <= k < |cars| && cars[k].make == make && cars[k].model == model
  {
    if cars != [] {
      var init := cars[..|cars| - 1];
      ModelSetsMembers(init, make, model);
      if exists k :: 0 <= k < |init| && init[k].make == make && init[k].model == model {
        var k :| 0 <= k < |init| && init[k].make == make && init[k].model == model;
        assert cars[k] == init[k];
      }
      if exists k :: 0 <= k < |cars| && cars[k].make == make && cars[k].model == model {
        var k :| 0 <= k < |cars| && cars[k].make == make && cars[k].model == model;
        if k < |init| {
          assert init[k] == cars[k];
        }
      }
    }
  }

  lemma {:induction false} YearSetsMembers(cars: seq<CarMeta>, key: string, year: int)
    ensures key in YearSets(cars) && year in YearSets(cars)[key] <==>
      exists k :: 0 <= k < |cars| && KeyOf(cars[k].make, cars[k].model) == key && cars[k].year == year
    ensures key in YearSets(cars) <==>
      exists k :: 0 <= k < |cars| && KeyOf(cars[k].make, cars[k].model) == key
  {
    if cars != [] {
      var init := cars[..|cars| - 1];
      YearSetsMembers(init, key, year);
      if exists k :: 0 <= k < |init| && KeyOf(init[k].make, init[k].model) == key {
        var k :| 0 <= k < |init| && KeyOf(init[k].make, init[k].model) == key;
        assert cars[k] == init[k];
      }
      if exists k :: 0 <= k < |init| && KeyOf(init[k].make, init[k].model) == key && init[k].year == year {
        var k :| 0 <= k < |init| && KeyOf(init[k].make, init[k].model) == key && init[k].year == year;
        assert cars[k] == init[k];
      }
      if exists k :: 0 <= k < |cars| && KeyOf(cars[k].make, cars[k].model) == key {
        var k :| 0 <= k < |cars| && KeyOf(cars[k].make, cars[k].model) == key;
        if k < |init| {
          assert init[k] == cars[k];
        }
      }
      if exists k :: 0 <= k < |cars| && KeyOf(cars[k].make, cars[k].model) == key && cars[k].year == year {
        var k :| 0 <= k < |cars| && KeyOf(cars[k].make, cars[k].model) == key && cars[k].year == year;
        if k < |init| {
          assert init[k] == cars[k];
        }
      }
    }
  }

  /**
   * `makes` lists each make of the input once, in ascending order, and
   * `models` has exactly those makes as keys.
   */
  lemma CatalogMakes(cars: seq<CarMeta>, make: string)
    ensures StrictlyAscending(Catalog(cars).makes, LexLe)
    ensures make in Catalog(cars).makes <==> exists k :: 0 <= k < |cars| && cars[k].make == make
    ensures make in Catalog(cars).modelsByMake <==> make in Catalog(cars).makes
  {
    MakeSetMembers(cars, make);
    ModelSetsMembers(cars, make, "");
  }

  /** `models[make]` lists each model of that make once, in ascending order. */
  lemma CatalogModels(cars: seq<CarMeta>, make: string, model: string)
    requires make in Catalog(cars).modelsByMake
    ensures StrictlyAscending(Catalog(cars).modelsByMake[make], LexLe)
    ensures model in Catalog(cars).modelsByMake[make] <==>
      exists k :: 0 <= k < |cars| && cars[k].make == make && cars[k].model == model
  {
    ModelSetsMembers(cars, make, model);
  }

  /**
   * `years_by_model` has a key for each make and model of the input; under
   * it every year of such a car is listed, once, in ascending order, and
   * every listed year is one of such a car.
   */
  lemma CatalogYears(cars: seq<CarMeta>, key: string, year: int)
    ensures key in Catalog(cars).yearsByModel <==>
      exists k :: 0 <= k < |cars| && KeyOf(cars[k].make, cars[k].model) == key
    ensures key in Catalog(cars).yearsByModel ==>
      && StrictlyAscending(Catalog(cars).yearsByModel[key], IntLe)
      && (year in Catalog(cars).yearsByModel[key] <==>
          exists k :: 0 <= k < |cars| && KeyOf(cars[k].make, cars[k].model) == key && cars[k].year == year)
  {
    YearSetsMembers(cars, key, year);
  }

  // ---- the payload ----

  /** A normalised absolute path: no empty component, no trailing `/`, no `.` component at the end. */
  predicate IsNormalPath(p: string) {
    && CarStore.IsAbsolute(p)
    && (forall k :: 0 <= k < |p| - 1 ==> !(p[k] == '/' && p[k + 1] == '/'))
    && (|p| > 1 ==> p[|p| - 1] != '/')
    && !EndsWith(p, "/.")
  }

  /** `_to_relative`: the path below the root, "." for the root itself, else the path unchanged. */
  function ToRelative(root: string, p: string): (r: string)
    ensures r == p || r == "." || StartsWith(p, root + "/")
  {
    if p == root then "."
    else if StartsWith(p, root + "/") then p[|root| + 1..]
    else p
  }

  /** Resolving against the root undoes `_to_relative` for a normalised absolute path. */
  lemma ToRelativeRoundTrip(root: string, p: string)
    requires IsNormalPath(root) && root != "/" && IsNormalPath(p)
    ensures CarStore.Resolve(root, ToRelative(root, p)) == p
  {
    if p != root && StartsWith(p, root + "/") {
      var rest := p[|root| + 1..];
      assert p == root + "/" + rest;
      NormalTail(root, p);
    }
  }

  /** Below a normalised root, the rest of a normalised path is a non-empty relative path other than ".". */
  lemma NormalTail(root: string, p: string)
    requires root != "" && IsNormalPath(p) && StartsWith(p, root + "/")
    ensures var rest := p[|root| + 1..]; !CarStore.IsAbsolute(rest) && !CarStore.IsHere(rest)
  {
    var rest := p[|root| + 1..];
    if rest != [] {
      assert p[|root|] == '/' && p[|root| + 1] == rest[0];
    }
    assert p == p[..|root| + 1] + rest;
  }

  /** `str(Path("thumbs") / f"{car.path.stem}.jpg")`. */
  function ThumbPath(path: string): string {
    "thumbs/" + Stem(path) + ".jpg"
  }

  /** One entry of `items`. */
  function PayloadItem(root: string, car: CarMeta): CarStore.IndexItem {
    CarStore.IndexItem(car.id, ToRelative(root, car.path), car.make, car.model, CarStore.YearNumber(car.year),
                       Some(car.attributes), Some(ThumbPath(car.path)), car.width, car.height, car.aspectRatio)
  }

  /** The catalog as written: years as JSON numbers. */
  function CatalogJson(c: CarStore.Catalog): CarStore.RawCatalog {
    CarStore.RawCatalog(Some(c.makes), Some(c.modelsByMake),
      Some(map key | key in c.yearsByModel :: Numbers(c.yearsByModel[key])))
  }

  function Numbers(ys: seq<int>): (r: seq<CarStore.JsonYear>)
    ensures |r| == |ys| && forall k :: 0 <= k < |ys| ==> r[k] == CarStore.YearNumber(ys[k])
  {
    seq(|ys|, k requires 0 <= k < |ys| => CarStore.YearNumber(ys[k]))
  }

  const NoImagesMessage: string := "no parsable images were found."

  /** The payload of `main`: an error without cars, else the items and the catalog. */
  function Payload(root: string, cars: seq<CarMeta>): (r: Result<CarStore.IndexData, string>)
    ensures cars == [] <==> r == Err(NoImagesMessage)
  {
    if cars == [] then Err(NoImagesMessage)
    else Ok(CarStore.IndexData(
      Some(seq(|cars|, k requires 0 <= k < |cars| => PayloadItem(root, cars[k]))),
      Some(CatalogJson(Catalog(cars)))))
  }

  /**
   * Loading the written index gives back the cars, with the thumbnail
   * resolved under the root, and the same catalog.
   */
  lemma PayloadRoundTrip(root: string, cars: seq<CarMeta>)
    requires IsNormalPath(root) && root != "/"
    requires cars != [] && forall k :: 0 <= k < |cars| ==> IsNormalPath(cars[k].path)
    ensures var data := Payload(root, cars).value;
      && |data.items.value| == |cars|
      && (forall k :: 0 <= k < |cars| ==>
            CarStore.CarOf(root, data.items.value[k])
              == Some(cars[k].(thumbPath := Some(root + "/" + ThumbPath(cars[k].path)))))
      && CarStore.CatalogOf(data.catalog) == Ok(Catalog(cars))
  {
    forall k | 0 <= k < |cars|
      ensures CarStore.CarOf(root, PayloadItem(root, cars[k]))
              == Some(cars[k].(thumbPath := Some(root + "/" + ThumbPath(cars[k].path))))
    {
      ItemRoundTrip(root, cars[k]);
    }
    CatalogRoundTrip(Catalog(cars));
  }

  lemma ItemRoundTrip(root: string, car: CarMeta)
    requires IsNormalPath(root) && root != "/" && IsNormalPath(car.path)
    ensures CarStore.CarOf(root, PayloadItem(root, car)) == Some(car.(thumbPath := Some(root + "/" + ThumbPath(car.path))))
  {
    ToRelativeRoundTrip(root, car.path);
    var t := ThumbPath(car.path);
    assert t[0] == 't';
    assert t != "" && t != ".";
  }

  lemma CatalogRoundTrip(c: CarStore.Catalog)
    ensures CarStore.CatalogOf(Some(CatalogJson(c))) == Ok(c)
  {
    var raw := CatalogJson(c);
    var years := raw.yearsByModel.value;
    forall key | key in years ensures CarStore.YearsOf(years[key]) == Some(c.yearsByModel[key]) {
      NumbersRead(c.yearsByModel[key]);
    }
    var r := CarStore.CatalogOf(Some(raw));
    assert r.Ok?;
    assert r.value.yearsByModel == c.yearsByModel;
  }

  lemma NumbersRead(ys: seq<int>)
    ensures CarStore.YearsOf(Numbers(ys)) == Some(ys)
  {
    var r := CarStore.YearsOf(Numbers(ys));
    assert r.Some?;
    assert r.value == ys;
  }
}
