/**
 * Loading the car index: the decoded `index.json` items become car
 * metadata with their image and thumbnail paths made absolute against the
 * project root, the quiz keeps only full-view images unless fewer than ten
 * are, and the catalog tables are copied with missing sections empty.
 * Reading and decoding the file are outside the model: the decoded items
 * and catalog are the input, and an item's year is the JSON number or
 * string that `int(...)` is applied to.
 */
module CarStore {
  import opened Wrappers
  import opened Text
  import Ordered
  import opened CarParser

  // ---- paths ----

  /** A path is absolute when it starts at the file-system root. */
  predicate IsAbsolute(p: string) {
    |p| > 0 && p[0] == '/'
  }

  /** `Path(p)` names the current directory: `Path("")` and `Path(".")`. */
  predicate IsHere(p: string) {
    p == "" || p == "."
  }

  /**
   * `ROOT / Path(p)` unless `p` is absolute: an absolute path is kept, the
   * current directory names the root itself, and any other relative path
   * is appended below the root.
   */
  function Resolve(root: string, p: string): (r: string)
    ensures IsAbsolute(p) ==> r == p
    ensures IsHere(p) ==> r == root
    ensures !IsAbsolute(p) && !IsHere(p) ==> r == root + "/" + p
  {
    if IsAbsolute(p) then p else if IsHere(p) then root else root + "/" + p
  }

  /** With an absolute root every resolved path is absolute, and resolving again changes nothing. */
  lemma ResolveAbsolute(root: string, p: string)
    requires IsAbsolute(root)
    ensures IsAbsolute(Resolve(root, p))
    ensures Resolve(root, Resolve(root, p)) == Resolve(root, p)
  {
  }

  /** A relative path resolves to the root, a separator, and the path itself. */
  lemma ResolveRelative(root: string, p: string)
    requires !IsAbsolute(p) && !IsHere(p)
    ensures StartsWith(Resolve(root, p), root + "/")
    ensures Resolve(root, p)[|root| + 1..] == p
  {
    assert (root + "/" + p)[..|root| + 1] == root + "/";
  }

  /** `thumb_path`: absent or empty gives no thumbnail, anything else is resolved. */
  function ResolveThumb(root: string, thumb: Option<string>): (r: Option<string>)
    ensures thumb.None? || thumb == Some("") <==> r.None?
    ensures r.Some? ==> r.value == Resolve(root, thumb.value)
  {
    if thumb.None? || thumb.value == "" then None else Some(Resolve(root, thumb.value))
  }

  // ---- items ----

  /** A JSON value that `int(...)` is applied to: a number or a string. */
  datatype JsonYear = YearNumber(n: int) | YearText(s: string)

  /** `int(v)`: a number is kept, a string must be a decimal integer. */
  function YearOf(v: JsonYear): (r: Option<int>)
    ensures v.YearNumber? ==> r == Some(v.n)
    ensures v.YearText? ==> r == ParseInt(v.s)
  {
    match v
    case YearNumber(n) => Some(n)
    case YearText(s) => ParseInt(s)
  }

  /** A year written out in decimal reads back as itself. */
  lemma YearTextRoundTrip(y: int)
    ensures YearOf(YearText(IntToString(y))) == Some(y)
  {
    ParseIntToString(y);
  }

  /** One decoded entry of `items`; the optional keys may be missing. */
  datatype IndexItem = IndexItem(
    id: string,
    path: string,
    make: string,
    model: string,
    year: JsonYear,
    attributes: Option<seq<string>>,
    thumbPath: Option<string>,
    width: Option<int>,
    height: Option<int>,
    aspectRatio: Option<real>)

  /** What `load_index` makes of one item, or None when its year is not an integer. */
  function CarOf(root: string, item: IndexItem): (r: Option<CarMeta>)
    ensures r.Some? <==> YearOf(item.year).Some?
  {
    match YearOf(item.year)
    case None => None
    case Some(y) =>
      Some(CarMeta(item.id, Resolve(root, item.path), item.make, item.model, y,
                   item.attributes.GetOr([]), ResolveThumb(root, item.thumbPath),
                   item.width, item.height, item.aspectRatio))
  }

  /**
   * A loaded car keeps the item's id, make, model, dimensions and the
   * integer value of its year; with an absolute root its image path and
   * thumbnail path are absolute, and it has a thumbnail exactly when the
   * item names a non-empty one.
   */
  lemma CarOfSpec(root: string, item: IndexItem)
    requires IsAbsolute(root) && CarOf(root, item).Some?
    ensures var car := CarOf(root, item).value;
      && car.id == item.id && car.make == item.make && car.model == item.model
      && Some(car.year) == YearOf(item.year)
      && car.attributes == item.attributes.GetOr([])
      && car.width == item.width && car.height == item.height && car.aspectRatio == item.aspectRatio
      && IsAbsolute(car.path)
      && (car.thumbPath.Some? <==> item.thumbPath.Some? && item.thumbPath.value != "")
      && (car.thumbPath.Some? ==> IsAbsolute(car.thumbPath.value))
  {
    ResolveAbsolute(root, item.path);
    if item.thumbPath.Some? {
      ResolveAbsolute(root, item.thumbPath.value);
    }
  }

  /** Why loading fails: `int(...)` raised on a car's year, or on a catalog year. */
  datatype LoadError = InvalidYear(id: string) | InvalidCatalogYear

  /**
   * The item loop of `load_index`: each item becomes a car in order; the
   * first item whose year is not an integer stops the load.
   */
  method LoadCars(root: string, items: seq<IndexItem>) returns (r: Result<seq<CarMeta>, LoadError>)
    ensures r.Ok? <==> forall k :: 0 <= k < |items| ==> CarOf(root, items[k]).Some?
    ensures r.Ok? ==> |r.value| == |items|
    ensures r.Ok? ==> forall k :: 0 <= k < |items| ==> CarOf(root, items[k]) == Some(r.value[k])
    ensures r.Err? ==> exists k :: (0 <= k < |items| && CarOf(root, items[k]).None?
      && (forall j :: 0 <= j < k ==> CarOf(root, items[j]).Some?)
      && r.error == InvalidYear(items[k].id))
  {
    var cars: seq<CarMeta> := [];
    for i := 0 to |items|
      invariant |cars| == i
      invariant forall k :: 0 <= k < i ==> CarOf(root, items[k]) == Some(cars[k])
    {
      var car := CarOf(root, items[i]);
      if car.None? {
        return Err(InvalidYear(items[i].id));
      }
      cars := cars + [car.value];
    }
    return Ok(cars);
  }

  // ---- the full-view filter ----

  /** The fewest full-view images the quiz accepts before falling back to every image. */
  const MinFullView: nat := 10

  /** The full-view images, or all of them when fewer than ten are full-view. */
  function QuizCars(cars: seq<CarMeta>): seq<CarMeta> {
    var full := Ordered.Filter(cars, IsFullView);
    if |full| < MinFullView then cars else full
  }

  /**
   * The quiz cars are the input in order with some left out; when any is
   * left out, all that remain are full-view, every full-view car remains,
   * and there are at least ten.
   */
  lemma QuizCarsSpec(cars: seq<CarMeta>)
    ensures Ordered.IsSubseq(QuizCars(cars), cars)
    ensures QuizCars(cars) == cars || |QuizCars(cars)| >= MinFullView
    ensures QuizCars(cars) != cars ==>
      (forall c :: c in QuizCars(cars) ==> IsFullView(c))
      && (forall c :: c in cars && IsFullView(c) ==> c in QuizCars(cars))
    ensures (forall c :: c in cars ==> IsFullView(c)) ==> QuizCars(cars) == cars
  {
    Ordered.FilterSubseq(cars, IsFullView);
    Ordered.SubseqRefl(cars);
    forall c | c in cars && IsFullView(c) ensures c in Ordered.Filter(cars, IsFullView) {
      Ordered.FilterComplete(cars, IsFullView, c);
    }
    if forall c :: c in cars ==> IsFullView(c) {
      assert forall k :: 0 <= k < |cars| ==> cars[k] in cars;
      FilterAll(cars, IsFullView);
    }
  }

  /** Keeping only the items that pass drops nothing when all of them pass. */
  lemma {:induction false} FilterAll<T>(xs: seq<T>, p: T -> bool)
    requires forall k :: 0 <= k < |xs| ==> p(xs[k])
    ensures Ordered.Filter(xs, p) == xs
  {
    if xs != [] {
      var init, last := xs[..|xs| - 1], xs[|xs| - 1];
      assert forall k :: 0 <= k < |init| ==> init[k] == xs[k];
      assert init + [last] == xs;
      calc {
        Ordered.Filter(xs, p);
        Ordered.Filter(init + [last], p);
        { KeptLast(init, last, p); }
        Ordered.Filter(init, p) + [last];
        { FilterAll(init, p); }
        xs;
      }
    }
  }

  lemma KeptLast<T>(init: seq<T>, last: T, p: T -> bool)
    requires p(last)
    ensures Ordered.Filter(init + [last], p) == Ordered.Filter(init, p) + [last]
  {
    assert (init + [last])[..|init|] == init;
  }

  // ---- the catalog ----

  /** `catalog_data` as decoded: each of its three sections may be missing. */
  datatype RawCatalog = RawCatalog(
    makes: Option<seq<string>>,
    models: Option<map<string, seq<string>>>,
    yearsByModel: Option<map<string, seq<JsonYear>>>)

  /** The lookup tables of the dataset. */
  datatype Catalog = Catalog(makes: seq<string>, modelsByMake: map<string, seq<string>>, yearsByModel: map<string, seq<int>>)

  /** `[int(year) for year in years]`, None when one of them is not an integer. */
  function YearsOf(ys: seq<JsonYear>): (r: Option<seq<int>>)
    ensures r.Some? <==> forall k :: 0 <= k < |ys| ==> YearOf(ys[k]).Some?
    ensures r.Some? ==> |r.value| == |ys| && forall k :: 0 <= k < |ys| ==> Some(r.value[k]) == YearOf(ys[k])
  {
    if ys == [] then Some([])
    else
      match (YearsOf(ys[..|ys| - 1]), YearOf(ys[|ys| - 1]))
      case (Some(init), Some(y)) => Some(init + [y])
      case _ => None
  }

  /**
   * The catalog part of `load_index`: a missing section is empty, and the
   * years are coerced to integers; one that is not fails the load.
   */
  function CatalogOf(raw: Option<RawCatalog>): (r: Result<Catalog, LoadError>)
    ensures raw.None? ==> r == Ok(Catalog([], map[], map[]))
    ensures r.Ok? && raw.Some? ==>
      && r.value.makes == raw.value.makes.GetOr([])
      && r.value.modelsByMake == raw.value.models.GetOr(map[])
      && r.value.yearsByModel.Keys == raw.value.yearsByModel.GetOr(map[]).Keys
      && forall key :: key in r.value.yearsByModel ==>
           YearsOf(raw.value.yearsByModel.value[key]) == Some(r.value.yearsByModel[key])
    ensures r.Err? <==> (raw.Some? && raw.value.yearsByModel.Some? &&
      exists key :: key in raw.value.yearsByModel.value && YearsOf(raw.value.yearsByModel.value[key]).None?)
    ensures r.Err? ==> r.error == InvalidCatalogYear
  {
    if raw.None? then Ok(Catalog([], map[], map[]))
    else
      var years := raw.value.yearsByModel.GetOr(map[]);
      if exists key :: key in years && YearsOf(years[key]).None? then Err(InvalidCatalogYear)
      else
        Ok(Catalog(raw.value.makes.GetOr([]), raw.value.models.GetOr(map[]),
                   map key | key in years :: YearsOf(years[key]).value))
  }

  /** The decoded file: `items` and `catalog` may be missing. */
  datatype IndexData = IndexData(items: Option<seq<IndexItem>>, catalog: Option<RawCatalog>)

  /** `CarIndex`: the quiz cars and the catalog. */
  datatype CarIndex = CarIndex(cars: seq<CarMeta>, catalog: Catalog)

  /**
   * `load_index` after decoding: the items become cars, the quiz keeps the
   * full-view ones unless fewer than ten are, and the catalog is copied; a
   * year that is not an integer, among the items first, fails the load.
   */
  method LoadIndex(root: string, data: IndexData) returns (r: Result<CarIndex, LoadError>)
    ensures var items := data.items.GetOr([]);
      r.Ok? <==> (forall k :: 0 <= k < |items| ==> CarOf(root, items[k]).Some?) && CatalogOf(data.catalog).Ok?
    ensures var items := data.items.GetOr([]);
      r.Err? && (forall k :: 0 <= k < |items| ==> CarOf(root, items[k]).Some?) ==> r == Err(CatalogOf(data.catalog).error)
    ensures r.Ok? ==> exists all: seq<CarMeta> ::
      && |all| == |data.items.GetOr([])|
      && (forall k :: 0 <= k < |all| ==> CarOf(root, data.items.GetOr([])[k]) == Some(all[k]))
      && r.value.cars == QuizCars(all)
    ensures r.Ok? ==> r.value.catalog == CatalogOf(data.catalog).value
  {
    var cars := LoadCars(root, data.items.GetOr([]));
    if cars.Err? {
      return Err(cars.error);
    }
    var catalog := CatalogOf(data.catalog);
    if catalog.Err? {
      return Err(catalog.error);
    }
    return Ok(CarIndex(QuizCars(cars.value), catalog.value));
  }
}
