/**
 * Car image metadata read from file names of the form
 * `<make>_<model>_<year>_<attributes...>.<ext>`, the label shown in the
 * quiz, and the full-view heuristic on image dimensions. Paths are text
 * with `/` as the separator.
 */
module CarParser {
  import opened Wrappers
  import opened Text
  import Ordered

  /** The metadata of one car image; the optional fields come from the index. */
  datatype CarMeta = CarMeta(
    id: string,
    path: string,
    make: string,
    model: string,
    year: int,
    attributes: seq<string>,
    thumbPath: Option<string>,
    width: Option<int>,
    height: Option<int>,
    aspectRatio: Option<real>)

  /** `display_label`: make, model and year separated by single spaces. */
  function DisplayLabel(car: CarMeta): string {
    car.make + " " + car.model + " " + IntToString(car.year)
  }

  /**
   * When make and model hold no space, the label names the car: equal
   * labels mean equal make, model and year.
   */
  lemma DisplayLabelDetermines(a: CarMeta, b: CarMeta)
    requires ' ' !in a.make && ' ' !in a.model && ' ' !in b.make && ' ' !in b.model
    requires DisplayLabel(a) == DisplayLabel(b)
    ensures a.make == b.make && a.model == b.model && a.year == b.year
  {
    LabelSplits(a);
    LabelSplits(b);
    ParseIntToString(a.year);
    ParseIntToString(b.year);
  }

  lemma LabelSplits(car: CarMeta)
    requires ' ' !in car.make && ' ' !in car.model
    ensures SplitOn(DisplayLabel(car), ' ') == [car.make, car.model, IntToString(car.year)]
  {
    var ys := IntToString(car.year);
    var parts := [car.make, car.model, ys];
    assert ' ' !in ys;
    assert Join([' '], parts) == DisplayLabel(car) by {
      assert Join([' '], parts[2..]) == ys;
      assert Join([' '], parts[1..]) == car.model + " " + ys;
    }
    SplitOnJoin(parts, ' ');
  }

  /**
   * `is_full_view`: unknown dimensions count as full view; otherwise the
   * image must be landscape, at least 640 by 360, and its aspect ratio
   * (the stored one unless absent or zero, else width / height) within
   * 1.2 to 1.9.
   */
  predicate IsFullView(car: CarMeta) {
    if car.width.None? || car.height.None? then true
    else
      var w, h := car.width.value, car.height.value;
      if w <= h then false
      else if w < 640 || h < 360 then false
      else
        var ratio := if car.aspectRatio.Some? && car.aspectRatio.value != 0.0
                     then car.aspectRatio.value else (w as real) / (h as real);
        1.2 <= ratio <= 1.9
  }

  /**
   * Without a stored ratio the test is on integers: landscape, at least
   * 640 by 360, and 6h <= 5w and 10w <= 19h.
   */
  lemma IsFullViewDimensions(car: CarMeta)
    requires car.width.Some? && car.height.Some?
    requires car.aspectRatio.None? || car.aspectRatio == Some(0.0)
    ensures var w, h := car.width.value, car.height.value;
      IsFullView(car) <==> w > h && w >= 640 && h >= 360 && 6 * h <= 5 * w && 10 * w <= 19 * h
  {
    var w, h := car.width.value, car.height.value;
    if w > h && w >= 640 && h >= 360 {
      RatioBounds(w as real, h as real, 1.2);
      RatioBounds(w as real, h as real, 1.9);
    }
  }

  /** Comparing a quotient by a positive divisor is comparing the products. */
  lemma RatioBounds(a: real, b: real, c: real)
    requires b > 0.0
    ensures c <= a / b <==> c * b <= a
    ensures a / b <= c <==> a <= c * b
  {
    var q := a / b;
    assert q * b == a;
    if c <= q {
      MulMono(c, q, b);
    } else {
      MulMono(q, c, b);
    }
  }

  lemma MulMono(x: real, y: real, b: real)
    requires b > 0.0 && x <= y
    ensures x * b <= y * b
    ensures x < y ==> x * b < y * b
  {
  }

  // ---- file names ----

  /** Python's `s.rfind(c)`: the last index of `c`, if any. */
  function RFind(s: string, c: char): (r: Option<nat>)
    ensures r.Some? ==> r.value < |s| && s[r.value] == c
    ensures r.None? ==> c !in s
  {
    if s == [] then None
    else if s[|s| - 1] == c then Some(|s| - 1)
    else
      var r := RFind(s[..|s| - 1], c);
      assert r.None? ==> c !in s by {
        if r.None? {
          assert s == s[..|s| - 1] + [s[|s| - 1]];
        }
      }
      r
  }

  /** The last occurrence of `c` is the one before a tail without `c`. */
  lemma {:induction false} RFindBefore(a: string, c: char, b: string)
    requires c !in b
    ensures RFind(a + [c] + b, c) == Some(|a|)
    decreases |b|
  {
    var s := a + [c] + b;
    if b != [] {
      assert s[..|s| - 1] == a + [c] + b[..|b| - 1];
      assert b[|b| - 1] in b;
      RFindBefore(a, c, b[..|b| - 1]);
    } else {
      assert s == a + [c];
    }
  }

  /** `Path.name`: the part after the last `/`. */
  function Name(path: string): string {
    match RFind(path, '/')
    case Some(k) => path[k + 1..]
    case None => path
  }

  /** `Path.stem`: the name without its last suffix; a leading or trailing dot is no suffix. */
  function Stem(path: string): string {
    var name := Name(path);
    match RFind(name, '.')
    case Some(i) => if 0 < i < |name| - 1 then name[..i] else name
    case None => name
  }

  /** `[p.strip() for p in parts if p.strip()]`. */
  function StrippedNonEmpty(parts: seq<string>): (r: seq<string>)
    ensures |r| <= |parts|
    ensures forall p :: p in r ==> p != ""
  {
    if parts == [] then []
    else (if Strip(parts[0]) != "" then [Strip(parts[0])] else []) + StrippedNonEmpty(parts[1..])
  }

  /** Pieces already stripped and non-empty come through unchanged. */
  lemma {:induction false} StrippedNonEmptyKeeps(parts: seq<string>)
    requires forall p :: p in parts ==> p != "" && Strip(p) == p
    ensures StrippedNonEmpty(parts) == parts
  {
    if parts != [] {
      var head, tail := parts[0], parts[1..];
      assert head in parts;
      KeptPieces(parts);
      StrippedNonEmptyKeeps(tail);
    }
  }

  lemma KeptPieces(parts: seq<string>)
    requires parts != []
    requires forall p :: p in parts ==> p != "" && Strip(p) == p
    ensures forall p :: p in parts[1..] ==> p != "" && Strip(p) == p
  {
    forall p | p in parts[1..] ensures p in parts {
      var k :| 0 <= k < |parts[1..]| && parts[1..][k] == p;
      assert parts[k + 1] == p;
    }
  }

  datatype ParseError = MissingTokens(stem: string) | YearParseFailed(stem: string)

  /** `parse_filename`; `FilenameParseError` is the `Err` case. */
  function ParseFilename(path: string): (r: Result<CarMeta, ParseError>)
    ensures r.Err? ==> r.error.stem == Stem(path)
    ensures r.Ok? ==> r.value.id == Stem(path) && r.value.path == path
  {
    var stem := Stem(path);
    var parts := StrippedNonEmpty(SplitOn(stem, '_'));
    if |parts| < 4 then Err(MissingTokens(stem))
    else match ParseInt(parts[2])
      case None => Err(YearParseFailed(stem))
      case Some(year) => Ok(CarMeta(stem, path, parts[0], parts[1], year, parts[3..], None, None, None, None))
  }

  /**
   * The cases of `parse_filename`: fewer than four non-blank `_`-pieces is
   * the missing-tokens error, a third piece that is no integer is the year
   * error, and otherwise the pieces are make, model, year and attributes.
   */
  lemma ParseFilenameCases(path: string)
    ensures var parts := StrippedNonEmpty(SplitOn(Stem(path), '_'));
      var r := ParseFilename(path);
      && (|parts| < 4 <==> r == Err(MissingTokens(Stem(path))))
      && (|parts| >= 4 && ParseInt(parts[2]).None? <==> r == Err(YearParseFailed(Stem(path))))
      && (r.Ok? ==> |parts| >= 4 && r.value.make == parts[0] && r.value.model == parts[1]
                    && Some(r.value.year) == ParseInt(parts[2]) && r.value.attributes == parts[3..])
  {
  }

  /** A piece the naming scheme allows: non-blank, unpadded, no `_` and no `/`. */
  predicate IsNamePiece(p: string) {
    p != "" && Strip(p) == p && '_' !in p && '/' !in p
  }

  /** The file name of a car: its pieces joined by `_`, then the extension. */
  function FileName(dir: string, make: string, model: string, year: int, attributes: seq<string>, ext: string): string {
    dir + "/" + Join("_", [make, model, IntToString(year)] + attributes) + "." + ext
  }

  /**
   * Parsing the file name of a car gives back its make, model, year and
   * attributes; the scheme needs at least one attribute piece.
   */
  lemma ParseFileName(dir: string, make: string, model: string, year: int, attributes: seq<string>, ext: string)
    requires IsNamePiece(make) && IsNamePiece(model)
    requires attributes != [] && forall a :: a in attributes ==> IsNamePiece(a)
    requires ext != "" && '.' !in ext && '/' !in ext
    ensures var path := FileName(dir, make, model, year, attributes, ext);
      var stem := Join("_", [make, model, IntToString(year)] + attributes);
      ParseFilename(path) == Ok(CarMeta(stem, path, make, model, year, attributes, None, None, None, None))
  {
    var parts := [make, model, IntToString(year)] + attributes;
    var stem := Join("_", parts);
    var path := FileName(dir, make, model, year, attributes, ext);
    assert Stem(path) == stem by {
      PiecesOfCar(make, model, year, attributes);
      NoCharInJoin(parts, '/');
      assert stem == make + "_" + Join("_", parts[1..]);
      StemOfFileName(dir, stem, ext);
    }
    assert StrippedNonEmpty(SplitOn(stem, '_')) == parts by {
      PiecesOfCar(make, model, year, attributes);
      SplitOnJoin(parts, '_');
      StrippedNonEmptyKeeps(parts);
    }
    assert ParseInt(parts[2]) == Some(year) by {
      ParseIntToString(year);
    }
    ParseFromPieces(path, stem, parts, year);
    assert parts[3..] == attributes;
  }

  lemma ParseFromPieces(path: string, stem: string, parts: seq<string>, year: int)
    requires Stem(path) == stem && StrippedNonEmpty(SplitOn(stem, '_')) == parts
    requires |parts| >= 4 && ParseInt(parts[2]) == Some(year)
    ensures ParseFilename(path) == Ok(CarMeta(stem, path, parts[0], parts[1], year, parts[3..], None, None, None, None))
  {
  }

  lemma PiecesOfCar(make: string, model: string, year: int, attributes: seq<string>)
    requires IsNamePiece(make) && IsNamePiece(model)
    requires forall a :: a in attributes ==> IsNamePiece(a)
    ensures forall p :: p in [make, model, IntToString(year)] + attributes ==> IsNamePiece(p)
  {
    var ys := IntToString(year);
    assert forall c :: c in ys ==> c == '-' || IsAsciiDigit(c) by {
      if year >= 0 {
        assert ys == NatToString(year);
      } else {
        assert ys == "-" + NatToString(-year);
      }
    }
    StripIntToString(year);
    assert IsNamePiece(ys);
  }

  /** The stem of `dir/stem.ext` is `stem` when neither contains `/` and the extension has no dot. */
  lemma StemOfFileName(dir: string, stem: string, ext: string)
    requires stem != [] && '/' !in stem
    requires ext != "" && '.' !in ext && '/' !in ext
    ensures Stem(dir + "/" + stem + "." + ext) == stem
  {
    var path := dir + "/" + stem + "." + ext;
    var rest := stem + "." + ext;
    assert path == dir + ['/'] + rest;
    assert '/' !in rest;
    RFindBefore(dir, '/', rest);
    assert Name(path) == rest;
    assert rest == stem + ['.'] + ext;
    RFindBefore(stem, '.', ext);
  }

  lemma {:induction false} NoCharInJoin(parts: seq<string>, c: char)
    requires forall p :: p in parts ==> c !in p
    requires c != '_'
    ensures c !in Join("_", parts)
  {
    if |parts| > 1 {
      assert parts[0] in parts;
      NoCharInJoin(parts[1..], c);
    } else if |parts| == 1 {
      assert parts[0] in parts;
    }
  }

  /** What one path adds to `iter_car_meta`: its metadata, or nothing when it does not parse. */
  function Contribution(path: string): seq<CarMeta> {
    match ParseFilename(path)
    case Ok(car) => [car]
    case Err(_) => []
  }

  /** `iter_car_meta`: the parsed metadata of the parseable paths, in order. */
  function IterCarMeta(paths: seq<string>): (cars: seq<CarMeta>)
    ensures |cars| <= |paths|
  {
    LengthOfContributions(paths);
    Ordered.ConcatMap(paths, Contribution)
  }

  lemma {:induction false} LengthOfContributions(paths: seq<string>)
    ensures |Ordered.ConcatMap(paths, Contribution)| <= |paths|
  {
    if paths != [] {
      LengthOfContributions(paths[..|paths| - 1]);
    }
  }

  /**
   * Every listed car is the parse of one of the paths, and every parseable
   * path contributes its car.
   */
  lemma {:induction false} IterCarMetaMembers(paths: seq<string>)
    ensures forall car :: car in IterCarMeta(paths) ==> exists p :: p in paths && ParseFilename(p) == Ok(car)
    ensures forall p :: p in paths && ParseFilename(p).Ok? ==> ParseFilename(p).value in IterCarMeta(paths)
  {
    if paths != [] {
      var init, last := paths[..|paths| - 1], paths[|paths| - 1];
      IterCarMetaMembers(init);
      assert paths == init + [last];
      Ordered.ConcatMapSnoc(init, last, Contribution);
      forall car | car in IterCarMeta(paths) ensures exists p :: p in paths && ParseFilename(p) == Ok(car) {
        if car in IterCarMeta(init) {
          var q :| q in init && ParseFilename(q) == Ok(car);
          assert q in paths;
        } else {
          assert car in Contribution(last);
          assert ParseFilename(last) == Ok(car);
        }
      }
    }
  }

  /** The metadata of concatenated path lists is the concatenation, so the order is kept. */
  lemma IterCarMetaAppend(a: seq<string>, b: seq<string>)
    ensures IterCarMeta(a + b) == IterCarMeta(a) + IterCarMeta(b)
  {
    Ordered.ConcatMapAppend(a, b, Contribution);
  }

  /** Every parseable path contributes its metadata; unparseable ones are skipped. */
  lemma IterCarMetaSingle(p: string)
    ensures ParseFilename(p).Ok? ==> IterCarMeta([p]) == [ParseFilename(p).value]
    ensures ParseFilename(p).Err? ==> IterCarMeta([p]) == []
  {
    Ordered.ConcatMapSnoc([], p, Contribution);
    assert [] + [p] == [p];
  }
}
