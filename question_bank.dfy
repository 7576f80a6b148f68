/**
 * The quiz's question generator: cars are deduplicated by their label and
 * grouped by make and by make and model; a question is an answer car and
 * distractors drawn first from the same model (at most one other year),
 * then the same make, then other makes, then anything left, with no label
 * twice. `random.shuffle` and `random.choice` are nondeterministic choices.
 */
module QuestionBank {
  import opened Wrappers
  import opened CarParser
  import Ordered

  const MinCars: nat := 10
  const SameModelQuota: nat := 3
  const SameMakeQuota: nat := 3

  const TooFewImagesMessage: string := "At least 10 images are required."
  const TooFewUniqueMessage: string := "Not enough unique vehicles after filtering."
  const ChoiceCountMessage: string := "choice_count must be at least 2."
  const NotEnoughDistractorsMessage: string := "Not enough distractors available."
  const MissingAnswerMessage: string := "Correct answer missing from choices."
  const NotEnoughQuestionsMessage: string := "\U{cda9}\U{bd84}\U{d55c} \U{bb38}\U{c81c}\U{b97c} \U{c0dd}\U{c131}\U{d558}\U{c9c0} \U{babb}\U{d588}\U{c2b5}\U{b2c8}\U{b2e4}. \U{c0ac}\U{c6a9} \U{ac00}\U{b2a5}\U{d55c} \U{c774}\U{bbf8}\U{c9c0} \U{c218}\U{ac00} \U{bd80}\U{c871}\U{d560} \U{c218} \U{c788}\U{c2b5}\U{b2c8}\U{b2e4}."

  datatype Question = Question(car: CarMeta, choices: seq<CarMeta>)

  function IdOf(car: CarMeta): string { car.id }
  function MakeOf(car: CarMeta): string { car.make }
  function ModelOf(car: CarMeta): (string, string) { (car.make, car.model) }

  /** The position of the first choice with the given id. */
  function IndexOfId(choices: seq<CarMeta>, id: string): (r: Option<nat>)
    ensures r.Some? ==> r.value < |choices| && choices[r.value].id == id
    ensures r.Some? ==> forall k :: 0 <= k < r.value ==> choices[k].id != id
    ensures r.None? ==> forall k :: 0 <= k < |choices| ==> choices[k].id != id
  {
    if choices == [] then None
    else if choices[0].id == id then Some(0)
    else match IndexOfId(choices[1..], id)
      case None => None
      case Some(i) => Some(i + 1)
  }

  /** `Question.correct_index`: the first choice with the answer's id, or the missing-answer error. */
  function CorrectIndex(q: Question): (r: Result<nat, string>)
    ensures r.Ok? ==> r.value < |q.choices| && q.choices[r.value].id == q.car.id
    ensures r.Ok? ==> forall k :: 0 <= k < r.value ==> q.choices[k].id != q.car.id
    ensures r.Err? <==> forall k :: 0 <= k < |q.choices| ==> q.choices[k].id != q.car.id
    ensures r.Err? ==> r.error == MissingAnswerMessage
  {
    match IndexOfId(q.choices, q.car.id)
    case Some(i) => Ok(i)
    case None => Err(MissingAnswerMessage)
  }

  /** `random.shuffle`: some reordering of `xs`. */
  method Shuffle<T(==)>(xs: seq<T>) returns (ys: seq<T>)
    ensures multiset(ys) == multiset(xs)
  {
    ys :| multiset(ys) == multiset(xs);
  }

  /** No two cars of `cars` share a label (so no car occurs twice either). */
  predicate DistinctLabels(cars: seq<CarMeta>) {
    Ordered.DistinctKeys(cars, DisplayLabel)
  }

  /** The labels of `cars`, as a set grown one car at a time. */
  function Labels(cars: seq<CarMeta>): set<string> {
    if cars == [] then {} else Labels(cars[..|cars| - 1]) + {DisplayLabel(cars[|cars| - 1])}
  }

  /** The ids of `cars`, as a set grown one car at a time. */
  function Ids(cars: seq<CarMeta>): set<string> {
    if cars == [] then {} else Ids(cars[..|cars| - 1]) + {cars[|cars| - 1].id}
  }

  lemma {:induction false} InLabels(cars: seq<CarMeta>, k: nat)
    requires k < |cars|
    ensures DisplayLabel(cars[k]) in Labels(cars) && cars[k].id in Ids(cars)
  {
    if k < |cars| - 1 {
      InLabels(cars[..|cars| - 1], k);
    }
  }

  /** Every label and id in the sets belongs to some car. */
  lemma {:induction false} LabelsMembers(cars: seq<CarMeta>)
    ensures forall l :: l in Labels(cars) ==> exists k :: 0 <= k < |cars| && DisplayLabel(cars[k]) == l
    ensures forall i :: i in Ids(cars) ==> exists k :: 0 <= k < |cars| && cars[k].id == i
  {
    if cars != [] {
      var init := cars[..|cars| - 1];
      LabelsMembers(init);
      assert forall k :: 0 <= k < |init| ==> init[k] == cars[k];
    }
  }

  lemma SetsSnoc(cars: seq<CarMeta>, car: CarMeta)
    ensures Labels(cars + [car]) == Labels(cars) + {DisplayLabel(car)}
    ensures Ids(cars + [car]) == Ids(cars) + {car.id}
  {
    assert (cars + [car])[..|cars|] == cars;
  }

  lemma SetsAppend(a: seq<CarMeta>, b: seq<CarMeta>)
    ensures Labels(a + b) == Labels(a) + Labels(b) && Ids(a + b) == Ids(a) + Ids(b)
  {
    LabelsAppend(a, b);
    IdsAppend(a, b);
  }

  lemma {:induction false} LabelsAppend(a: seq<CarMeta>, b: seq<CarMeta>)
    ensures Labels(a + b) == Labels(a) + Labels(b)
    decreases |b|
  {
    if b == [] {
      assert a + b == a;
    } else {
      var init, x := b[..|b| - 1], b[|b| - 1];
      assert a + b == (a + init) + [x];
      assert b == init + [x];
      calc {
        Labels(a + b);
        { SetsSnoc(a + init, x); }
        Labels(a + init) + {DisplayLabel(x)};
        { LabelsAppend(a, init); }
        Labels(a) + Labels(init) + {DisplayLabel(x)};
        { SetsSnoc(init, x); }
        Labels(a) + Labels(b);
      }
    }
  }

  lemma {:induction false} IdsAppend(a: seq<CarMeta>, b: seq<CarMeta>)
    ensures Ids(a + b) == Ids(a) + Ids(b)
    decreases |b|
  {
    if b == [] {
      assert a + b == a;
    } else {
      var init, x := b[..|b| - 1], b[|b| - 1];
      assert a + b == (a + init) + [x];
      assert b == init + [x];
      calc {
        Ids(a + b);
        { SetsSnoc(a + init, x); }
        Ids(a + init) + {x.id};
        { IdsAppend(a, init); }
        Ids(a) + Ids(init) + {x.id};
        { SetsSnoc(init, x); }
        Ids(a) + Ids(b);
      }
    }
  }

  /** A reordering keeps labels distinct. */
  lemma ShuffleKeepsDistinct(a: seq<CarMeta>, b: seq<CarMeta>)
    requires multiset(a) == multiset(b) && DistinctLabels(b)
    ensures DistinctLabels(a)
  {
    Ordered.DistinctKeysPermutation(a, b, DisplayLabel);
  }

  /**
   * Cars that may be added to a choice list: each comes from the pool,
   * has an unused id and an unused label, and no label repeats.
   */
  predicate FreshChoices(added: seq<CarMeta>, pool: seq<CarMeta>, usedIds: set<string>, usedLabels: set<string>) {
    && (forall k :: 0 <= k < |added| ==>
          added[k] in pool && added[k].id !in usedIds && DisplayLabel(added[k]) !in usedLabels)
    && DistinctLabels(added)
  }

  /**
   * `_extend_with_pool`: picks, in a random order, cars of `pool` whose id
   * is not in `usedIds` and whose label is not yet used, until `quota` cars
   * were picked; the caller appends `added` to its choice list, and the
   * used ids and labels grow with them.
   */
  method ExtendWithPool(pool: seq<CarMeta>, quota: int, usedIds: set<string>, usedLabels: set<string>)
    returns (added: seq<CarMeta>, usedIds': set<string>, usedLabels': set<string>)
    ensures |added| <= (if quota < 0 then 0 else quota)
    ensures FreshChoices(added, pool, usedIds, usedLabels)
    ensures usedIds' == usedIds + Ids(added)
    ensures usedLabels' == usedLabels + Labels(added)
    ensures |added| < quota ==> forall c :: c in pool ==> c.id in usedIds || DisplayLabel(c) in usedLabels'
  {
    if quota <= 0 {
      return [], usedIds, usedLabels;
    }
    var unused := (c: CarMeta) => c.id !in usedIds;
    var candidates := Ordered.Filter(pool, unused);
    var shuffled := Shuffle(candidates);
    added, usedIds', usedLabels' := TakeFresh(shuffled, quota, usedIds, usedLabels);
    forall k | 0 <= k < |added|
      ensures added[k] in pool && added[k].id !in usedIds
    {
      assert added[k] in multiset(candidates);
    }
    if |added| < quota {
      AllCandidatesSeen(pool, usedIds, unused, shuffled, usedLabels');
    }
  }

  /**
   * The state of `_extend_with_pool`'s loop: the cars taken so far come from
   * `candidates`, have labels outside `usedLabels` and pairwise distinct, and
   * `ids` and `labels` are the used sets grown by theirs.
   */
  predicate Taken(added: seq<CarMeta>, candidates: seq<CarMeta>, usedIds: set<string>, usedLabels: set<string>,
                  ids: set<string>, labels: set<string>) {
    && (forall k :: 0 <= k < |added| ==> added[k] in candidates && DisplayLabel(added[k]) !in usedLabels)
    && DistinctLabels(added)
    && ids == usedIds + Ids(added)
    && labels == usedLabels + Labels(added)
  }

  /**
   * The loop of `_extend_with_pool`: walks `candidates` in order, taking
   * each car whose label is not yet used, and stops once `quota` were taken.
   */
  method TakeFresh(candidates: seq<CarMeta>, quota: int, usedIds: set<string>, usedLabels: set<string>)
    returns (added: seq<CarMeta>, usedIds': set<string>, usedLabels': set<string>)
    ensures |added| <= (if quota < 0 then 0 else quota)
    ensures Taken(added, candidates, usedIds, usedLabels, usedIds', usedLabels')
    ensures |added| < quota ==> LabelsSeen(candidates, |candidates|, usedLabels')
  {
    added, usedIds', usedLabels' := [], usedIds, usedLabels;
    var i := 0;
    while i < |candidates| && |added| < quota
      invariant 0 <= i <= |candidates|
      invariant |added| <= (if quota < 0 then 0 else quota)
      invariant Taken(added, candidates, usedIds, usedLabels, usedIds', usedLabels')
      invariant LabelsSeen(candidates, i, usedLabels')
    {
      var car := candidates[i];
      var lbl := DisplayLabel(car);
      ghost var before := usedLabels';
      if lbl !in usedLabels' {
        TakeOne(added, car, candidates, usedIds, usedLabels, usedIds', usedLabels');
        added := added + [car];
        usedIds' := usedIds' + {car.id};
        usedLabels' := usedLabels' + {lbl};
      }
      SeenStep(candidates, i, before, usedLabels');
      i := i + 1;
    }
  }

  /** The labels of the first `i` candidates are all in `labels`. */
  predicate LabelsSeen(candidates: seq<CarMeta>, i: nat, labels: set<string>)
    requires i <= |candidates|
  {
    forall k :: 0 <= k < i ==> DisplayLabel(candidates[k]) in labels
  }

  lemma SeenStep(candidates: seq<CarMeta>, i: nat, labels: set<string>, labels': set<string>)
    requires i < |candidates| && LabelsSeen(candidates, i, labels)
    requires labels <= labels' && DisplayLabel(candidates[i]) in labels'
    ensures LabelsSeen(candidates, i + 1, labels')
  {
  }

  /** Taking a candidate with a new label keeps the loop's state. */
  lemma TakeOne(added: seq<CarMeta>, car: CarMeta, candidates: seq<CarMeta>, usedIds: set<string>,
                usedLabels: set<string>, ids: set<string>, labels: set<string>)
    requires Taken(added, candidates, usedIds, usedLabels, ids, labels)
    requires car in candidates && DisplayLabel(car) !in labels
    ensures Taken(added + [car], candidates, usedIds, usedLabels, ids + {car.id}, labels + {DisplayLabel(car)})
  {
    LabelSnoc(added, car, usedLabels);
  }

  /** Appending a car with a new label keeps the labels distinct and grows the id and label sets by its own. */
  lemma LabelSnoc(added: seq<CarMeta>, car: CarMeta, usedLabels: set<string>)
    requires DistinctLabels(added)
    requires DisplayLabel(car) !in usedLabels + Labels(added)
    ensures DistinctLabels(added + [car])
    ensures Ids(added + [car]) == Ids(added) + {car.id}
    ensures Labels(added + [car]) == Labels(added) + {DisplayLabel(car)}
  {
    var r := added + [car];
    forall i, j | 0 <= i < j < |r| ensures DisplayLabel(r[i]) != DisplayLabel(r[j]) {
      if j == |added| {
        InLabels(added, i);
      } else {
        assert r[i] == added[i] && r[j] == added[j];
      }
    }
    SetsSnoc(added, car);
  }

  /** When every shuffled candidate's label is used, every car of the pool is used by id or label. */
  lemma AllCandidatesSeen(pool: seq<CarMeta>, usedIds: set<string>, unused: CarMeta -> bool,
                          shuffled: seq<CarMeta>, labels: set<string>)
    requires forall c :: unused(c) == (c.id !in usedIds)
    requires multiset(shuffled) == multiset(Ordered.Filter(pool, unused))
    requires LabelsSeen(shuffled, |shuffled|, labels)
    ensures forall c :: c in pool ==> c.id in usedIds || DisplayLabel(c) in labels
  {
    forall c | c in pool && c.id !in usedIds ensures DisplayLabel(c) in labels {
      Ordered.FilterComplete(pool, unused, c);
      assert c in multiset(shuffled);
      var k :| 0 <= k < |shuffled| && shuffled[k] == c;
    }
  }

  /**
   * `_limit_year_variation`: one car of some year other than the answer's,
   * chosen at random, or none when every car has the answer's year.
   */
  method LimitYearVariation(cars: seq<CarMeta>, answerYear: int) returns (r: seq<CarMeta>)
    ensures |r| <= 1
    ensures r == [] <==> forall c :: c in cars ==> c.year == answerYear
    ensures forall c :: c in r ==> c in cars && c.year != answerYear
  {
    var groups: map<int, seq<CarMeta>> := map[];
    for i := 0 to |cars|
      invariant forall y :: y in groups ==> y != answerYear && groups[y] != []
      invariant forall y, c :: y in groups && c in groups[y] ==> c in cars && c.year == y
      invariant forall k :: 0 <= k < i && cars[k].year != answerYear ==> cars[k].year in groups
    {
      var car := cars[i];
      if car.year != answerYear {
        groups := groups[car.year := Get(groups, car.year, []) + [car]];
      }
    }
    if groups == map[] {
      forall c | c in cars ensures c.year == answerYear {
        var k :| 0 <= k < |cars| && cars[k] == c;
      }
      return [];
    }
    assert exists y :: y in groups.Keys by {
      if forall y :: y !in groups.Keys {
        assert false;
      }
    }
    var year :| year in groups.Keys;
    assert groups[year][0] in groups[year];
    var car :| car in groups[year];
    assert car in cars && car.year != answerYear;
    r := [car];
  }

  /** Whether a car's key is `k`, as one value so that filters by it can be compared. */
  function HasKey<K(==)>(key: CarMeta -> K, k: K): CarMeta -> bool {
    c => key(c) == k
  }

  /**
   * `setdefault(key, []).append(car)` over `cars`: the cars of each key, in
   * input order.
   */
  function Group<K(==)>(cars: seq<CarMeta>, key: CarMeta -> K): (r: map<K, seq<CarMeta>>)
    ensures forall k :: k in r ==> r[k] != []
  {
    if cars == [] then map[]
    else
      var g := Group(cars[..|cars| - 1], key);
      var c := cars[|cars| - 1];
      g[key(c) := Get(g, key(c), []) + [c]]
  }

  /** Every car is in the group of its key, and a group holds only cars of its key. */
  lemma {:induction false} GroupMembers<K>(cars: seq<CarMeta>, key: CarMeta -> K)
    ensures forall c :: c in cars ==> key(c) in Group(cars, key)
    ensures forall k, c :: k in Group(cars, key) && c in Group(cars, key)[k] ==> c in cars && key(c) == k
  {
    if cars != [] {
      var init, last := cars[..|cars| - 1], cars[|cars| - 1];
      var g := Group(init, key);
      GroupMembers(init, key);
      assert cars == init + [last];
      forall k, c | k in Group(cars, key) && c in Group(cars, key)[k] ensures c in cars && key(c) == k {
        if k == key(last) {
          assert c in Get(g, k, []) + [last];
          if c != last {
            assert k in g;
          }
        } else {
          assert Group(cars, key)[k] == g[k];
        }
      }
    }
  }

  /** The group of one key holds cars of that key only. */
  lemma GroupOf<K>(cars: seq<CarMeta>, key: CarMeta -> K, k: K)
    ensures forall c :: c in Get(Group(cars, key), k, []) ==> c in cars && key(c) == k
  {
    GroupMembers(cars, key);
  }

  /** Each group is the filter of the input by its key, so it keeps the input order. */
  lemma {:induction false} GroupIsFilter<K>(cars: seq<CarMeta>, key: CarMeta -> K, k: K)
    ensures Get(Group(cars, key), k, []) == Ordered.Filter(cars, HasKey(key, k))
  {
    if cars != [] {
      GroupIsFilter(cars[..|cars| - 1], key, k);
    }
  }

  /** The generator's state: the cars with distinct labels, grouped by make and by make and model. */
  datatype Generator = Generator(cars: seq<CarMeta>, byMake: map<string, seq<CarMeta>>,
                                 byModel: map<(string, string), seq<CarMeta>>)

  /** The groups are those of the generator's cars. */
  predicate Grouped(g: Generator) {
    g.byMake == Group(g.cars, MakeOf) && g.byModel == Group(g.cars, ModelOf)
  }

  /**
   * `QuestionGenerator.__init__`: at least ten inputs, the first car of each
   * label kept in input order, at least ten of those, then the grouping.
   */
  method NewGenerator(input: seq<CarMeta>) returns (r: Result<Generator, string>)
    ensures |input| < MinCars ==> r == Err(TooFewImagesMessage)
    ensures |input| >= MinCars && |Ordered.FirstPerKey(input, DisplayLabel)| < MinCars ==> r == Err(TooFewUniqueMessage)
    ensures r.Ok? <==> |Ordered.FirstPerKey(input, DisplayLabel)| >= MinCars && |input| >= MinCars
    ensures r.Ok? ==> r.value.cars == Ordered.FirstPerKey(input, DisplayLabel) && Grouped(r.value)
  {
    if |input| < MinCars {
      return Err(TooFewImagesMessage);
    }
    var cars := Ordered.KeepFirstPerKey(input, DisplayLabel);
    if |cars| < MinCars {
      return Err(TooFewUniqueMessage);
    }
    var byMake, byModel := GroupCars(cars);
    return Ok(Generator(cars, byMake, byModel));
  }

  /** The grouping loop: each car appended to its make's and its model's list. */
  method GroupCars(cars: seq<CarMeta>)
    returns (byMake: map<string, seq<CarMeta>>, byModel: map<(string, string), seq<CarMeta>>)
    ensures byMake == Group(cars, MakeOf) && byModel == Group(cars, ModelOf)
  {
    byMake, byModel := map[], map[];
    for i := 0 to |cars|
      invariant byMake == Group(cars[..i], MakeOf)
      invariant byModel == Group(cars[..i], ModelOf)
    {
      var car := cars[i];
      assert cars[..i + 1][..i] == cars[..i];
      byMake := byMake[car.make := Get(byMake, car.make, []) + [car]];
      byModel := byModel[(car.make, car.model) := Get(byModel, (car.make, car.model), []) + [car]];
    }
    assert cars[..|cars|] == cars;
  }

  /** The generator's cars have distinct labels and cover every label of the input. */
  lemma GeneratorCars(input: seq<CarMeta>)
    ensures DistinctLabels(Ordered.FirstPerKey(input, DisplayLabel))
    ensures Ordered.Keys(Ordered.FirstPerKey(input, DisplayLabel), DisplayLabel) == Ordered.Keys(input, DisplayLabel)
    ensures Ordered.IsSubseq(Ordered.FirstPerKey(input, DisplayLabel), input)
  {
    Ordered.FirstPerKeyDistinct(input, DisplayLabel);
    Ordered.FirstPerKeyKeys(input, DisplayLabel);
    Ordered.FirstPerKeySubseq(input, DisplayLabel);
  }

  /**
   * A well-formed question over `cars`: `choiceCount` choices with distinct
   * labels, among them the answer; every other choice is a car of `cars`
   * with an id other than the answer's.
   */
  predicate IsQuestion(cars: seq<CarMeta>, q: Question, choiceCount: int) {
    && |q.choices| == choiceCount
    && q.car in q.choices
    && DistinctLabels(q.choices)
    && forall k :: 0 <= k < |q.choices| ==>
         q.choices[k] == q.car || (q.choices[k] in cars && q.choices[k].id != q.car.id)
  }

  /** In a well-formed question `correct_index` succeeds and points at the answer. */
  lemma QuestionCorrectIndex(cars: seq<CarMeta>, q: Question, choiceCount: int)
    requires IsQuestion(cars, q, choiceCount)
    ensures CorrectIndex(q).Ok? && q.choices[CorrectIndex(q).value] == q.car
  {
    var k :| 0 <= k < |q.choices| && q.choices[k] == q.car;
  }

  /** Every car's id determines its label, as when ids are file stems. */
  predicate IdsDetermineLabels(cars: seq<CarMeta>) {
    forall a, b :: a in cars && b in cars && a.id == b.id ==> DisplayLabel(a) == DisplayLabel(b)
  }

  /** When ids determine labels, the choices of a question also have distinct ids. */
  lemma QuestionDistinctIds(cars: seq<CarMeta>, q: Question, choiceCount: int)
    requires IsQuestion(cars, q, choiceCount) && IdsDetermineLabels(cars)
    ensures forall i, j :: 0 <= i < j < |q.choices| ==> q.choices[i].id != q.choices[j].id
  {
    forall i, j | 0 <= i < j < |q.choices| ensures q.choices[i].id != q.choices[j].id {
      assert DisplayLabel(q.choices[i]) != DisplayLabel(q.choices[j]);
    }
  }

  /** A pool from which every car is one of `cars`. */
  predicate Within(pool: seq<CarMeta>, cars: seq<CarMeta>) {
    forall c :: c in pool ==> c in cars
  }

  /** Two rounds of picking add up to one: the second round avoids what the first used. */
  lemma FreshChoicesAppend(a: seq<CarMeta>, b: seq<CarMeta>, pool: seq<CarMeta>, cars: seq<CarMeta>,
                           usedIds: set<string>, usedLabels: set<string>)
    requires FreshChoices(a, cars, usedIds, usedLabels)
    requires FreshChoices(b, pool, usedIds + Ids(a), usedLabels + Labels(a))
    requires Within(pool, cars)
    ensures FreshChoices(a + b, cars, usedIds, usedLabels)
    ensures Ids(a + b) == Ids(a) + Ids(b) && Labels(a + b) == Labels(a) + Labels(b)
  {
    var r := a + b;
    forall i, j | 0 <= i < j < |r| ensures DisplayLabel(r[i]) != DisplayLabel(r[j]) {
      if j < |a| {
        assert r[i] == a[i] && r[j] == a[j];
      } else if i >= |a| {
        assert r[i] == b[i - |a|] && r[j] == b[j - |a|];
      } else {
        assert r[i] == a[i] && r[j] == b[j - |a|];
        InLabels(a, i);
      }
    }
    forall k | 0 <= k < |r|
      ensures r[k] in cars && r[k].id !in usedIds && DisplayLabel(r[k]) !in usedLabels
    {
      if k >= |a| {
        assert r[k] == b[k - |a|];
      }
    }
    SetsAppend(a, b);
  }

  /** The distractor pools of `make_question`, each drawn from the generator's cars. */
  method DistractorPools(g: Generator, answer: CarMeta)
    returns (sameModel: seq<CarMeta>, sameMake: seq<CarMeta>, others: seq<CarMeta>)
    requires Grouped(g)
    ensures Within(sameModel, g.cars) && Within(sameMake, g.cars) && Within(others, g.cars)
    ensures |sameModel| <= 1
    ensures forall c :: c in sameModel ==>
      c.make == answer.make && c.model == answer.model && c.id != answer.id && c.year != answer.year
    ensures forall c :: c in sameMake ==> c.make == answer.make && c.model != answer.model && c.id != answer.id
    ensures others == Ordered.Filter(g.cars, (c: CarMeta) => c.make != answer.make)
  {
    GroupOf(g.cars, MakeOf, answer.make);
    GroupOf(g.cars, ModelOf, ModelOf(answer));
    var sameModelAll := Ordered.Filter(Get(g.byModel, ModelOf(answer), []), (c: CarMeta) => c.id != answer.id);
    sameModel := LimitYearVariation(sameModelAll, answer.year);
    sameMake := Ordered.Filter(Get(g.byMake, answer.make, []),
                               (c: CarMeta) => c.id != answer.id && c.model != answer.model);
    others := Ordered.Filter(g.cars, (c: CarMeta) => c.make != answer.make);
  }

  /**
   * `make_question`: the distractors are picked from the same model (one
   * other year at most, up to 3), the same make (up to 3), the other makes,
   * and, when still short, from all cars; the first `choiceCount - 1` of them
   * and the answer are shuffled into the choices.
   */
  method MakeQuestion(g: Generator, answer: CarMeta, choiceCount: int) returns (r: Result<Question, string>)
    requires Grouped(g)
    ensures choiceCount < 2 ==> r == Err(ChoiceCountMessage)
    ensures r.Ok? ==> r.value.car == answer && IsQuestion(g.cars, r.value, choiceCount)
    ensures r.Err? && choiceCount >= 2 ==>
      && r.error == NotEnoughDistractorsMessage
      && exists sel :: Exhausted(g.cars, answer, sel) && |sel| < choiceCount - 1
  {
    if choiceCount < 2 {
      return Err(ChoiceCountMessage);
    }
    var selections := SelectDistractors(g, answer, choiceCount);
    if |selections| < choiceCount - 1 {
      return Err(NotEnoughDistractorsMessage);
    }
    var options := selections[..choiceCount - 1] + [answer];
    ChoicesOfQuestion(g.cars, selections, choiceCount, answer, options);
    var choices := Shuffle(options);
    r := Ok(Question(answer, choices));
  }

  /**
   * Distractors `sel` for `answer` that use up `cars`: they are fresh, and
   * every car of `cars` shares an id or a label with the answer or one of them.
   */
  predicate Exhausted(cars: seq<CarMeta>, answer: CarMeta, sel: seq<CarMeta>) {
    && FreshChoices(sel, cars, {answer.id}, {DisplayLabel(answer)})
    && forall c :: c in cars ==>
         c.id in {answer.id} + Ids(sel) || DisplayLabel(c) in {DisplayLabel(answer)} + Labels(sel)
  }

  /**
   * The distractor selection of `make_question`: the three quota rounds,
   * then the fallback round over all cars when fewer than `choiceCount - 1`
   * were found.
   */
  method SelectDistractors(g: Generator, answer: CarMeta, choiceCount: int) returns (selections: seq<CarMeta>)
    requires Grouped(g)
    ensures FreshChoices(selections, g.cars, {answer.id}, {DisplayLabel(answer)})
    ensures |selections| < choiceCount - 1 ==> Exhausted(g.cars, answer, selections)
  {
    var usedIds, usedLabels;
    selections, usedIds, usedLabels := QuotaRounds(g, answer, choiceCount);
    if |selections| < choiceCount - 1 {
      var added;
      added, usedIds, usedLabels := ExtendWithPool(g.cars, choiceCount - 1, usedIds, usedLabels);
      FreshChoicesAppend(selections, added, g.cars, g.cars, {answer.id}, {DisplayLabel(answer)});
      selections := selections + added;
    }
  }

  /** The loop over `quotas`, stopping once `choiceCount - 1` distractors were found. */
  method QuotaRounds(g: Generator, answer: CarMeta, choiceCount: int)
    returns (selections: seq<CarMeta>, usedIds: set<string>, usedLabels: set<string>)
    requires Grouped(g)
    ensures FreshChoices(selections, g.cars, {answer.id}, {DisplayLabel(answer)})
    ensures usedIds == {answer.id} + Ids(selections)
    ensures usedLabels == {DisplayLabel(answer)} + Labels(selections)
  {
    var sameModel, sameMake, others := DistractorPools(g, answer);
    selections, usedIds, usedLabels := [], {answer.id}, {DisplayLabel(answer)};
    var quotas := [(sameModel, SameModelQuota as int), (sameMake, SameMakeQuota as int), (others, choiceCount)];
    assert forall q :: q in quotas ==> Within(q.0, g.cars);
    var j := 0;
    while j < |quotas|
      invariant 0 <= j <= |quotas|
      invariant FreshChoices(selections, g.cars, {answer.id}, {DisplayLabel(answer)})
      invariant usedIds == {answer.id} + Ids(selections)
      invariant usedLabels == {DisplayLabel(answer)} + Labels(selections)
    {
      assert quotas[j] in quotas;
      selections, usedIds, usedLabels := TakeQuota(g.cars, answer, selections, usedIds, usedLabels, quotas[j].0, quotas[j].1);
      if |selections| >= choiceCount - 1 {
        break;
      }
      j := j + 1;
    }
  }

  /** One round of the quota loop: the picks from `pool` are appended to the choices. */
  method TakeQuota(cars: seq<CarMeta>, answer: CarMeta, selections: seq<CarMeta>,
                   usedIds: set<string>, usedLabels: set<string>, pool: seq<CarMeta>, quota: int)
    returns (selections': seq<CarMeta>, usedIds': set<string>, usedLabels': set<string>)
    requires Within(pool, cars)
    requires FreshChoices(selections, cars, {answer.id}, {DisplayLabel(answer)})
    requires usedIds == {answer.id} + Ids(selections)
    requires usedLabels == {DisplayLabel(answer)} + Labels(selections)
    ensures FreshChoices(selections', cars, {answer.id}, {DisplayLabel(answer)})
    ensures usedIds' == {answer.id} + Ids(selections')
    ensures usedLabels' == {DisplayLabel(answer)} + Labels(selections')
    ensures |selections| <= |selections'|
  {
    var added;
    added, usedIds', usedLabels' := ExtendWithPool(pool, quota, usedIds, usedLabels);
    FreshChoicesAppend(selections, added, pool, cars, {answer.id}, {DisplayLabel(answer)});
    selections' := selections + added;
  }

  lemma ChoicesOfQuestion(cars: seq<CarMeta>, selections: seq<CarMeta>, choiceCount: int,
                          answer: CarMeta, options: seq<CarMeta>)
    requires FreshChoices(selections, cars, {answer.id}, {DisplayLabel(answer)})
    requires 1 <= choiceCount && choiceCount - 1 <= |selections|
    requires options == selections[..choiceCount - 1] + [answer]
    ensures forall choices: seq<CarMeta> :: multiset(choices) == multiset(options) ==>
      IsQuestion(cars, Question(answer, choices), choiceCount)
  {
    var n := choiceCount - 1;
    forall i, j | 0 <= i < j < |options| ensures DisplayLabel(options[i]) != DisplayLabel(options[j]) {
      if j == n {
        InLabels(selections, i);
        assert DisplayLabel(selections[i]) !in {DisplayLabel(answer)};
      } else {
        assert options[i] == selections[i] && options[j] == selections[j];
      }
    }
    forall choices: seq<CarMeta> | multiset(choices) == multiset(options)
      ensures IsQuestion(cars, Question(answer, choices), choiceCount)
    {
      ShuffleKeepsDistinct(choices, options);
      assert |choices| == |multiset(choices)| == |options|;
      assert answer in multiset(options);
      forall k | 0 <= k < |choices| ensures choices[k] == answer || (choices[k] in cars && choices[k].id != answer.id) {
        assert choices[k] in multiset(options);
        var m :| 0 <= m < |options| && options[m] == choices[k];
        if m < n {
          assert options[m] == selections[m];
        }
      }
    }
  }

  /** `random.choice`: some element of a non-empty list. */
  method Choice<T(==)>(xs: seq<T>) returns (x: T)
    requires xs != []
    ensures x in xs
  {
    assert xs[0] in xs;
    x :| x in xs;
  }

  /** The answers of a list of questions. */
  function Answers(qs: seq<Question>): (r: seq<CarMeta>)
    ensures |r| == |qs|
    ensures forall k :: 0 <= k < |qs| ==> r[k] == qs[k].car
  {
    if qs == [] then [] else Answers(qs[..|qs| - 1]) + [qs[|qs| - 1].car]
  }

  /** The questions made so far: well-formed, on cars of the set, with distinct answer labels, all in `usedLabels`. */
  predicate SessionSoFar(cars: seq<CarMeta>, questions: seq<Question>, choiceCount: int, usedLabels: set<string>) {
    && (forall k :: 0 <= k < |questions| ==> questions[k].car in cars && IsQuestion(cars, questions[k], choiceCount))
    && DistinctLabels(Answers(questions))
    && usedLabels == Labels(Answers(questions))
  }

  /** A question on a car of the set with an unused label extends the session. */
  lemma SessionSnoc(cars: seq<CarMeta>, questions: seq<Question>, choiceCount: int, usedLabels: set<string>, q: Question)
    requires SessionSoFar(cars, questions, choiceCount, usedLabels)
    requires q.car in cars && IsQuestion(cars, q, choiceCount) && DisplayLabel(q.car) !in usedLabels
    ensures SessionSoFar(cars, questions + [q], choiceCount, usedLabels + {DisplayLabel(q.car)})
  {
    LabelSnoc(Answers(questions), q.car, {});
    assert Answers(questions + [q]) == Answers(questions) + [q.car] by {
      assert (questions + [q])[..|questions|] == questions;
    }
  }

  /**
   * `make_session_questions`: answers drawn at random from the shuffled
   * cars, skipping labels already asked and answers for which no question
   * can be made, for at most three attempts per car; fewer than `count`
   * questions is the not-enough-questions error.
   */
  method MakeSessionQuestions(g: Generator, count: int, choiceCount: int)
    returns (r: Result<seq<Question>, string>, attempted: nat)
    requires Grouped(g)
    ensures attempted <= 3 * |g.cars|
    ensures r.Err? ==> r.error == NotEnoughQuestionsMessage
    ensures count > |g.cars| ==> r.Err?
    ensures count > 0 && choiceCount < 2 ==> r.Err?
    ensures count <= 0 ==> r == Ok([])
    ensures r.Ok? && count >= 0 ==> |r.value| == count
    ensures r.Ok? ==> forall k :: 0 <= k < |r.value| ==>
      r.value[k].car in g.cars && IsQuestion(g.cars, r.value[k], choiceCount)
    ensures r.Ok? ==> DistinctLabels(Answers(r.value))
  {
    var pool := Shuffle(g.cars);
    var questions: seq<Question> := [];
    var usedLabels: set<string> := {};
    attempted := 0;
    var maxAttempts := |pool| * 3;
    var goal := if count < |g.cars| then count else |g.cars|;
    assert |pool| == |multiset(pool)| == |g.cars|;
    while |questions| < goal && attempted < maxAttempts
      invariant attempted <= maxAttempts
      invariant |questions| <= (if goal < 0 then 0 else goal)
      invariant choiceCount < 2 ==> questions == []
      invariant SessionSoFar(g.cars, questions, choiceCount, usedLabels)
      decreases maxAttempts - attempted
    {
      attempted := attempted + 1;
      var candidate := Choice(pool);
      if DisplayLabel(candidate) in usedLabels {
        continue;
      }
      var q := MakeQuestion(g, candidate, choiceCount);
      if q.Err? {
        continue;
      }
      assert candidate in multiset(g.cars);
      SessionSnoc(g.cars, questions, choiceCount, usedLabels, q.value);
      questions := questions + [q.value];
      usedLabels := usedLabels + {DisplayLabel(candidate)};
    }
    if |questions| < count {
      return Err(NotEnoughQuestionsMessage), attempted;
    }
    r := Ok(questions);
  }
}
