/**
 * The query layer of the catalog: the loaded lists and the lookups, filters
 * and random sampling the service runs over them. The catalog is a value, so
 * no query can change the lists it reads.
 */
module DataLoader {
  import opened Wrappers
  import opened Models
  import opened Text

  /**
   * The four lists held after loading, in load order; the getters
   * (get_all_exercises, get_all_muscles, ...) are this datatype's fields.
   */
  datatype Catalog = Catalog(
    exercises: seq<Exercise>,
    muscles: seq<Muscle>,
    bodyParts: seq<BodyPart>,
    equipments: seq<Equipment>)

  /** `a` keeps the elements of `b` in their order, possibly dropping some. */
  predicate IsSubsequence<T(==)>(a: seq<T>, b: seq<T>)
    decreases |b|
  {
    a == [] || (b != [] && ((a[0] == b[0] && IsSubsequence(a[1..], b[1..])) || IsSubsequence(a, b[1..])))
  }

  lemma {:induction false} SubsequenceOfItself<T>(s: seq<T>)
    ensures IsSubsequence(s, s)
    decreases |s|
  {
    if s != [] {
      SubsequenceOfItself(s[1..]);
    }
  }

  /** Some entry of `names`, lower-cased, contains the already lower-cased term. */
  predicate AnyContains(names: seq<string>, termLower: string) {
    exists i :: 0 <= i < |names| && Contains(Lower(names[i]), termLower)
  }

  /** What a filter tests, with its term already lower-cased. */
  datatype Criterion =
    | NameHas(term: string)
    | MuscleHas(term: string)
    | BodyPartHas(term: string)
    | EquipmentHas(term: string)

  /** The condition of each filter's comprehension; each consults only its own fields. */
  predicate Matches(e: Exercise, c: Criterion) {
    match c
    case NameHas(t) => Contains(Lower(e.name), t)
    case MuscleHas(t) => AnyContains(e.targetMuscles, t) || AnyContains(e.secondaryMuscles, t)
    case BodyPartHas(t) => AnyContains(e.bodyParts, t)
    case EquipmentHas(t) => AnyContains(e.equipments, t)
  }

  /** The comprehension `[e for e in exercises if <c holds of e>]`. */
  function Select(exs: seq<Exercise>, c: Criterion): (r: seq<Exercise>)
    ensures |r| <= |exs|
    ensures forall i :: 0 <= i < |r| ==> r[i] in exs && Matches(r[i], c)
  {
    if exs == [] then []
    else if Matches(exs[0], c) then [exs[0]] + Select(exs[1..], c)
    else Select(exs[1..], c)
  }

  /**
   * Select keeps exactly the matching exercises, in their original order,
   * each as often as it occurs in the list.
   */
  lemma {:induction false} SelectSpec(exs: seq<Exercise>, c: Criterion)
    ensures forall e :: e in Select(exs, c) <==> e in exs && Matches(e, c)
    ensures forall e :: multiset(Select(exs, c))[e] == if Matches(e, c) then multiset(exs)[e] else 0
    ensures IsSubsequence(Select(exs, c), exs)
  {
    if exs != [] {
      SelectSpec(exs[1..], c);
      assert exs == [exs[0]] + exs[1..];
      var r := Select(exs, c);
      if Matches(exs[0], c) {
        assert r == [exs[0]] + Select(exs[1..], c);
        assert r[1..] == Select(exs[1..], c);
      }
    }
  }

  /** Selecting from a concatenation selects from each part in turn, so order is kept. */
  lemma {:induction false} SelectConcat(a: seq<Exercise>, b: seq<Exercise>, c: Criterion)
    ensures Select(a + b, c) == Select(a, c) + Select(b, c)
  {
    if a != [] {
      var ab := a + b;
      assert ab[0] == a[0] && ab[1..] == a[1..] + b;
      SelectConcat(a[1..], b, c);
      var h := if Matches(a[0], c) then [a[0]] else [];
      assert Select(ab, c) == h + Select(a[1..] + b, c);
      assert Select(a, c) == h + Select(a[1..], c);
      assert h + (Select(a[1..], c) + Select(b, c)) == (h + Select(a[1..], c)) + Select(b, c);
    } else {
      assert a + b == b;
    }
  }

  /** When every exercise matches, Select returns the whole list unchanged. */
  lemma {:induction false} SelectAll(exs: seq<Exercise>, c: Criterion)
    requires forall i :: 0 <= i < |exs| ==> Matches(exs[i], c)
    ensures Select(exs, c) == exs
  {
    if exs != [] {
      SelectAll(exs[1..], c);
    }
  }

  /** search_exercises_by_name: exercises whose lower-cased name contains the lower-cased query. */
  function SearchExercisesByName(cat: Catalog, query: string): (r: seq<Exercise>)
    ensures forall e :: e in r <==> e in cat.exercises && Contains(Lower(e.name), Lower(query))
    ensures forall e ::
      multiset(r)[e] == (if Contains(Lower(e.name), Lower(query))
      then multiset(cat.exercises)[e] else 0)
    ensures IsSubsequence(r, cat.exercises)
  {
    SelectSpec(cat.exercises, NameHas(Lower(query)));
    Select(cat.exercises, NameHas(Lower(query)))
  }

  /** get_exercises_by_muscle: the term occurs in some target muscle or some secondary muscle. */
  function GetExercisesByMuscle(cat: Catalog, muscle: string): (r: seq<Exercise>)
    ensures forall e :: e in r <==> (e in cat.exercises &&
      ((exists i :: 0 <= i < |e.targetMuscles| && Contains(Lower(e.targetMuscles[i]), Lower(muscle))) ||
       (exists i :: 0 <= i < |e.secondaryMuscles| && Contains(Lower(e.secondaryMuscles[i]), Lower(muscle)))))
    ensures forall e ::
      multiset(r)[e] == (if (exists i :: 0 <= i < |e.targetMuscles| && Contains(Lower(e.targetMuscles[i]), Lower(muscle))) ||
         (exists i :: 0 <= i < |e.secondaryMuscles| && Contains(Lower(e.secondaryMuscles[i]), Lower(muscle)))
      then multiset(cat.exercises)[e] else 0)
    ensures IsSubsequence(r, cat.exercises)
  {
    SelectSpec(cat.exercises, MuscleHas(Lower(muscle)));
    Select(cat.exercises, MuscleHas(Lower(muscle)))
  }

  /** get_exercises_by_body_part: the term occurs in some body part. */
  function GetExercisesByBodyPart(cat: Catalog, bodyPart: string): (r: seq<Exercise>)
    ensures forall e :: e in r <==> (e in cat.exercises &&
      exists i :: 0 <= i < |e.bodyParts| && Contains(Lower(e.bodyParts[i]), Lower(bodyPart)))
    ensures forall e ::
      multiset(r)[e] == (if exists i :: 0 <= i < |e.bodyParts| && Contains(Lower(e.bodyParts[i]), Lower(bodyPart))
      then multiset(cat.exercises)[e] else 0)
    ensures IsSubsequence(r, cat.exercises)
  {
    SelectSpec(cat.exercises, BodyPartHas(Lower(bodyPart)));
    Select(cat.exercises, BodyPartHas(Lower(bodyPart)))
  }

  /** get_exercises_by_equipment: the term occurs in some equipment entry. */
  function GetExercisesByEquipment(cat: Catalog, equipment: string): (r: seq<Exercise>)
    ensures forall e :: e in r <==> (e in cat.exercises &&
      exists i :: 0 <= i < |e.equipments| && Contains(Lower(e.equipments[i]), Lower(equipment)))
    ensures forall e ::
      multiset(r)[e] == (if exists i :: 0 <= i < |e.equipments| && Contains(Lower(e.equipments[i]), Lower(equipment))
      then multiset(cat.exercises)[e] else 0)
    ensures IsSubsequence(r, cat.exercises)
  {
    SelectSpec(cat.exercises, EquipmentHas(Lower(equipment)));
    Select(cat.exercises, EquipmentHas(Lower(equipment)))
  }

  /** The empty query is contained in every name, so it returns the whole catalog in load order. */
  lemma EmptySearchReturnsAll(cat: Catalog)
    ensures SearchExercisesByName(cat, "") == cat.exercises
  {
    forall i | 0 <= i < |cat.exercises| ensures Matches(cat.exercises[i], NameHas(Lower(""))) {
      ContainsBasics(Lower(cat.exercises[i].name), []);
    }
    SelectAll(cat.exercises, NameHas(Lower("")));
  }

  /** Every exercise is found by each of its own target or secondary muscles, body parts and equipments. */
  lemma ExerciseFoundByOwnTags(cat: Catalog, e: Exercise, tag: string)
    requires e in cat.exercises
    ensures tag in e.targetMuscles || tag in e.secondaryMuscles ==> e in GetExercisesByMuscle(cat, tag)
    ensures tag in e.bodyParts ==> e in GetExercisesByBodyPart(cat, tag)
    ensures tag in e.equipments ==> e in GetExercisesByEquipment(cat, tag)
  {
    ContainsBasics(Lower(tag), []);
    ExerciseFoundIn(e.targetMuscles, tag);
    ExerciseFoundIn(e.secondaryMuscles, tag);
    ExerciseFoundIn(e.bodyParts, tag);
    ExerciseFoundIn(e.equipments, tag);
  }

  lemma ExerciseFoundIn(names: seq<string>, tag: string)
    ensures tag in names ==> AnyContains(names, Lower(tag))
  {
    if tag in names {
      var i :| 0 <= i < |names| && names[i] == tag;
      ContainsBasics(Lower(tag), []);
      assert Contains(Lower(names[i]), Lower(tag));
    }
  }

  /** The filters are case-insensitive: two terms that fold alike give identical results. */
  lemma FiltersIgnoreCase(cat: Catalog, a: string, b: string)
    requires Lower(a) == Lower(b)
    ensures SearchExercisesByName(cat, a) == SearchExercisesByName(cat, b)
    ensures GetExercisesByMuscle(cat, a) == GetExercisesByMuscle(cat, b)
    ensures GetExercisesByBodyPart(cat, a) == GetExercisesByBodyPart(cat, b)
    ensures GetExercisesByEquipment(cat, a) == GetExercisesByEquipment(cat, b)
  {
  }

  /** Each filter reads only its own fields: exercises that agree on them are kept or dropped alike. */
  lemma FiltersReadOnlyTheirFields(e: Exercise, e': Exercise, t: string)
    ensures e.name == e'.name ==> (Matches(e, NameHas(t)) <==> Matches(e', NameHas(t)))
    ensures e.targetMuscles == e'.targetMuscles && e.secondaryMuscles == e'.secondaryMuscles ==>
      (Matches(e, MuscleHas(t)) <==> Matches(e', MuscleHas(t)))
    ensures e.bodyParts == e'.bodyParts ==> (Matches(e, BodyPartHas(t)) <==> Matches(e', BodyPartHas(t)))
    ensures e.equipments == e'.equipments ==> (Matches(e, EquipmentHas(t)) <==> Matches(e', EquipmentHas(t)))
  {
  }

  /**
   * get_exercise_by_id: scans the exercises in order and returns the first
   * one whose id equals the argument, or None when there is none.
   */
  method GetExerciseById(cat: Catalog, exerciseId: string) returns (r: Option<Exercise>)
    ensures r.None? <==> forall i :: 0 <= i < |cat.exercises| ==> cat.exercises[i].exerciseId != exerciseId
    ensures r.Some? ==> exists i :: (0 <= i < |cat.exercises| && cat.exercises[i] == r.value &&
      r.value.exerciseId == exerciseId &&
      forall j :: 0 <= j < i ==> cat.exercises[j].exerciseId != exerciseId)
  {
    for i := 0 to |cat.exercises|
      invariant forall j :: 0 <= j < i ==> cat.exercises[j].exerciseId != exerciseId
    {
      if cat.exercises[i].exerciseId == exerciseId {
        return Some(cat.exercises[i]);
      }
    }
    return None;
  }

  /** Elements of `s` are pairwise different. */
  predicate Distinct<T(==)>(s: seq<T>) {
    forall i, j :: 0 <= i < j < |s| ==> s[i] != s[j]
  }

  /**
   * get_random_exercises: the whole list when count reaches its length;
   * otherwise random.sample, which draws `count` positions without
   * replacement from a shrinking pool. The draw is a nondeterministic choice
   * here, and `picks` records the positions drawn.
   */
  method GetRandomExercises(cat: Catalog, count: int) returns (r: seq<Exercise>, ghost picks: seq<nat>)
    requires count >= 0
    ensures count >= |cat.exercises| ==> r == cat.exercises
    ensures count < |cat.exercises| ==>
      |r| == count && |picks| == count && Distinct(picks) &&
      forall k :: 0 <= k < count ==> picks[k] < |cat.exercises| && r[k] == cat.exercises[picks[k]]
  {
    var exs := cat.exercises;
    if count >= |exs| {
      return exs, [];
    }
    var pool: seq<nat> := seq(|exs|, i requires 0 <= i < |exs| => i);
    r, picks := [], [];
    while |r| < count
      invariant |r| == |picks| <= count
      invariant |pool| == |exs| - |picks|
      invariant Distinct(pool) && Distinct(picks)
      invariant forall k :: 0 <= k < |pool| ==> pool[k] < |exs| && pool[k] !in picks
      invariant forall k :: 0 <= k < |picks| ==> picks[k] < |exs| && r[k] == exs[picks[k]]
      decreases count - |r|
    {
      var j :| 0 <= j < |pool|;
      var p := pool[j];
      r, picks := r + [exs[p]], picks + [p];
      pool := pool[..j] + pool[j + 1..];
    }
  }
}
