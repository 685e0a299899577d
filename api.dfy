/**
 * The request handlers of the catalog service: the paginated listing with its
 * filter precedence, the by-id, search and by-tag routes with their
 * truncation and not-found policy.
 */
module Api {
  import opened Wrappers
  import opened Models
  import opened Text
  import DataLoader

  function Min(a: int, b: int): int { if a <= b then a else b }

  function Max(a: int, b: int): int { if a <= b then b else a }

  /** What a route answers: a value, or a 404 with its detail message. */
  datatype RouteResult<T> = Ok(value: T) | NotFound(detail: string)

  /** Truthiness of an optional query parameter: absent and the empty string both count as absent. */
  predicate Present(p: Option<string>) {
    p.Some? && p.value != ""
  }

  /** The pages needed for `total` items, `limit` per page: the ceiling of total / limit. */
  function TotalPages(total: nat, limit: int): (r: nat)
    requires limit >= 1
    ensures r * limit >= total
    ensures total > 0 ==> (r - 1) * limit < total
    ensures total == 0 ==> r == 0
  {
    var q := (total + limit - 1) / limit;
    var m := (total + limit - 1) % limit;
    assert total + limit - 1 == q * limit + m;
    assert (q - 1) * limit == q * limit - limit;
    q
  }

  /**
   * Where page `page` starts: each page begins `limit` items after the one
   * before it. The source multiplies, `(page - 1) * limit`; stating the start
   * by repeated addition keeps the slice proofs linear, and OffsetIsProduct
   * proves the two agree.
   */
  function Offset(page: int, limit: int): nat
    requires page >= 1 && limit >= 1
    decreases page
  {
    if page == 1 then 0 else Offset(page - 1, limit) + limit
  }

  /** Page `page` starts at `(page - 1) * limit`. */
  lemma {:induction false} OffsetIsProduct(page: int, limit: int)
    requires page >= 1 && limit >= 1
    ensures Offset(page, limit) == (page - 1) * limit
    decreases page
  {
    if page > 1 {
      OffsetIsProduct(page - 1, limit);
      assert (page - 1) * limit == (page - 2) * limit + limit;
    }
  }

  /** The slice `items[(page-1)*limit : page*limit]`, clamped to the list as a slice is. */
  function Page<T>(items: seq<T>, page: int, limit: int): (r: seq<T>)
    requires page >= 1 && limit >= 1
    ensures |r| == Max(0, Min(limit, |items| - Offset(page, limit)))
    ensures forall k :: 0 <= k < |r| ==> r[k] == items[Offset(page, limit) + k]
  {
    var start := Offset(page, limit);
    if start >= |items| then [] else items[start..Min(start + limit, |items|)]
  }

  /** The first `limit` items: the slice `items[:limit]`. */
  function Truncate<T>(items: seq<T>, limit: int): (r: seq<T>)
    requires limit >= 1
    ensures |r| == Min(limit, |items|)
    ensures r <= items
  {
    items[..Min(limit, |items|)]
  }

  /** Concatenating pages 1..k gives the first k*limit items (clamped). */
  function PagesUpTo<T>(items: seq<T>, limit: int, k: nat): seq<T>
    requires limit >= 1
  {
    if k == 0 then [] else PagesUpTo(items, limit, k - 1) + Page(items, k, limit)
  }

  /** A page is the slice of the list between its clamped start and end. */
  lemma PageIsSlice<T>(items: seq<T>, page: int, limit: int)
    requires page >= 1 && limit >= 1
    ensures Page(items, page, limit) ==
      items[Min(Offset(page, limit), |items|)..Min(Offset(page, limit) + limit, |items|)]
  {
    var o := Offset(page, limit);
    var a := Min(o, |items|);
    var b := Min(o + limit, |items|);
    var p := Page(items, page, limit);
    if o < |items| {
      assert |p| == b - a;
      forall i | 0 <= i < |p| ensures p[i] == items[a..b][i] { }
      assert p == items[a..b];
    } else {
      assert a == b;
    }
  }

  /** The pages split the list: pages 1..k together are its first min(k*limit, total) items, in order. */
  lemma {:induction false} PagesUpToIsPrefix<T>(items: seq<T>, limit: int, k: nat)
    requires limit >= 1
    ensures PagesUpTo(items, limit, k) == items[..Min(Offset(k + 1, limit), |items|)]
  {
    if k > 0 {
      PagesUpToIsPrefix(items, limit, k - 1);
      PageIsSlice(items, k, limit);
      var a := Min(Offset(k, limit), |items|);
      var b := Min(Offset(k + 1, limit), |items|);
      assert items[..a] + items[a..b] == items[..b];
    }
  }

  lemma {:induction false} OffsetMonotonic(p: int, q: int, limit: int)
    requires 1 <= q <= p && limit >= 1
    ensures Offset(q, limit) <= Offset(p, limit)
    decreases p
  {
    if p > q {
      OffsetMonotonic(p - 1, q, limit);
    }
  }

  /** The page after the last one starts at or past the end of the list. */
  lemma PastLastPage(total: nat, limit: int)
    requires limit >= 1
    ensures Offset(TotalPages(total, limit) + 1, limit) >= total
  {
    OffsetIsProduct(TotalPages(total, limit) + 1, limit);
  }

  /** Pages 1..total_pages together are the whole list, and every page after them is empty. */
  lemma PagesCoverTheList<T>(items: seq<T>, limit: int, page: int)
    requires limit >= 1 && page >= 1
    ensures PagesUpTo(items, limit, TotalPages(|items|, limit)) == items
    ensures page > TotalPages(|items|, limit) ==> Page(items, page, limit) == []
  {
    var n := TotalPages(|items|, limit);
    PagesUpToIsPrefix(items, limit, n);
    PastLastPage(|items|, limit);
    assert Min(Offset(n + 1, limit), |items|) == |items|;
    if page > n {
      OffsetMonotonic(page, n + 1, limit);
      assert |Page(items, page, limit)| == 0;
    }
  }

  /**
   * The list the listing route paginates: the search result when `search` is
   * present, else the muscle filter, else the body-part filter, else the
   * equipment filter, else the whole catalog.
   */
  function ChooseExercises(cat: DataLoader.Catalog, muscle: Option<string>, bodypart: Option<string>,
                           equipment: Option<string>, search: Option<string>): (r: seq<Exercise>)
    ensures DataLoader.IsSubsequence(r, cat.exercises)
  {
    if Present(search) then DataLoader.SearchExercisesByName(cat, search.value)
    else if Present(muscle) then DataLoader.GetExercisesByMuscle(cat, muscle.value)
    else if Present(bodypart) then DataLoader.GetExercisesByBodyPart(cat, bodypart.value)
    else if Present(equipment) then DataLoader.GetExercisesByEquipment(cat, equipment.value)
    else (DataLoader.SubsequenceOfItself(cat.exercises); cat.exercises)
  }

  /** What the chosen list holds, filter by filter in order of precedence. */
  lemma ChooseExercisesSpec(cat: DataLoader.Catalog, muscle: Option<string>, bodypart: Option<string>,
                            equipment: Option<string>, search: Option<string>)
    ensures var r := ChooseExercises(cat, muscle, bodypart, equipment, search);
      Present(search) ==>
      forall e :: e in r <==> (e in cat.exercises && Contains(Lower(e.name), Lower(search.value)))
    ensures var r := ChooseExercises(cat, muscle, bodypart, equipment, search);
      !Present(search) && Present(muscle) ==>
      forall e :: e in r <==> (e in cat.exercises &&
        (DataLoader.AnyContains(e.targetMuscles, Lower(muscle.value)) ||
         DataLoader.AnyContains(e.secondaryMuscles, Lower(muscle.value))))
    ensures var r := ChooseExercises(cat, muscle, bodypart, equipment, search);
      !Present(search) && !Present(muscle) && Present(bodypart) ==>
      forall e :: e in r <==> (e in cat.exercises && DataLoader.AnyContains(e.bodyParts, Lower(bodypart.value)))
    ensures var r := ChooseExercises(cat, muscle, bodypart, equipment, search);
      !Present(search) && !Present(muscle) && !Present(bodypart) && Present(equipment) ==>
      forall e :: e in r <==> (e in cat.exercises && DataLoader.AnyContains(e.equipments, Lower(equipment.value)))
    ensures !Present(search) && !Present(muscle) && !Present(bodypart) && !Present(equipment) ==>
      ChooseExercises(cat, muscle, bodypart, equipment, search) == cat.exercises
  {
  }

  /**
   * Only the highest-priority present filter matters: an empty string is the
   * same as an absent parameter, and once a filter is present the ones below
   * it are ignored.
   */
  lemma FilterPrecedence(cat: DataLoader.Catalog, m: Option<string>, b: Option<string>, q: Option<string>,
                         s: Option<string>, m': Option<string>, b': Option<string>, q': Option<string>)
    ensures ChooseExercises(cat, m, b, q, Some("")) == ChooseExercises(cat, m, b, q, None)
    ensures ChooseExercises(cat, Some(""), b, q, s) == ChooseExercises(cat, None, b, q, s)
    ensures ChooseExercises(cat, m, Some(""), q, s) == ChooseExercises(cat, m, None, q, s)
    ensures ChooseExercises(cat, m, b, Some(""), s) == ChooseExercises(cat, m, b, None, s)
    ensures Present(s) ==> ChooseExercises(cat, m, b, q, s) == ChooseExercises(cat, m', b', q', s)
    ensures Present(m) ==> ChooseExercises(cat, m, b, q, None) == ChooseExercises(cat, m, b', q', None)
    ensures Present(b) ==> ChooseExercises(cat, None, b, q, None) == ChooseExercises(cat, None, b, q', None)
  {
  }

  /**
   * get_exercises: choose the list by filter precedence, then report its
   * length, the page count and the requested page of it.
   */
  function GetExercises(cat: DataLoader.Catalog, page: int, limit: int, muscle: Option<string>,
                        bodypart: Option<string>, equipment: Option<string>, search: Option<string>)
    : (r: ExerciseResponse)
    requires page >= 1 && 1 <= limit <= 100
    ensures r.page == page && r.limit == limit
    ensures r.total == |ChooseExercises(cat, muscle, bodypart, equipment, search)|
    ensures r.totalPages * limit >= r.total
    ensures r.total > 0 ==> (r.totalPages - 1) * limit < r.total
    ensures r.total == 0 ==> r.totalPages == 0
    ensures r.exercises == Page(ChooseExercises(cat, muscle, bodypart, equipment, search), page, limit)
  {
    var exercises := ChooseExercises(cat, muscle, bodypart, equipment, search);
    ExerciseResponse(Page(exercises, page, limit), |exercises|, page, limit, TotalPages(|exercises|, limit))
  }

  /** Over 45 results, 20 per page: 3 pages, the second holding items 20..39 and the third the last 5. */
  lemma PaginationExample(cat: DataLoader.Catalog, s: Option<string>)
    requires |ChooseExercises(cat, None, None, None, s)| == 45
    ensures GetExercises(cat, 2, 20, None, None, None, s).totalPages == 3
    ensures GetExercises(cat, 2, 20, None, None, None, s).exercises == ChooseExercises(cat, None, None, None, s)[20..40]
    ensures GetExercises(cat, 3, 20, None, None, None, s).exercises == ChooseExercises(cat, None, None, None, s)[40..]
  {
    var all := ChooseExercises(cat, None, None, None, s);
    PageIsSlice(all, 2, 20);
    PageIsSlice(all, 3, 20);
  }

  /** get_exercise_by_id (route): the exercise with that id, or a 404 naming it. */
  method GetExerciseByIdRoute(cat: DataLoader.Catalog, exerciseId: string) returns (r: RouteResult<Exercise>)
    ensures r.NotFound? <==> forall i :: 0 <= i < |cat.exercises| ==> cat.exercises[i].exerciseId != exerciseId
    ensures r.NotFound? ==> r.detail == "Exercise with ID '" + exerciseId + "' not found"
    ensures r.Ok? ==> exists i :: (0 <= i < |cat.exercises| && cat.exercises[i] == r.value &&
      r.value.exerciseId == exerciseId &&
      forall j :: 0 <= j < i ==> cat.exercises[j].exerciseId != exerciseId)
  {
    var exercise := DataLoader.GetExerciseById(cat, exerciseId);
    if exercise.None? {
      return NotFound("Exercise with ID '" + exerciseId + "' not found");
    }
    return Ok(exercise.value);
  }

  /** search_exercises: the first `limit` name matches; never a 404, even with no match. */
  function SearchExercises(cat: DataLoader.Catalog, query: string, limit: int): (r: RouteResult<seq<Exercise>>)
    requires 1 <= limit <= 100
    ensures r.Ok?
    ensures |r.value| == Min(limit, |DataLoader.SearchExercisesByName(cat, query)|)
    ensures r.value <= DataLoader.SearchExercisesByName(cat, query)
  {
    Ok(Truncate(DataLoader.SearchExercisesByName(cat, query), limit))
  }

  /** The shared shape of the three by-tag routes: 404 exactly when the filter found nothing. */
  function FoundOrNotFound(exercises: seq<Exercise>, limit: int, detail: string): (r: RouteResult<seq<Exercise>>)
    requires 1 <= limit <= 100
    ensures r.NotFound? <==> exercises == []
    ensures r.NotFound? ==> r.detail == detail
    ensures r.Ok? ==> 1 <= |r.value| == Min(limit, |exercises|) && r.value <= exercises
  {
    if exercises == [] then NotFound(detail) else Ok(Truncate(exercises, limit))
  }

  /** get_exercises_by_muscle (route). */
  function GetExercisesByMuscle(cat: DataLoader.Catalog, muscle: string, limit: int): (r: RouteResult<seq<Exercise>>)
    requires 1 <= limit <= 100
    ensures r.NotFound? <==> forall e :: e in cat.exercises ==>
      !DataLoader.AnyContains(e.targetMuscles, Lower(muscle)) && !DataLoader.AnyContains(e.secondaryMuscles, Lower(muscle))
    ensures r.NotFound? ==> r.detail == "No exercises found for muscle '" + muscle + "'"
    ensures r.Ok? ==> (|r.value| == Min(limit, |DataLoader.GetExercisesByMuscle(cat, muscle)|) &&
      r.value <= DataLoader.GetExercisesByMuscle(cat, muscle))
  {
    var found := DataLoader.GetExercisesByMuscle(cat, muscle);
    assert found != [] ==> found[0] in found;
    FoundOrNotFound(found, limit, "No exercises found for muscle '" + muscle + "'")
  }

  /** get_exercises_by_bodypart (route). */
  function GetExercisesByBodypart(cat: DataLoader.Catalog, bodypart: string, limit: int): (r: RouteResult<seq<Exercise>>)
    requires 1 <= limit <= 100
    ensures r.NotFound? <==> forall e :: e in cat.exercises ==> !DataLoader.AnyContains(e.bodyParts, Lower(bodypart))
    ensures r.NotFound? ==> r.detail == "No exercises found for body part '" + bodypart + "'"
    ensures r.Ok? ==> (|r.value| == Min(limit, |DataLoader.GetExercisesByBodyPart(cat, bodypart)|) &&
      r.value <= DataLoader.GetExercisesByBodyPart(cat, bodypart))
  {
    var found := DataLoader.GetExercisesByBodyPart(cat, bodypart);
    assert found != [] ==> found[0] in found;
    FoundOrNotFound(found, limit, "No exercises found for body part '" + bodypart + "'")
  }

  /** get_exercises_by_equipment (route). */
  function GetExercisesByEquipment(cat: DataLoader.Catalog, equipment: string, limit: int): (r: RouteResult<seq<Exercise>>)
    requires 1 <= limit <= 100
    ensures r.NotFound? <==> forall e :: e in cat.exercises ==> !DataLoader.AnyContains(e.equipments, Lower(equipment))
    ensures r.NotFound? ==> r.detail == "No exercises found for equipment '" + equipment + "'"
    ensures r.Ok? ==> (|r.value| == Min(limit, |DataLoader.GetExercisesByEquipment(cat, equipment)|) &&
      r.value <= DataLoader.GetExercisesByEquipment(cat, equipment))
  {
    var found := DataLoader.GetExercisesByEquipment(cat, equipment);
    assert found != [] ==> found[0] in found;
    FoundOrNotFound(found, limit, "No exercises found for equipment '" + equipment + "'")
  }

  /**
   * The not-found policies differ: a term matching nothing gives an empty
   * search result but a 404 from the by-muscle route.
   */
  lemma SearchAndByMuscleDisagreeOnNoMatch(cat: DataLoader.Catalog, term: string, limit: int)
    requires 1 <= limit <= 100
    requires forall e :: e in cat.exercises ==> (!Contains(Lower(e.name), Lower(term)) &&
      !DataLoader.AnyContains(e.targetMuscles, Lower(term)) && !DataLoader.AnyContains(e.secondaryMuscles, Lower(term)))
    ensures SearchExercises(cat, term, limit) == Ok([])
    ensures GetExercisesByMuscle(cat, term, limit).NotFound?
  {
  }
}
