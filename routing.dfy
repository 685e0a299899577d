/**
 * Dispatch of a request path to a route handler. The framework tries the
 * routes in the order they are declared and runs the first whose pattern
 * matches; a `{name}` parameter matches any one non-empty path segment.
 */
module Routing {
  import opened Wrappers

  /** The handlers of the service. */
  datatype Handler =
    | Root | ApiInfo | ListExercises | ExerciseById | SearchExercises
    | ByMuscle | ByBodypart | ByEquipment | RandomExercises
    | AllMuscles | AllBodyparts | AllEquipments | Stats

  /** One segment of a route pattern: fixed text, or a `{name}` parameter. */
  datatype Segment = Lit(text: string) | Param

  datatype Route = Route(pattern: seq<Segment>, handler: Handler)

  /** The path's segments (split on '/') match the pattern one for one. */
  predicate PatternMatches(pattern: seq<Segment>, path: seq<string>) {
    |pattern| == |path| &&
    forall i :: 0 <= i < |path| ==>
      match pattern[i]
      case Lit(t) => path[i] == t
      case Param => path[i] != ""
  }

  /** The handler of the first route, in table order, whose pattern matches the path. */
  function Dispatch(table: seq<Route>, path: seq<string>): (r: Option<Handler>)
    ensures r.None? <==> forall i :: 0 <= i < |table| ==> !PatternMatches(table[i].pattern, path)
    ensures r.Some? ==> exists i :: (0 <= i < |table| && table[i].handler == r.value &&
      PatternMatches(table[i].pattern, path) &&
      forall j :: 0 <= j < i ==> !PatternMatches(table[j].pattern, path))
  {
    if table == [] then None
    else if PatternMatches(table[0].pattern, path) then Some(table[0].handler)
    else
      var r := Dispatch(table[1..], path);
      assert forall j :: 1 <= j < |table| ==> table[j] == table[1..][j - 1];
      r
  }

  const RootRoute := Route([], Root)
  const ApiInfoRoute := Route([Lit("api")], ApiInfo)
  const ListRoute := Route([Lit("exercises")], ListExercises)
  const ByIdRoute := Route([Lit("exercises"), Param], ExerciseById)
  const SearchRoute := Route([Lit("exercises"), Lit("search"), Param], SearchExercises)
  const ByMuscleRoute := Route([Lit("exercises"), Lit("by-muscle"), Param], ByMuscle)
  const ByBodypartRoute := Route([Lit("exercises"), Lit("by-bodypart"), Param], ByBodypart)
  const ByEquipmentRoute := Route([Lit("exercises"), Lit("by-equipment"), Param], ByEquipment)
  const RandomRoute := Route([Lit("exercises"), Lit("random")], RandomExercises)
  const MusclesRoute := Route([Lit("muscles")], AllMuscles)
  const BodypartsRoute := Route([Lit("bodyparts")], AllBodyparts)
  const EquipmentsRoute := Route([Lit("equipments")], AllEquipments)
  const StatsRoute := Route([Lit("stats")], Stats)

  /** The routes before and after the by-id route, which the two tables share. */
  const Leading := [RootRoute, ApiInfoRoute, ListRoute]
  const ParamRoutes := [ByIdRoute, SearchRoute, ByMuscleRoute, ByBodypartRoute, ByEquipmentRoute]
  const Trailing := [MusclesRoute, BodypartsRoute, EquipmentsRoute, StatsRoute]

  /** The routes in the order the service declares them. */
  function DeclaredRoutes(): seq<Route> {
    Leading + ParamRoutes + [RandomRoute] + Trailing
  }

  /** The same routes with the random route declared ahead of the by-id route. */
  function FixedRoutes(): seq<Route> {
    Leading + [RandomRoute] + ParamRoutes + Trailing
  }

  /** As declared, GET /exercises/random is answered by the by-id handler, looking up the id "random". */
  lemma RandomPathReachesById()
    ensures Dispatch(DeclaredRoutes(), ["exercises", "random"]) == Some(ExerciseById)
  {
    var path := ["exercises", "random"];
    assert PatternMatches(ByIdRoute.pattern, path);
    assert Dispatch(Leading, path) == None;
    assert Dispatch(ParamRoutes, path) == Some(ExerciseById);
    DispatchAppend(Leading, ParamRoutes, path);
    DispatchAppend(Leading + ParamRoutes, [RandomRoute], path);
    DispatchAppend(Leading + ParamRoutes + [RandomRoute], Trailing, path);
  }

  lemma {:induction false} DispatchAppend(a: seq<Route>, b: seq<Route>, path: seq<string>)
    ensures Dispatch(a + b, path) == if Dispatch(a, path).Some? then Dispatch(a, path) else Dispatch(b, path)
  {
    if a != [] {
      assert (a + b)[0] == a[0] && (a + b)[1..] == a[1..] + b;
      DispatchAppend(a[1..], b, path);
    } else {
      assert a + b == b;
    }
  }

  /** Moving a route that does not match the path to another place in the table does not change the dispatch. */
  lemma MoveNonMatchingRoute(a: seq<Route>, r: Route, b: seq<Route>, c: seq<Route>, path: seq<string>)
    requires !PatternMatches(r.pattern, path)
    ensures Dispatch(a + ([r] + (b + c)), path) == Dispatch(a + (b + ([r] + c)), path)
  {
    DispatchAppend(a, [r] + (b + c), path);
    DispatchAppend([r], b + c, path);
    DispatchAppend(a, b + ([r] + c), path);
    DispatchAppend(b, [r] + c, path);
    DispatchAppend([r], c, path);
    DispatchAppend(b, c, path);
  }

  /**
   * With the random route declared first, GET /exercises/random reaches the
   * random handler, and every other path is dispatched exactly as before.
   */
  lemma FixedRoutesDispatch(path: seq<string>)
    ensures Dispatch(FixedRoutes(), ["exercises", "random"]) == Some(RandomExercises)
    ensures path != ["exercises", "random"] ==> Dispatch(FixedRoutes(), path) == Dispatch(DeclaredRoutes(), path)
  {
    var random := ["exercises", "random"];
    assert PatternMatches(RandomRoute.pattern, random);
    assert Dispatch(Leading, random) == None;
    var rest := ParamRoutes + Trailing;
    assert FixedRoutes() == Leading + ([RandomRoute] + rest);
    DispatchAppend(Leading, [RandomRoute] + rest, random);
    DispatchAppend([RandomRoute], rest, random);
    if path != random {
      assert DeclaredRoutes() == Leading + (ParamRoutes + ([RandomRoute] + Trailing));
      MoveNonMatchingRoute(Leading, RandomRoute, ParamRoutes, Trailing, path);
    }
  }
}
