/** The project router of process_question: starting from the session's
    currently selected project, scan the detected entities in order and switch
    to the first project one of them names. */
module Router {
  import opened Text

  /** The configured QnA projects, in their configured order; the first is the
      session's initial project. */
  const CrewAi: string := "CrewAi"
  const LangGraph: string := "LangGraph"
  const ProjectNames: seq<string> := [CrewAi, LangGraph]

  /** Entity categories that may switch the project (compared lower-cased). */
  const RoutingCategories: seq<string> := ["agent", "framework", "tool"]

  /** One entity as the language service returns it; either field may be
      missing from the response. */
  datatype Entity = Entity(category: Option<string>, text: Option<string>)

  /** What examining one entity decides. */
  datatype Verdict =
    | Pass                  // not a routing entity, or it names no project
    | Select(project: string)  // the scan stops on this project
    | NoCategory            // `entity["category"]` raises KeyError

  /** The outcome of a whole scan. */
  datatype RouteOutcome =
    | Routed(project: string)
    | CategoryMissing       // the scan reached an entity without a category

  predicate IsRoutingCategory(category: string) {
    ToLower(category) in RoutingCategories
  }

  /** The entity's text, lower-cased, with a missing text read as "". */
  function SearchText(e: Entity): (t: string)
    ensures IsLower(t)
    ensures e.text.None? ==> t == ""
  {
    ToLowerIsLower(e.text.GetOr(""));
    ToLower(e.text.GetOr(""))
  }

  /** One iteration of the routing loop: "crewai" is looked for before
      "langgraph", both by substring containment. */
  function Examine(e: Entity): (v: Verdict)
    ensures v == NoCategory <==> e.category.None?
    ensures v.Select? ==> v.project in ProjectNames
  {
    match e.category
    case None => NoCategory
    case Some(c) =>
      if !IsRoutingCategory(c) then Pass
      else if Contains(SearchText(e), "crewai") then Select(CrewAi)
      else if Contains(SearchText(e), "langgraph") then Select(LangGraph)
      else Pass
  }

  /** The scan ends at this entity (it selects a project or it raises). */
  predicate Decisive(e: Entity) {
    !Examine(e).Pass?
  }

  /** The routing decision: the first decisive entity in list order settles
      it; when there is none, the current project stays selected. */
  function Route(current: string, entities: seq<Entity>): (r: RouteOutcome)
    ensures r.Routed? ==> r.project == current || r.project in ProjectNames
    ensures r.Routed? && r.project != current ==> exists i :: 0 <= i < |entities| && Examine(entities[i]) == Select(r.project)
    ensures r.CategoryMissing? ==> exists i :: 0 <= i < |entities| && entities[i].category.None?
  {
    if entities == [] then Routed(current)
    else
      match Examine(entities[0])
      case Pass => Route(current, entities[1..])
      case Select(p) => Routed(p)
      case NoCategory => CategoryMissing
  }

  /** The routing loop as the source runs it: a `for` over the entities that
      reassigns the target and leaves with `break` on the first hit. */
  method RouteScan(current: string, entities: seq<Entity>) returns (r: RouteOutcome)
    ensures r == Route(current, entities)
  {
    var target := current;
    var i := 0;
    while i < |entities|
      invariant 0 <= i <= |entities|
      invariant target == current
      invariant Route(current, entities[i..]) == Route(current, entities)
    {
      var entity := entities[i];
      var txt := ToLower(entity.text.GetOr(""));
      if entity.category.None? {
        return CategoryMissing;
      }
      if ToLower(entity.category.value) in RoutingCategories {
        if Contains(txt, "crewai") {
          target := CrewAi;
          break;
        } else if Contains(txt, "langgraph") {
          target := LangGraph;
          break;
        }
      }
      assert entities[i..][1..] == entities[i + 1..];
      i := i + 1;
    }
    return Routed(target);
  }

  /** Entities that do not end the scan can be dropped from its front. */
  lemma {:induction false} RouteSkipsPassed(current: string, passed: seq<Entity>, rest: seq<Entity>)
    requires forall i :: 0 <= i < |passed| ==> !Decisive(passed[i])
    ensures Route(current, passed + rest) == Route(current, rest)
  {
    if passed != [] {
      var all := passed + rest;
      assert all[0] == passed[0] && Examine(all[0]).Pass?;
      assert all[1..] == passed[1..] + rest;
      assert Route(current, all) == Route(current, all[1..]);
      RouteSkipsPassed(current, passed[1..], rest);
    } else {
      assert passed + rest == rest;
    }
  }

  /** Sticky default: when no entity selects a project (this includes the
      empty list), the current project stays selected. */
  lemma {:induction false} RouteStaysWithoutMatch(current: string, entities: seq<Entity>)
    requires forall i :: 0 <= i < |entities| ==> !Decisive(entities[i])
    ensures Route(current, entities) == Routed(current)
  {
    RouteSkipsPassed(current, entities, []);
    assert entities + [] == entities;
  }

  /** First match wins: the first decisive entity settles the scan, whatever
      comes after it. */
  lemma RouteFirstDecisive(current: string, entities: seq<Entity>, k: int)
    requires 0 <= k < |entities|
    requires forall i :: 0 <= i < k ==> !Decisive(entities[i])
    requires Decisive(entities[k])
    ensures Examine(entities[k]).Select? ==> Route(current, entities) == Routed(Examine(entities[k]).project)
    ensures Examine(entities[k]).NoCategory? ==> Route(current, entities) == CategoryMissing
  {
    assert entities == entities[..k] + entities[k..];
    RouteSkipsPassed(current, entities[..k], entities[k..]);
  }

  /** Later entities are never examined: once a decisive entity has been
      reached, replacing everything after it changes nothing. */
  lemma RouteIgnoresTail(current: string, passed: seq<Entity>, e: Entity, rest1: seq<Entity>, rest2: seq<Entity>)
    requires forall i :: 0 <= i < |passed| ==> !Decisive(passed[i])
    requires Decisive(e)
    ensures Route(current, passed + [e] + rest1) == Route(current, passed + [e] + rest2)
  {
    assert passed + [e] + rest1 == passed + ([e] + rest1);
    assert passed + [e] + rest2 == passed + ([e] + rest2);
    RouteSkipsPassed(current, passed, [e] + rest1);
    RouteSkipsPassed(current, passed, [e] + rest2);
  }

  /** Within one entity "crewai" is looked for first: a routing entity whose
      text mentions both projects selects CrewAi. */
  lemma CrewAiTakesPrecedence(e: Entity)
    requires e.category.Some? && IsRoutingCategory(e.category.value)
    requires Contains(SearchText(e), "crewai") && Contains(SearchText(e), "langgraph")
    ensures Examine(e) == Select(CrewAi)
  {
  }

  /** The whole per-entity rule for a routing entity: it selects CrewAi
      exactly when its text contains "crewai", and LangGraph exactly when its
      text contains "langgraph" but not "crewai". */
  lemma KeywordRule(e: Entity)
    requires e.category.Some? && IsRoutingCategory(e.category.value)
    ensures Examine(e) == Select(CrewAi) <==> Contains(SearchText(e), "crewai")
    ensures Examine(e) == Select(LangGraph) <==>
      !Contains(SearchText(e), "crewai") && Contains(SearchText(e), "langgraph")
    ensures Examine(e) == Pass <==>
      !Contains(SearchText(e), "crewai") && !Contains(SearchText(e), "langgraph")
  {
  }

  /** An entity outside the routing categories never changes the project,
      whatever its text; neither does one without a text. */
  lemma IgnoredEntities(e: Entity)
    requires e.category.Some?
    requires !IsRoutingCategory(e.category.value) || e.text.None?
    ensures Examine(e) == Pass
  {
  }

  /** The routed project is always one of the configured projects when the
      current one is. */
  lemma RouteStaysConfigured(current: string, entities: seq<Entity>)
    requires current in ProjectNames
    ensures Route(current, entities).Routed? ==> Route(current, entities).project in ProjectNames
  {
  }

  /** The router is case-insensitive in the category: "Tool", "TOOL" and
      "tool" are all routing categories. */
  lemma RoutingCategoryIgnoresCase(category: string)
    ensures IsRoutingCategory(category) <==> IsRoutingCategory(ToLower(category))
  {
    ToLowerIsLower(category);
    ToLowerIsLower(ToLower(category));
  }

  /** The worked example: a "tool" entity naming LangGraph ahead of an "agent"
      entity naming CrewAi routes to LangGraph, even from CrewAi. */
  lemma FirstMatchExample()
    ensures Route(CrewAi, [Entity(Some("tool"), Some("LangGraph stuff")), Entity(Some("agent"), Some("CrewAi thing"))])
         == Routed(LangGraph)
  {
    var e := Entity(Some("tool"), Some("LangGraph stuff"));
    assert ToLower("tool") == "tool";
    var t := SearchText(e);
    assert t == "langgraph stuff";
    assert OccursAt(t, "langgraph", 0);
    assert !Contains(t, "crewai") by {
      forall i | 0 <= i <= |t| - 6
        ensures !OccursAt(t, "crewai", i)
      {
        assert t[i] != 'c';
      }
    }
  }
}
