/** World lookups (game/python/game_data.py): the primary stage chosen when
    the world map is parsed, and first-match searches over the nested
    stage / area / interaction lists of the loaded content. */
module GameData {
  import opened Wrappers

  /** An interaction object. Only its `id` is read by the lookups; `body`
      stands for the rest of the object, returned untouched. */
  datatype Interaction = Interaction(id: Option<string>, body: string)

  /** An area object; a missing `interactions` key reads as []. */
  datatype Area = Area(id: Option<string>, interactions: seq<Interaction>)

  /** A stage object. `defaultUnlocked` is the truthiness of its
      `default_unlocked` value (false when the key is missing); a missing
      `areas` key reads as []. */
  datatype Stage = Stage(id: Option<string>, defaultUnlocked: bool, areas: seq<Area>)

  /** The `world_map` object; its absent keys are `None` or []. */
  datatype WorldMap = WorldMap(title: Option<string>, image: Option<string>, stages: seq<Stage>)

  /** The attributes `_parse_data` sets. */
  datatype Parsed = Parsed(worldTitle: string, worldImage: string, primaryStageId: Option<string>)

  const DefaultTitle: string := "Game World"
  const DefaultImage: string := "images/maps/world_map.png"

  /** The stage list every lookup scans: `None` stands for content without a
      `world_map` key, which reads as an empty map. */
  function StagesOf(worldMap: Option<WorldMap>): seq<Stage> {
    if worldMap.Some? then worldMap.value.stages else []
  }

  // ---------------------------------------------------------------------
  // Primary stage
  // ---------------------------------------------------------------------

  /** The first stage whose `default_unlocked` is truthy. */
  function FirstDefault(ss: seq<Stage>): (r: Option<nat>)
    ensures r.None? <==> forall k :: 0 <= k < |ss| ==> !ss[k].defaultUnlocked
    ensures r.Some? ==> r.value < |ss| && ss[r.value].defaultUnlocked
    ensures r.Some? ==> forall j :: 0 <= j < r.value ==> !ss[j].defaultUnlocked
  {
    if |ss| == 0 then None
    else if ss[0].defaultUnlocked then Some(0)
    else
      match FirstDefault(ss[1..])
      case None => None
      case Some(k) => Some(k + 1)
  }

  /** The id the loop over stages picks, replaced by the first stage's id
      when it is falsy (None or ""). */
  function PrimaryStage(ss: seq<Stage>): (r: Option<string>)
    ensures |ss| == 0 ==> r == None
    ensures (forall k :: 0 <= k < |ss| ==> !ss[k].defaultUnlocked) && |ss| > 0 ==> r == ss[0].id
  {
    var picked := match FirstDefault(ss) case None => None case Some(k) => ss[k].id;
    if !Truthy(picked) && |ss| > 0 then ss[0].id else picked
  }

  /** With `k` the first default-unlocked stage, the primary stage is its id
      when truthy and the first stage's id otherwise. */
  lemma PrimaryStageOfDefault(ss: seq<Stage>, k: nat)
    requires k < |ss| && ss[k].defaultUnlocked
    requires forall j :: 0 <= j < k ==> !ss[j].defaultUnlocked
    ensures PrimaryStage(ss) == if Truthy(ss[k].id) then ss[k].id else ss[0].id
  {
    assert FirstDefault(ss) == Some(k);
  }

  /** `_parse_data`, applied to the content's `world_map` (None when the key
      is missing). When loading fails the constructor's defaults stay, which
      is the same as parsing a missing map. */
  function ParseData(worldMap: Option<WorldMap>): (p: Parsed)
    ensures worldMap.None? ==> p == Parsed(DefaultTitle, DefaultImage, None)
    ensures worldMap.Some? ==> p.worldTitle == worldMap.value.title.GetOr(DefaultTitle)
    ensures worldMap.Some? ==> p.worldImage == worldMap.value.image.GetOr(DefaultImage)
    ensures p.primaryStageId == PrimaryStage(StagesOf(worldMap))
  {
    match worldMap
    case None => Parsed(DefaultTitle, DefaultImage, PrimaryStage([]))
    case Some(w) => Parsed(w.title.GetOr(DefaultTitle), w.image.GetOr(DefaultImage), PrimaryStage(w.stages))
  }

  /** A primary stage id is some stage's id, and when truthy `get_stage`
      finds a stage for it. */
  lemma PrimaryStageExists(ss: seq<Stage>)
    ensures PrimaryStage(ss).Some? ==> exists k :: 0 <= k < |ss| && ss[k].id == PrimaryStage(ss)
    ensures Truthy(PrimaryStage(ss)) ==> GetStage(ss, PrimaryStage(ss).value).Some?
  {
    var r := PrimaryStage(ss);
    if r.Some? {
      var k := if Truthy(r) && FirstDefault(ss).Some? && ss[FirstDefault(ss).value].id == r
               then FirstDefault(ss).value else 0;
      assert ss[k].id == r;
    }
  }

  // ---------------------------------------------------------------------
  // The search every loop performs
  // ---------------------------------------------------------------------

  function StageKey(s: Stage): Option<string> { s.id }
  function AreaKey(a: Area): Option<string> { a.id }
  function InteractionKey(x: Interaction): Option<string> { x.id }

  /** The first element whose `id` equals `id`: the `for … if x.get("id")
      == id: return x` loop. A missing id never equals a string. */
  function FirstMatch<T>(xs: seq<T>, key: T -> Option<string>, id: string): (r: Option<T>)
    ensures r.None? <==> forall k :: 0 <= k < |xs| ==> key(xs[k]) != Some(id)
    ensures r.Some? ==> r.value in xs && key(r.value) == Some(id)
  {
    if |xs| == 0 then None
    else if key(xs[0]) == Some(id) then Some(xs[0])
    else
      var r := FirstMatch(xs[1..], key, id);
      assert forall k :: 1 <= k < |xs| ==> xs[k] == xs[1..][k - 1];
      r
  }

  /** The element found is the first one carrying the id. */
  lemma {:induction false} FirstMatchIsFirst<T>(xs: seq<T>, key: T -> Option<string>, id: string, k: nat)
    requires k < |xs| && key(xs[k]) == Some(id)
    requires forall j :: 0 <= j < k ==> key(xs[j]) != Some(id)
    ensures FirstMatch(xs, key, id) == Some(xs[k])
  {
    if k > 0 {
      assert key(xs[0]) != Some(id);
      FirstMatchIsFirst(xs[1..], key, id, k - 1);
    }
  }

  /** Searching a concatenation searches the left part first. */
  lemma {:induction false} FirstMatchAppend<T>(a: seq<T>, b: seq<T>, key: T -> Option<string>, id: string)
    ensures FirstMatch(a + b, key, id)
            == if FirstMatch(a, key, id).Some? then FirstMatch(a, key, id) else FirstMatch(b, key, id)
  {
    if |a| > 0 {
      assert (a + b)[0] == a[0];
      assert (a + b)[1..] == a[1..] + b;
      FirstMatchAppend(a[1..], b, key, id);
    } else {
      assert a + b == b;
    }
  }

  // ---------------------------------------------------------------------
  // Stages
  // ---------------------------------------------------------------------

  /** `get_stage`. */
  function GetStage(ss: seq<Stage>, stageId: string): (r: Option<Stage>)
    ensures r.None? <==> forall k :: 0 <= k < |ss| ==> ss[k].id != Some(stageId)
    ensures r.Some? ==> r.value in ss && r.value.id == Some(stageId)
  {
    FirstMatch(ss, StageKey, stageId)
  }

  /** The stage found is the first one carrying the id. */
  lemma GetStageIsFirst(ss: seq<Stage>, stageId: string, k: nat)
    requires k < |ss| && ss[k].id == Some(stageId)
    requires forall j :: 0 <= j < k ==> ss[j].id != Some(stageId)
    ensures GetStage(ss, stageId) == Some(ss[k])
  {
    FirstMatchIsFirst(ss, StageKey, stageId, k);
  }

  /** `get_stage_areas`: the areas of the stage `get_stage` finds, or [].
      A found stage always has an `id` key, so it is never the falsy {}. */
  function GetStageAreas(ss: seq<Stage>, stageId: string): (r: seq<Area>)
    ensures GetStage(ss, stageId).None? ==> r == []
    ensures GetStage(ss, stageId).Some? ==> r == GetStage(ss, stageId).value.areas
    ensures forall a :: a in r ==> a in AllAreas(ss)
  {
    match GetStage(ss, stageId)
    case None => []
    case Some(s) =>
      StageAreasInAll(ss, s);
      s.areas
  }

  // ---------------------------------------------------------------------
  // Areas
  // ---------------------------------------------------------------------

  /** Every area of every stage, in scan order: the reference order of the
      nested loops. */
  function AllAreas(ss: seq<Stage>): (r: seq<Area>)
    ensures |ss| > 0 ==> r == ss[0].areas + AllAreas(ss[1..])
  {
    if |ss| == 0 then [] else ss[0].areas + AllAreas(ss[1..])
  }

  lemma {:induction false} StageAreasInAll(ss: seq<Stage>, s: Stage)
    requires s in ss
    ensures forall a :: a in s.areas ==> a in AllAreas(ss)
  {
    if ss[0] != s {
      StageAreasInAll(ss[1..], s);
    }
  }

  /** `get_area`: stages in order, then each stage's areas in order. */
  function GetArea(ss: seq<Stage>, areaId: string): Option<Area> {
    if |ss| == 0 then None
    else
      match FirstMatch(ss[0].areas, AreaKey, areaId)
      case Some(a) => Some(a)
      case None => GetArea(ss[1..], areaId)
  }

  /** The nested scan finds the first matching area of the flattened list. */
  lemma {:induction false} GetAreaIsFirstOfAll(ss: seq<Stage>, areaId: string)
    ensures GetArea(ss, areaId) == FirstMatch(AllAreas(ss), AreaKey, areaId)
  {
    if |ss| > 0 {
      GetAreaIsFirstOfAll(ss[1..], areaId);
      FirstMatchAppend(ss[0].areas, AllAreas(ss[1..]), AreaKey, areaId);
    }
  }

  /** Hence `get_area` returns None exactly when no area anywhere matches,
      and otherwise an area with that id. */
  lemma GetAreaFound(ss: seq<Stage>, areaId: string)
    ensures GetArea(ss, areaId).None?
            <==> forall a :: a in AllAreas(ss) ==> a.id != Some(areaId)
    ensures GetArea(ss, areaId).Some?
            ==> GetArea(ss, areaId).value in AllAreas(ss)
                && GetArea(ss, areaId).value.id == Some(areaId)
  {
    GetAreaIsFirstOfAll(ss, areaId);
  }

  /** `get_area_interactions`: the interactions of the area `get_area`
      finds, or []. */
  function GetAreaInteractions(ss: seq<Stage>, areaId: string): (r: seq<Interaction>)
    ensures GetArea(ss, areaId).None? ==> r == []
    ensures GetArea(ss, areaId).Some? ==> r == GetArea(ss, areaId).value.interactions
    ensures forall x :: x in r ==> x in AllInteractions(ss)
  {
    match GetArea(ss, areaId)
    case None => []
    case Some(a) =>
      GetAreaFound(ss, areaId);
      AreaInteractionsInAll(AllAreas(ss), a);
      a.interactions
  }

  /** `get_interactions`, an alias of `get_area_interactions`: the
      interactions of the first area carrying the id in the stage-then-area
      order, [] when no area carries it, and never anything outside the
      world's interactions. */
  function GetInteractions(ss: seq<Stage>, areaId: string): (r: seq<Interaction>)
    ensures FirstMatch(AllAreas(ss), AreaKey, areaId).None? ==> r == []
    ensures FirstMatch(AllAreas(ss), AreaKey, areaId).Some? ==>
              r == FirstMatch(AllAreas(ss), AreaKey, areaId).value.interactions
    ensures forall x :: x in r ==> x in AllInteractions(ss)
  {
    GetAreaIsFirstOfAll(ss, areaId);
    GetAreaInteractions(ss, areaId)
  }

  /** `get_area_stage`: the same scan as `get_area`, answering the id of the
      enclosing stage (which may itself be None). */
  function GetAreaStage(ss: seq<Stage>, areaId: string): Option<string> {
    if |ss| == 0 then None
    else if FirstMatch(ss[0].areas, AreaKey, areaId).Some? then ss[0].id
    else GetAreaStage(ss[1..], areaId)
  }

  /** The stage `get_area_stage` names is the first stage holding a matching
      area, and that stage holds the very area `get_area` returns. */
  lemma {:induction false} AreaStageAgrees(ss: seq<Stage>, areaId: string)
    ensures GetArea(ss, areaId).None? ==> GetAreaStage(ss, areaId) == None
    ensures GetArea(ss, areaId).Some? ==>
              exists k :: 0 <= k < |ss| && GetArea(ss, areaId).value in ss[k].areas
                          && GetAreaStage(ss, areaId) == ss[k].id
                          && forall j :: 0 <= j < k ==> FirstMatch(ss[j].areas, AreaKey, areaId).None?
  {
    if |ss| > 0 && FirstMatch(ss[0].areas, AreaKey, areaId).None? {
      AreaStageAgrees(ss[1..], areaId);
      if GetArea(ss, areaId).Some? {
        var k :| 0 <= k < |ss[1..]| && GetArea(ss, areaId).value in ss[1..][k].areas
                 && GetAreaStage(ss[1..], areaId) == ss[1..][k].id
                 && forall j :: 0 <= j < k ==> FirstMatch(ss[1..][j].areas, AreaKey, areaId).None?;
        assert ss[k + 1] == ss[1..][k];
        assert forall j :: 1 <= j < k + 1 ==> ss[j] == ss[1..][j - 1];
      }
    }
  }

  /** `resolve_area_id` is a placeholder: ids resolve to themselves. */
  function ResolveAreaId(areaId: string): (r: string)
    ensures forall ss :: GetArea(ss, r) == GetArea(ss, areaId)
  {
    areaId
  }

  // ---------------------------------------------------------------------
  // Interactions
  // ---------------------------------------------------------------------

  /** Every interaction of the given areas, in scan order. */
  function InteractionsOf(areas: seq<Area>): (r: seq<Interaction>)
    ensures |areas| > 0 ==> r == areas[0].interactions + InteractionsOf(areas[1..])
  {
    if |areas| == 0 then [] else areas[0].interactions + InteractionsOf(areas[1..])
  }

  function AllInteractions(ss: seq<Stage>): seq<Interaction> {
    InteractionsOf(AllAreas(ss))
  }

  lemma {:induction false} InteractionsOfAppend(a: seq<Area>, b: seq<Area>)
    ensures InteractionsOf(a + b) == InteractionsOf(a) + InteractionsOf(b)
  {
    if |a| > 0 {
      assert (a + b)[0] == a[0];
      assert (a + b)[1..] == a[1..] + b;
      InteractionsOfAppend(a[1..], b);
    } else {
      assert a + b == b;
    }
  }

  lemma {:induction false} AreaInteractionsInAll(areas: seq<Area>, a: Area)
    requires a in areas
    ensures forall x :: x in a.interactions ==> x in InteractionsOf(areas)
  {
    if areas[0] != a {
      AreaInteractionsInAll(areas[1..], a);
    }
  }

  /** The two inner loops of `get_interaction`: areas in order, then each
      area's interactions in order. */
  function InteractionInAreas(areas: seq<Area>, interactionId: string): Option<Interaction> {
    if |areas| == 0 then None
    else
      match FirstMatch(areas[0].interactions, InteractionKey, interactionId)
      case Some(x) => Some(x)
      case None => InteractionInAreas(areas[1..], interactionId)
  }

  /** `get_interaction`: the three nested loops. */
  function GetInteraction(ss: seq<Stage>, interactionId: string): Option<Interaction> {
    if |ss| == 0 then None
    else
      match InteractionInAreas(ss[0].areas, interactionId)
      case Some(x) => Some(x)
      case None => GetInteraction(ss[1..], interactionId)
  }

  lemma {:induction false} InteractionInAreasIsFirst(areas: seq<Area>, interactionId: string)
    ensures InteractionInAreas(areas, interactionId)
            == FirstMatch(InteractionsOf(areas), InteractionKey, interactionId)
  {
    if |areas| > 0 {
      InteractionInAreasIsFirst(areas[1..], interactionId);
      FirstMatchAppend(areas[0].interactions, InteractionsOf(areas[1..]), InteractionKey, interactionId);
    }
  }

  /** The nested scan finds the first matching interaction of the flattened
      list of every interaction of every area of every stage. */
  lemma {:induction false} GetInteractionIsFirstOfAll(ss: seq<Stage>, interactionId: string)
    ensures GetInteraction(ss, interactionId)
            == FirstMatch(AllInteractions(ss), InteractionKey, interactionId)
  {
    if |ss| > 0 {
      GetInteractionIsFirstOfAll(ss[1..], interactionId);
      InteractionInAreasIsFirst(ss[0].areas, interactionId);
      assert AllAreas(ss) == ss[0].areas + AllAreas(ss[1..]);
      InteractionsOfAppend(ss[0].areas, AllAreas(ss[1..]));
      FirstMatchAppend(InteractionsOf(ss[0].areas), AllInteractions(ss[1..]), InteractionKey, interactionId);
    }
  }

  /** `get_interaction` returns None exactly when no interaction anywhere
      has the id, and otherwise one that has it. */
  lemma GetInteractionFound(ss: seq<Stage>, interactionId: string)
    ensures GetInteraction(ss, interactionId).None?
            <==> forall x :: x in AllInteractions(ss) ==> x.id != Some(interactionId)
    ensures GetInteraction(ss, interactionId).Some?
            ==> GetInteraction(ss, interactionId).value in AllInteractions(ss)
                && GetInteraction(ss, interactionId).value.id == Some(interactionId)
  {
    GetInteractionIsFirstOfAll(ss, interactionId);
  }
}
