/** Player progression (game/python/progression.py): three lists of ids,
    each growing by at most one element per call and never holding an id
    twice unless the stored data already did. */
module Progression {
  import opened Wrappers

  /** The `data` dictionary. Its three keys are always present: the
      constructor creates them and a reload can only replace their values. */
  datatype Progress = Progress(
    unlockedStages: seq<string>,
    unlockedAreas: seq<string>,
    completedInteractions: seq<string>)

  /** The `progression_data` found in persistent storage: a dictionary that
      may hold any subset of the three keys. */
  datatype Saved = Saved(
    unlockedStages: Option<seq<string>>,
    unlockedAreas: Option<seq<string>>,
    completedInteractions: Option<seq<string>>)

  /** The constructor: three empty lists, overwritten key by key by the
      stored dictionary when there is one. The loaded state is duplicate-free
      whenever the stored lists are, and answers every query as the stored
      data does. */
  function Load(saved: Option<Saved>): (p: Progress)
    ensures saved.None? ==> p == Progress([], [], [])
    ensures saved.Some? ==> p.unlockedStages == saved.value.unlockedStages.GetOr([])
    ensures saved.Some? ==> p.unlockedAreas == saved.value.unlockedAreas.GetOr([])
    ensures saved.Some? ==> p.completedInteractions == saved.value.completedInteractions.GetOr([])
    ensures saved.None? || SavedNoDuplicates(saved.value) ==> Inv(p)
    ensures forall x :: IsStageUnlocked(p, x) <==> Stored(saved, x, StagesKey)
    ensures forall x :: IsAreaUnlocked(p, x) <==> Stored(saved, x, AreasKey)
    ensures forall x :: IsInteractionCompleted(p, x) <==> Stored(saved, x, InteractionsKey)
  {
    match saved
    case None => Progress([], [], [])
    case Some(d) =>
      assert SavedList(d, StagesKey) == d.unlockedStages;
      assert SavedList(d, AreasKey) == d.unlockedAreas;
      assert SavedList(d, InteractionsKey) == d.completedInteractions;
      Progress(d.unlockedStages.GetOr([]), d.unlockedAreas.GetOr([]),
               d.completedInteractions.GetOr([]))
  }

  /** The three keys of the stored dictionary. */
  datatype SavedKey = StagesKey | AreasKey | InteractionsKey

  function SavedList(d: Saved, key: SavedKey): Option<seq<string>> {
    match key
    case StagesKey => d.unlockedStages
    case AreasKey => d.unlockedAreas
    case InteractionsKey => d.completedInteractions
  }

  /** `x` is in the stored list under `key`. */
  predicate Stored(saved: Option<Saved>, x: string, key: SavedKey) {
    saved.Some? && SavedList(saved.value, key).Some? && x in SavedList(saved.value, key).value
  }

  /** Every list the stored dictionary holds is duplicate-free. */
  predicate SavedNoDuplicates(d: Saved) {
    forall key: SavedKey :: SavedList(d, key).Some? ==> NoDuplicates(SavedList(d, key).value)
  }

  predicate NoDuplicates(xs: seq<string>) {
    forall a, b :: 0 <= a < b < |xs| ==> xs[a] != xs[b]
  }

  predicate Inv(p: Progress) {
    NoDuplicates(p.unlockedStages) && NoDuplicates(p.unlockedAreas)
    && NoDuplicates(p.completedInteractions)
  }

  /** The shared step of the three mutators: append `x` unless present. */
  function AddOnce(xs: seq<string>, x: string): (r: seq<string>)
    ensures x in r
    ensures forall y :: y in r <==> y in xs || y == x
    ensures x in xs ==> r == xs
    ensures x !in xs ==> r == xs + [x]
  {
    if x in xs then xs else xs + [x]
  }

  lemma AddOnceIdempotent(xs: seq<string>, x: string)
    ensures AddOnce(AddOnce(xs, x), x) == AddOnce(xs, x)
  {
  }

  /** Adding never introduces a duplicate. */
  lemma AddOnceNoDuplicates(xs: seq<string>, x: string)
    requires NoDuplicates(xs)
    ensures NoDuplicates(AddOnce(xs, x))
  {
    if x !in xs {
      var r := xs + [x];
      forall a, b | 0 <= a < b < |r| ensures r[a] != r[b] {
        if b == |xs| { assert r[a] == xs[a]; }
      }
    }
  }

  /** Adding two ids in either order records the same set of ids. */
  lemma AddOnceCommutesAsSet(xs: seq<string>, x: string, y: string)
    ensures forall z :: z in AddOnce(AddOnce(xs, x), y) <==> z in AddOnce(AddOnce(xs, y), x)
  {
  }

  function UnlockStage(p: Progress, stageId: string): (r: Progress)
    ensures r.unlockedStages == AddOnce(p.unlockedStages, stageId)
    ensures r.unlockedAreas == p.unlockedAreas
    ensures r.completedInteractions == p.completedInteractions
  {
    p.(unlockedStages := AddOnce(p.unlockedStages, stageId))
  }

  function UnlockArea(p: Progress, areaId: string): (r: Progress)
    ensures r.unlockedAreas == AddOnce(p.unlockedAreas, areaId)
    ensures r.unlockedStages == p.unlockedStages
    ensures r.completedInteractions == p.completedInteractions
  {
    p.(unlockedAreas := AddOnce(p.unlockedAreas, areaId))
  }

  function CompleteInteraction(p: Progress, interactionId: string): (r: Progress)
    ensures r.completedInteractions == AddOnce(p.completedInteractions, interactionId)
    ensures r.unlockedStages == p.unlockedStages
    ensures r.unlockedAreas == p.unlockedAreas
  {
    p.(completedInteractions := AddOnce(p.completedInteractions, interactionId))
  }

  predicate IsStageUnlocked(p: Progress, stageId: string) {
    stageId in p.unlockedStages
  }

  predicate IsAreaUnlocked(p: Progress, areaId: string) {
    areaId in p.unlockedAreas
  }

  predicate IsInteractionCompleted(p: Progress, interactionId: string) {
    interactionId in p.completedInteractions
  }

  /** After unlocking, exactly the previously unlocked stages and the new one
      are unlocked; areas and interactions answer as before. */
  lemma UnlockStageQueries(p: Progress, stageId: string, other: string)
    ensures IsStageUnlocked(UnlockStage(p, stageId), stageId)
    ensures IsStageUnlocked(UnlockStage(p, stageId), other)
            <==> IsStageUnlocked(p, other) || other == stageId
    ensures IsAreaUnlocked(UnlockStage(p, stageId), other) == IsAreaUnlocked(p, other)
    ensures IsInteractionCompleted(UnlockStage(p, stageId), other)
            == IsInteractionCompleted(p, other)
  {
  }

  lemma UnlockAreaQueries(p: Progress, areaId: string, other: string)
    ensures IsAreaUnlocked(UnlockArea(p, areaId), areaId)
    ensures IsAreaUnlocked(UnlockArea(p, areaId), other)
            <==> IsAreaUnlocked(p, other) || other == areaId
    ensures IsStageUnlocked(UnlockArea(p, areaId), other) == IsStageUnlocked(p, other)
    ensures IsInteractionCompleted(UnlockArea(p, areaId), other)
            == IsInteractionCompleted(p, other)
  {
  }

  lemma CompleteInteractionQueries(p: Progress, interactionId: string, other: string)
    ensures IsInteractionCompleted(CompleteInteraction(p, interactionId), interactionId)
    ensures IsInteractionCompleted(CompleteInteraction(p, interactionId), other)
            <==> IsInteractionCompleted(p, other) || other == interactionId
    ensures IsStageUnlocked(CompleteInteraction(p, interactionId), other)
            == IsStageUnlocked(p, other)
    ensures IsAreaUnlocked(CompleteInteraction(p, interactionId), other)
            == IsAreaUnlocked(p, other)
  {
  }

  /** Repeating any of the three mutators changes nothing. */
  lemma MutatorsIdempotent(p: Progress, id: string)
    ensures UnlockStage(UnlockStage(p, id), id) == UnlockStage(p, id)
    ensures UnlockArea(UnlockArea(p, id), id) == UnlockArea(p, id)
    ensures CompleteInteraction(CompleteInteraction(p, id), id) == CompleteInteraction(p, id)
  {
    AddOnceIdempotent(p.unlockedStages, id);
    AddOnceIdempotent(p.unlockedAreas, id);
    AddOnceIdempotent(p.completedInteractions, id);
  }

  lemma MutatorsKeepInv(p: Progress, id: string)
    requires Inv(p)
    ensures Inv(UnlockStage(p, id))
    ensures Inv(UnlockArea(p, id))
    ensures Inv(CompleteInteraction(p, id))
  {
    AddOnceNoDuplicates(p.unlockedStages, id);
    AddOnceNoDuplicates(p.unlockedAreas, id);
    AddOnceNoDuplicates(p.completedInteractions, id);
  }

  /** A fresh game starts with nothing unlocked and satisfies the invariant. */
  lemma FreshProgress(id: string)
    ensures Inv(Load(None))
    ensures !IsStageUnlocked(Load(None), id) && !IsAreaUnlocked(Load(None), id)
    ensures !IsInteractionCompleted(Load(None), id)
  {
  }
}
