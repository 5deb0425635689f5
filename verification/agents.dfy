/** The agent directory (game/python/agents.py): profile lookup with its
    chain of fallbacks, role-specific system prompts, and resolution of a
    target or interaction id to an agent id. The directory is the parsed
    `agents.json` object, kept as an ordered list because Python dicts keep
    insertion order and "the first agent" is observable. */
module Agents {
  import opened Wrappers
  import opened Text

  /** One profile; each field may be missing from the JSON object. */
  datatype Agent = Agent(
    name: Option<string>,
    role: Option<string>,
    personality: Option<string>,
    knowledgeFile: Option<string>)

  type Directory = seq<(string, Agent)>

  const DefaultId: string := "default_field"

  /** The ids of the directory, in insertion order. */
  function Ids(dir: Directory): (r: seq<string>)
    ensures |r| == |dir|
    ensures forall k :: 0 <= k < |dir| ==> r[k] == dir[k].0
  {
    if |dir| == 0 then [] else [dir[0].0] + Ids(dir[1..])
  }

  /** `agents.get(id)`: the profile stored under `id`, if any. */
  function Lookup(dir: Directory, id: string): (r: Option<Agent>)
    ensures r.Some? <==> id in Ids(dir)
    ensures r.Some? ==> (id, r.value) in dir
  {
    if |dir| == 0 then None
    else if dir[0].0 == id then Some(dir[0].1)
    else
      assert Ids(dir) == [dir[0].0] + Ids(dir[1..]);
      Lookup(dir[1..], id)
  }

  /** A parsed JSON object never holds the same key twice. */
  predicate DistinctIds(dir: Directory) {
    forall i, j :: 0 <= i < j < |dir| ==> dir[i].0 != dir[j].0
  }

  /** In a directory without repeated ids, every stored profile is found
      under its own id. */
  lemma {:induction false} LookupStored(dir: Directory, k: nat)
    requires DistinctIds(dir) && k < |dir|
    ensures Lookup(dir, dir[k].0) == Some(dir[k].1)
  {
    if k > 0 {
      assert dir[0].0 != dir[k].0;
      assert DistinctIds(dir[1..]) by {
        forall i, j | 0 <= i < j < |dir[1..]| ensures dir[1..][i].0 != dir[1..][j].0 {
          assert dir[1..][i] == dir[i + 1] && dir[1..][j] == dir[j + 1];
        }
      }
      assert dir[1..][k - 1] == dir[k];
      LookupStored(dir[1..], k - 1);
    }
  }

  /** The directory used when `agents.json` cannot be read. */
  const FallbackDirectory: Directory := [(DefaultId, Agent(
    Some("Parisian Witness"),
    Some("field"),
    Some("You are an anonymous Parisian witness in July 1789. "
      + "You answer briefly about what you see around you."),
    Some("default_field.json")))]

  /** `_load_agents` once the file has been read: the parsed directory, or
      the one-entry fallback when reading or parsing failed (`None`). */
  function LoadAgents(parsed: Option<Directory>): (r: Directory)
    requires parsed.Some? ==> DistinctIds(parsed.value)
    ensures DistinctIds(r)
    ensures parsed.Some? ==> r == parsed.value
    ensures parsed.None? ==> Ids(r) == [DefaultId] && r[0].1.role == Some("field")
  {
    match parsed
    case Some(d) => d
    case None => FallbackDirectory
  }

  /** The message of the `KeyError` raised when the directory is empty. */
  function NoAgentsMessage(id: string): string {
    "No agents available to resolve '" + id + "'"
  }

  /** `get_agent`: the requested profile, else `default_field`, else the
      first profile; it raises only on an empty directory. */
  function GetAgent(dir: Directory, id: string): (r: Result<Agent, string>)
    ensures r.Failure? <==> |dir| == 0
    ensures r.Success? ==> exists k :: 0 <= k < |dir| && dir[k].1 == r.value
    ensures id in Ids(dir) ==> r == Success(Lookup(dir, id).value)
    ensures id !in Ids(dir) && DefaultId in Ids(dir) ==> r == Success(Lookup(dir, DefaultId).value)
    ensures id !in Ids(dir) && DefaultId !in Ids(dir) && |dir| > 0 ==> r == Success(dir[0].1)
  {
    match Lookup(dir, id)
    case Some(a) => Success(a)
    case None =>
      match Lookup(dir, DefaultId)
      case Some(d) => Success(d)
      case None =>
        if |dir| > 0 then Success(dir[0].1) else Failure(NoAgentsMessage(id))
  }

  /** `get_role`: the profile's role, "field" when it has none. */
  function GetRole(dir: Directory, id: string): (r: Result<string, string>)
    ensures r.Failure? <==> |dir| == 0
    ensures r.Success? && GetAgent(dir, id).value.role.None? ==> r.value == "field"
    ensures r.Success? && GetAgent(dir, id).value.role.Some? ==> r.value == GetAgent(dir, id).value.role.value
  {
    match GetAgent(dir, id)
    case Success(a) => Success(a.role.GetOr("field"))
    case Failure(e) => Failure(e)
  }

  /** `get_name`: the resolved profile's name; the requested id only when
      that profile has no name. */
  function GetName(dir: Directory, id: string): (r: Result<string, string>)
    ensures r.Failure? <==> |dir| == 0
    ensures r.Success? && GetAgent(dir, id).value.name.Some? ==> r.value == GetAgent(dir, id).value.name.value
    ensures r.Success? && GetAgent(dir, id).value.name.None? ==> r.value == id
  {
    match GetAgent(dir, id)
    case Success(a) => Success(a.name.GetOr(id))
    case Failure(e) => Failure(e)
  }

  const FieldInstructions: string :=
    "You are a historical character in Paris in July 1789. "
    + "You speak briefly, in character, based on your own experience."

  const EditorSuccess: string := "'Good article:'"
  const EvaluatorSuccess: string := "'Good answer:'"
  const RetryMarker: string := "'Try again:'"

  const EditorIntro: string :=
    "You are the demanding editor-in-chief of a small political newspaper. "
    + "You evaluate the journalist's article. Start with "
  const EditorMiddle: string :=
    " if it is strong enough to publish and move to the next episode, otherwise start with "
  const EditorEnd: string := " and give precise hints about missing viewpoints or facts."

  const EditorInstructions: string :=
    EditorIntro + EditorSuccess + EditorMiddle + RetryMarker + EditorEnd

  const EvaluatorIntro: string :=
    "You are a rigorous historian of the French Revolution. You evaluate whether "
    + "a newspaper article correctly explains the storming of the Bastille and its "
    + "significance. Start with "
  const EvaluatorMiddle: string := " if the understanding is nuanced, otherwise start with "
  const EvaluatorEnd: string := " and explain what is missing."

  const EvaluatorInstructions: string :=
    EvaluatorIntro + EvaluatorSuccess + EvaluatorMiddle + RetryMarker + EvaluatorEnd

  /** The role instructions appended to the personality, if the role has any. */
  function RoleInstructions(role: string): Option<string> {
    if role == "field" then Some(FieldInstructions)
    else if role == "editor" then Some(EditorInstructions)
    else if role == "article_evaluator" then Some(EvaluatorInstructions)
    else None
  }

  /** The system prompt of one profile: missing personality reads as "",
      missing role as "field"; an unknown role gets the bare personality. */
  function SystemPrompt(a: Agent): (r: string)
    ensures StartsWith(r, a.personality.GetOr(""))
    ensures RoleInstructions(a.role.GetOr("field")).None? ==> r == a.personality.GetOr("")
    ensures RoleInstructions(a.role.GetOr("field")).Some? ==>
      r == a.personality.GetOr("") + "\n" + RoleInstructions(a.role.GetOr("field")).value
  {
    var personality := a.personality.GetOr("");
    var role := a.role.GetOr("field");
    if role == "field" then personality + "\n" + FieldInstructions
    else if role == "editor" then personality + "\n" + EditorInstructions
    else if role == "article_evaluator" then personality + "\n" + EvaluatorInstructions
    else personality
  }

  /** `get_system_prompt`. */
  function GetSystemPrompt(dir: Directory, id: string): (r: Result<string, string>)
    ensures r.Failure? <==> |dir| == 0
    ensures r.Success? ==> r.value == SystemPrompt(GetAgent(dir, id).value)
  {
    match GetAgent(dir, id)
    case Success(a) => Success(SystemPrompt(a))
    case Failure(e) => Failure(e)
  }

  /** The editor system prompt spells out, verbatim, the answer prefixes the
      classifier later checks for. */
  lemma EditorPromptStatesContract(a: Agent)
    requires a.role == Some("editor")
    ensures Contains(SystemPrompt(a), EditorSuccess) && Contains(SystemPrompt(a), RetryMarker)
  {
    OccursInFiveAfter(a.personality.GetOr("") + "\n", EditorIntro, EditorSuccess, EditorMiddle,
      RetryMarker, EditorEnd);
  }

  /** Likewise for the article evaluator. */
  lemma EvaluatorPromptStatesContract(a: Agent)
    requires a.role == Some("article_evaluator")
    ensures Contains(SystemPrompt(a), EvaluatorSuccess) && Contains(SystemPrompt(a), RetryMarker)
  {
    OccursInFiveAfter(a.personality.GetOr("") + "\n", EvaluatorIntro, EvaluatorSuccess, EvaluatorMiddle,
      RetryMarker, EvaluatorEnd);
  }

  /** `_TARGET_TO_AGENT`. */
  const TargetToAgent: seq<(string, string)> := [
    ("bastille_worker", "bastille_worker"),
    ("bastille_soldier", "bastille_soldier"),
    ("palais_orator", "palais_orator"),
    ("palais_pamphleteer", "palais_pamphleteer"),
    ("faubourg_noble", "faubourg_noble"),
    ("faubourg_deputy", "faubourg_deputy"),
    ("editor_office", "editor_in_chief"),
    ("article_submission", "article_evaluator")
  ]

  function MapTarget(table: seq<(string, string)>, target: string): (r: Option<string>)
    ensures r.Some? ==> (target, r.value) in table
    ensures r.None? ==> forall k :: 0 <= k < |table| ==> table[k].0 != target
  {
    if |table| == 0 then None
    else if table[0].0 == target then Some(table[0].1)
    else MapTarget(table[1..], target)
  }

  /** `resolve_agent_id`: a non-empty explicit id present in the directory,
      else the mapped id of a known target if present, else `default_field`
      if present, else the first id. Raises (`StopIteration`, empty
      message) only on an empty directory. */
  function ResolveAgentId(dir: Directory, targetId: string, explicit: Option<string>): (r: Result<string, string>)
    ensures r.Failure? <==> |dir| == 0
    ensures r.Success? ==> r.value in Ids(dir)
    ensures explicit.Some? && explicit.value != "" && explicit.value in Ids(dir) ==>
      r == Success(explicit.value)
  {
    if explicit.Some? && explicit.value != "" && explicit.value in Ids(dir) then Success(explicit.value)
    else
      var mapped := MapTarget(TargetToAgent, targetId);
      if mapped.Some? && mapped.value in Ids(dir) then Success(mapped.value)
      else if DefaultId in Ids(dir) then Success(DefaultId)
      else if |dir| > 0 then Success(dir[0].0)
      else Failure("")
  }

  /** The targets of a table are pairwise different. */
  predicate DistinctTargets(table: seq<(string, string)>) {
    forall a, b :: 0 <= a < b < |table| ==> table[a].0 != table[b].0
  }

  /** In a table without repeated targets, lookup finds the one entry. */
  lemma {:induction false} MapTargetFinds(table: seq<(string, string)>, target: string, mapped: string)
    requires DistinctTargets(table) && (target, mapped) in table
    ensures MapTarget(table, target) == Some(mapped)
  {
    if table[0] != (target, mapped) {
      var k :| 0 <= k < |table| && table[k] == (target, mapped);
      assert table[0].0 != target;
      assert table[1..][k - 1] == (target, mapped);
      MapTargetFinds(table[1..], target, mapped);
    }
  }

  lemma TargetTableDistinct()
    ensures DistinctTargets(TargetToAgent)
  {
  }

  /** Without a usable explicit id, a target of the fixed table resolves to
      its mapped agent when the directory has it, otherwise to
      `default_field` when the directory has that. */
  lemma ResolveByTarget(dir: Directory, targetId: string, explicit: Option<string>, mapped: string)
    requires explicit.None? || explicit.value == "" || explicit.value !in Ids(dir)
    requires (targetId, mapped) in TargetToAgent
    ensures mapped in Ids(dir) ==> ResolveAgentId(dir, targetId, explicit) == Success(mapped)
    ensures mapped !in Ids(dir) && DefaultId in Ids(dir) ==>
      ResolveAgentId(dir, targetId, explicit) == Success(DefaultId)
  {
    TargetTableDistinct();
    MapTargetFinds(TargetToAgent, targetId, mapped);
  }

  /** The editor's office resolves to the editor-in-chief when it exists. */
  lemma EditorOfficeResolves(dir: Directory)
    requires "editor_in_chief" in Ids(dir)
    ensures ResolveAgentId(dir, "editor_office", None) == Success("editor_in_chief")
  {
    ResolveByTarget(dir, "editor_office", None, "editor_in_chief");
  }

  /** When the explicit id is missing, empty or unknown and the target
      maps to no agent of the directory, resolution falls back to
      `default_field`, then to the first id. */
  lemma ResolveFallback(dir: Directory, targetId: string, explicit: Option<string>)
    requires explicit.None? || explicit.value == "" || explicit.value !in Ids(dir)
    requires MapTarget(TargetToAgent, targetId).None?
             || MapTarget(TargetToAgent, targetId).value !in Ids(dir)
    requires |dir| > 0
    ensures DefaultId in Ids(dir) ==> ResolveAgentId(dir, targetId, explicit) == Success(DefaultId)
    ensures DefaultId !in Ids(dir) ==> ResolveAgentId(dir, targetId, explicit) == Success(dir[0].0)
  {
  }

  /** No entry of the target table has the empty target, so the
      resolution `get_character_response` makes (target "") for an unknown
      character falls under `ResolveFallback`. */
  lemma EmptyTargetUnmapped()
    ensures MapTarget(TargetToAgent, "").None?
  {
    assert forall k :: 0 <= k < |TargetToAgent| ==> TargetToAgent[k].0 != "";
  }
}
