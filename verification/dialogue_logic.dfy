/** Prompt composition and outcome classification
    (game/python/dialogue_logic.py). The text generator is a parameter: a
    total function from prompt to output, since `generate_sync` turns every
    backend failure into a sentinel string instead of raising. */
module DialogueLogic {
  import opened Wrappers
  import opened Text
  import opened Agents
  import opened RagStore

  // ---------------------------------------------------------------------
  // Chat template
  // ---------------------------------------------------------------------

  const SystemOpen: string := "<|im_start|>system\n"
  const UserOpen: string := "\n<|im_end|>\n<|im_start|>user\n"
  const AssistantOpen: string := "\n<|im_end|>\n<|im_start|>assistant\n"

  /** `CHAT_TEMPLATE.format(system=..., user=...)`. */
  function ChatPrompt(system: string, user: string): string {
    SystemOpen + system + UserOpen + user + AssistantOpen
  }

  /** The layout of a chat prompt: the system turn, the user turn, and an
      assistant turn left open for the model, each text in its own slot
      between the fixed delimiters. */
  lemma ChatPromptLayout(system: string, user: string)
    ensures var r := ChatPrompt(system, user);
      && StartsWith(r, SystemOpen)
      && |r| == |SystemOpen| + |system| + |UserOpen| + |user| + |AssistantOpen|
      && r[|SystemOpen|..|SystemOpen| + |system|] == system
      && r[|SystemOpen| + |system|..|SystemOpen| + |system| + |UserOpen|] == UserOpen
      && r[|SystemOpen| + |system| + |UserOpen|..|r| - |AssistantOpen|] == user
      && r[|r| - |AssistantOpen|..] == AssistantOpen
  {
  }

  /** The system and user texts are recovered from a chat prompt by their
      lengths: the template loses nothing. */
  lemma ChatPromptInjective(s1: string, u1: string, s2: string, u2: string)
    requires |s1| == |s2|
    requires ChatPrompt(s1, u1) == ChatPrompt(s2, u2)
    ensures s1 == s2 && u1 == u2
  {
    var r := ChatPrompt(s1, u1);
    ChatPromptLayout(s1, u1);
    ChatPromptLayout(s2, u2);
    assert s1 == r[|SystemOpen|..|SystemOpen| + |s1|];
    assert u1 == r[|SystemOpen| + |s1| + |UserOpen|..|r| - |AssistantOpen|];
  }

  /** Whatever the user turn contains, the chat prompt contains too. */
  lemma ChatPromptCarries(system: string, user: string, part: string)
    ensures StartsWith(ChatPrompt(system, user), SystemOpen + system)
    ensures Contains(user, part) ==> Contains(ChatPrompt(system, user), part)
  {
    var p := SystemOpen + system + UserOpen;
    assert ChatPrompt(system, user) == p + (user + AssistantOpen);
    assert ChatPrompt(system, user)[..|SystemOpen + system|] == SystemOpen + system;
    if Contains(user, part) {
      var i :| 0 <= i <= |user| && OccursAt(user, part, i);
      assert (p + (user + AssistantOpen))[|p| + i..|p| + i + |part|] == user[i..i + |part|];
      assert OccursAt(ChatPrompt(system, user), part, |p| + i);
    }
  }

  // ---------------------------------------------------------------------
  // Context blocks
  // ---------------------------------------------------------------------

  /** A headed context part; it is left out when its body is empty. */
  datatype Section = Section(header: string, body: string)

  /** The headed bodies of the non-empty sections, in order: empty exactly
      when every body is, and as long as `secs` exactly when none is. */
  function PresentSections(secs: seq<Section>): (r: seq<string>)
    ensures |r| <= |secs|
    ensures |r| == 0 <==> forall j :: 0 <= j < |secs| ==> secs[j].body == ""
    ensures |r| == |secs| <==> forall j :: 0 <= j < |secs| ==> secs[j].body != ""
  {
    if |secs| == 0 then []
    else
      assert forall j :: 1 <= j < |secs| ==> secs[j] == secs[1..][j - 1];
      if secs[0].body == "" then PresentSections(secs[1..])
      else [secs[0].header + secs[0].body] + PresentSections(secs[1..])
  }

  /** Sections are kept or dropped one by one, so the kept parts of a
      concatenation are the kept parts of each side, in order. */
  lemma {:induction false} PresentSectionsAppend(a: seq<Section>, b: seq<Section>)
    ensures PresentSections(a + b) == PresentSections(a) + PresentSections(b)
  {
    if |a| == 0 {
      assert a + b == b;
    } else {
      assert (a + b)[0] == a[0];
      assert (a + b)[1..] == a[1..] + b;
      PresentSectionsAppend(a[1..], b);
    }
  }

  /** A single section is kept, header first, exactly when its body is
      non-empty. */
  lemma PresentSectionsOne(s: Section)
    ensures PresentSections([s]) == Kept(s)
  {
    assert [s][1..] == [];
  }

  /** `"\n\n".join(ctx_parts) if ctx_parts else fallback`. */
  function ContextBlock(secs: seq<Section>, fallback: string): string {
    var present := PresentSections(secs);
    if |present| == 0 then fallback else Join(present, "\n\n")
  }

  lemma JoinTwo(x: string, y: string, sep: string)
    ensures Join([x, y], sep) == x + sep + y
  {
    assert [x, y][1..] == [y];
  }

  /** The two-part block used by the field and editor prompts: the
      retrieval part comes first, the history part second, and the fallback
      appears only when both are empty. */
  lemma ContextBlockTwo(h1: string, b1: string, h2: string, b2: string, fallback: string)
    ensures var r := ContextBlock([Section(h1, b1), Section(h2, b2)], fallback);
      && (b1 != "" && b2 != "" ==> r == h1 + b1 + "\n\n" + h2 + b2)
      && (b1 != "" && b2 == "" ==> r == h1 + b1)
      && (b1 == "" && b2 != "" ==> r == h2 + b2)
      && (b1 == "" && b2 == "" ==> r == fallback)
  {
    var secs := [Section(h1, b1), Section(h2, b2)];
    assert secs[1..] == [Section(h2, b2)];
    assert secs[1..][1..] == [];
    var tail := PresentSections(secs[1..]);
    assert tail == (if b2 == "" then [] else [h2 + b2]);
    JoinTwo(h1 + b1, h2 + b2, "\n\n");
  }

  /** The kept part of one section. */
  function Kept(s: Section): seq<string> {
    if s.body == "" then [] else [s.header + s.body]
  }

  lemma PresentThree(s1: Section, s2: Section, s3: Section)
    ensures PresentSections([s1, s2, s3]) == Kept(s1) + Kept(s2) + Kept(s3)
  {
    assert [s1, s2, s3] == [s1] + [s2] + [s3];
    PresentSectionsAppend([s1] + [s2], [s3]);
    PresentSectionsAppend([s1], [s2]);
    PresentSectionsOne(s1);
    PresentSectionsOne(s2);
    PresentSectionsOne(s3);
  }

  lemma JoinThree(x: string, y: string, z: string, sep: string)
    ensures Join([x, y, z], sep) == x + sep + (y + sep + z)
  {
    assert [x, y, z][1..] == [y, z];
    JoinTwo(y, z, sep);
  }

  /** The three-part block of `get_character_response`, in all eight
      present/absent cases: the parts that are present appear in the order
      scene, facts, earlier dialogue, separated by blank lines, and the
      fallback appears only when all three are empty. */
  lemma ContextBlockThree(h1: string, b1: string, h2: string, b2: string, h3: string, b3: string,
                          fallback: string)
    ensures var r := ContextBlock([Section(h1, b1), Section(h2, b2), Section(h3, b3)], fallback);
      var x := h1 + b1; var y := h2 + b2; var z := h3 + b3;
      && (b1 != "" && b2 != "" && b3 != "" ==> r == x + "\n\n" + (y + "\n\n" + z))
      && (b1 != "" && b2 != "" && b3 == "" ==> r == x + "\n\n" + y)
      && (b1 != "" && b2 == "" && b3 != "" ==> r == x + "\n\n" + z)
      && (b1 == "" && b2 != "" && b3 != "" ==> r == y + "\n\n" + z)
      && (b1 != "" && b2 == "" && b3 == "" ==> r == x)
      && (b1 == "" && b2 != "" && b3 == "" ==> r == y)
      && (b1 == "" && b2 == "" && b3 != "" ==> r == z)
      && (b1 == "" && b2 == "" && b3 == "" ==> r == fallback)
  {
    var x, y, z := h1 + b1, h2 + b2, h3 + b3;
    var present := PresentSections([Section(h1, b1), Section(h2, b2), Section(h3, b3)]);
    PresentThree(Section(h1, b1), Section(h2, b2), Section(h3, b3));
    if b1 != "" && b2 != "" && b3 != "" {
      assert present == [x, y, z];
      JoinThree(x, y, z, "\n\n");
    } else if b1 != "" && b2 != "" {
      assert present == [x, y];
      JoinTwo(x, y, "\n\n");
    } else if b1 != "" && b3 != "" {
      assert present == [x, z];
      JoinTwo(x, z, "\n\n");
    } else if b2 != "" && b3 != "" {
      assert present == [y, z];
      JoinTwo(y, z, "\n\n");
    } else if b1 != "" {
      assert present == [x];
    } else if b2 != "" {
      assert present == [y];
    } else if b3 != "" {
      assert present == [z];
    } else {
      assert present == [];
    }
  }

  /** The loaded knowledge bases, by agent id (`_load_kb`); an agent
      without one has an empty base. */
  type Knowledge = map<string, seq<KBEntry>>

  function KnowledgeOf(kbs: Knowledge, agentId: string): seq<KBEntry> {
    if agentId in kbs then kbs[agentId] else []
  }

  /** A prompt made of a head, a context block, an introduction of the
      player's text, that text, and closing instructions. Both the block and
      the text appear in it verbatim. */
  function Frame(head: string, block: string, intro: string, text: string, closing: string): (r: string)
    ensures StartsWith(r, head)
    ensures Contains(r, block) && Contains(r, text)
  {
    var r := head + block + intro + text + closing;
    OccursInFive(head, block, intro, text, closing);
    assert r[..|head|] == head;
    r
  }

  // ---------------------------------------------------------------------
  // User prompt builders. Each takes the retrieval context `rag` and the
  // history context `hist` computed for the resolved agent with the
  // source's defaults (`max_chunks=3`, `max_turns=3`).
  // ---------------------------------------------------------------------

  const FieldClosing: string :=
    "Answer briefly (2\U{2013}4 sentences), in character, from your limited perspective. "
    + "You can hint at what the player should pay attention to, but do not break character."

  function FieldBlock(rag: string, hist: string): string {
    ContextBlock([Section("Relevant local facts:\n", rag), Section("Earlier dialogue:\n", hist)],
      "No additional context.")
  }

  /** `_build_user_prompt_field`: the location line, the context block, the
      player's words quoted verbatim, and the in-character instructions. */
  function FieldUserPrompt(targetId: string, rag: string, hist: string, playerText: string): (r: string)
    ensures StartsWith(r, "Location or interaction id: '" + targetId + "'.\n")
    ensures Contains(r, FieldBlock(rag, hist)) && Contains(r, playerText)
  {
    Frame("Location or interaction id: '" + targetId + "'.\n", FieldBlock(rag, hist),
      "\n\nThe player says to you:\n\"", playerText, "\"\n\n" + FieldClosing)
  }

  const EditorClosing: string :=
    "Evaluate this article. Start your answer with 'Good article:' if "
    + "it is strong enough to publish and move to the next episode. "
    + "Otherwise start with 'Try again:' and specify which angles, facts or "
    + "voices are missing and where the journalist should investigate again."

  function EditorBlock(rag: string, hist: string): string {
    ContextBlock([Section("Guidelines for good revolutionary journalism:\n", rag),
                  Section("Previous drafts and your feedback:\n", hist)],
      "No prior submissions.")
  }

  /** `_build_user_prompt_editor`: the draft is quoted verbatim and the
      prompt ends with the answer-prefix instructions. */
  function EditorUserPrompt(rag: string, hist: string, article: string): (r: string)
    ensures Contains(r, EditorBlock(rag, hist)) && Contains(r, article)
  {
    Frame("You are reviewing a draft article about recent events in Paris.\n", EditorBlock(rag, hist),
      "\n\nArticle draft:\n\"\"\"\n", article, "\n\"\"\"\n\n" + EditorClosing)
  }

  const EvaluatorClosing: string :=
    "Decide whether this article correctly explains the storming of the Bastille "
    + "and its meaning for the beginning of the French Revolution. "
    + "Start with 'Good answer:' if the article integrates both the spontaneous "
    + "crowd action and the political/symbolic significance. Otherwise start with "
    + "'Try again:' and explain what aspects are missing or oversimplified."

  /** The evaluator's context is retrieval only. */
  function EvaluatorBlock(rag: string): string {
    if rag != "" then rag else "No external context."
  }

  /** `_build_user_prompt_article_eval`: no history part. */
  function EvaluatorUserPrompt(rag: string, article: string): (r: string)
    ensures Contains(r, EvaluatorBlock(rag)) && Contains(r, article)
  {
    Frame("Historical notes:\n", EvaluatorBlock(rag),
      "\n\nNewspaper article:\n\"\"\"\n", article, "\n\"\"\"\n\n" + EvaluatorClosing)
  }

  /** The role dispatch of `process_input`: editor and article evaluator get
      their own builders, every other role the field builder. */
  function UserPrompt(role: string, targetId: string, rag: string, hist: string, text: string): (r: string)
    ensures Contains(r, text)
    ensures role == "editor" ==> r == EditorUserPrompt(rag, hist, text)
    ensures role == "article_evaluator" ==> r == EvaluatorUserPrompt(rag, text)
    ensures role != "editor" && role != "article_evaluator" ==> r == FieldUserPrompt(targetId, rag, hist, text)
  {
    if role == "editor" then EditorUserPrompt(rag, hist, text)
    else if role == "article_evaluator" then EvaluatorUserPrompt(rag, text)
    else FieldUserPrompt(targetId, rag, hist, text)
  }

  // ---------------------------------------------------------------------
  // Outcome classification
  // ---------------------------------------------------------------------

  const NoInputFeedback: string := "No input provided."
  const NoOutputFeedback: string := "[No output from model.]"
  const NoResponseText: string := "[No response from model.]"

  /** `(out or "").strip() or fallback`. */
  function OrFallback(out: string, fallback: string): (r: string)
    ensures !AllSpace(out) ==> r == Strip(out) && r != ""
    ensures AllSpace(out) ==> r == fallback
    ensures IsStripped(fallback) ==> IsStripped(r)
  {
    var s := Strip(out);
    if s == "" then fallback else s
  }

  /** The lower-case prefix that marks success for a role. */
  function SuccessPrefix(role: string): string {
    if role == "editor" then "good article:" else "good answer:"
  }

  /** `feedback.lower().startswith(prefix)`. */
  predicate Classify(role: string, feedback: string) {
    StartsWith(Lower(feedback), SuccessPrefix(role))
  }

  /** Classification looks only at the first characters of the feedback,
      compared case-insensitively with the role's prefix. */
  lemma ClassifyIsPrefixTest(role: string, feedback: string)
    ensures Classify(role, feedback) <==> FoldedPrefix(feedback, SuccessPrefix(role))
  {
    FoldedPrefixIsLowerPrefix(feedback, SuccessPrefix(role));
  }

  /** An editor answer that opens as instructed, "Good article:", passes. */
  lemma EditorAcceptsGoodArticle(rest: string)
    ensures Classify("editor", "Good article:" + rest)
  {
    assert FoldedPrefix("Good article:" + rest, "good article:");
    ClassifyIsPrefixTest("editor", "Good article:" + rest);
  }

  /** Letter case does not matter. */
  lemma EditorAcceptsCapitals(rest: string)
    ensures Classify("editor", "GOOD ARTICLE:" + rest)
  {
    assert FoldedPrefix("GOOD ARTICLE:" + rest, "good article:");
    ClassifyIsPrefixTest("editor", "GOOD ARTICLE:" + rest);
  }

  /** Every other role accepts "Good answer:". */
  lemma OthersAcceptGoodAnswer(role: string, rest: string)
    requires role != "editor"
    ensures Classify(role, "Good answer:" + rest)
  {
    assert FoldedPrefix("Good answer:" + rest, "good answer:");
    ClassifyIsPrefixTest(role, "Good answer:" + rest);
  }

  /** The editor does not take the other roles' opening. */
  lemma EditorRejectsGoodAnswer(rest: string)
    ensures !Classify("editor", "Good answer:" + rest)
  {
    ClassifyIsPrefixTest("editor", "Good answer:" + rest);
    assert ("Good answer:" + rest)[6] == 'n';
  }

  /** An answer that opens with "Try again:" never passes. */
  lemma TryAgainRejected(role: string, rest: string)
    ensures !Classify(role, "Try again:" + rest)
  {
    ClassifyIsPrefixTest(role, "Try again:" + rest);
    assert ("Try again:" + rest)[0] == 'T';
  }

  // ---------------------------------------------------------------------
  // Entry points
  // ---------------------------------------------------------------------

  /** What `process_input` returns, with the history it leaves behind. */
  datatype Processed = Processed(ok: bool, feedback: string, history: History)

  /** The chat prompt `process_input` sends for an already resolved agent:
      the agent's system prompt, then the role's user prompt built from the
      stripped input and that agent's retrieval and history contexts. */
  function InputPrompt(dir: Directory, kbs: Knowledge, h: History, agentId: string,
                       targetId: string, text: string): string
    requires |dir| > 0
  {
    ChatPrompt(GetSystemPrompt(dir, agentId).value,
      UserPrompt(GetRole(dir, agentId).value, targetId,
        GetRagContext(KnowledgeOf(kbs, agentId), text, 3), GetHistoryContext(h, agentId, 3), text))
  }

  /** The prompt opens with the resolved agent's system prompt and carries
      the player's text verbatim, inside the context block of the agent's
      role: the editor's block for "editor", the retrieval notes for
      "article_evaluator", and the field block with the target's location
      line for every other role. */
  lemma InputPromptCarries(dir: Directory, kbs: Knowledge, h: History, agentId: string,
                           targetId: string, text: string)
    requires |dir| > 0
    ensures StartsWith(InputPrompt(dir, kbs, h, agentId, targetId, text),
                       SystemOpen + GetSystemPrompt(dir, agentId).value)
    ensures Contains(InputPrompt(dir, kbs, h, agentId, targetId, text), text)
    ensures var role := GetRole(dir, agentId).value;
      var rag := GetRagContext(KnowledgeOf(kbs, agentId), text, 3);
      var hist := GetHistoryContext(h, agentId, 3);
      var p := InputPrompt(dir, kbs, h, agentId, targetId, text);
      && (role == "editor" ==> Contains(p, EditorBlock(rag, hist)))
      && (role == "article_evaluator" ==> Contains(p, EvaluatorBlock(rag)))
      && (role != "editor" && role != "article_evaluator" ==>
            Contains(p, FieldBlock(rag, hist))
            && Contains(p, "Location or interaction id: '" + targetId + "'.\n"))
  {
    var role := GetRole(dir, agentId).value;
    var system := GetSystemPrompt(dir, agentId).value;
    var rag := GetRagContext(KnowledgeOf(kbs, agentId), text, 3);
    var hist := GetHistoryContext(h, agentId, 3);
    var user := UserPrompt(role, targetId, rag, hist, text);
    ChatPromptCarries(system, user, text);
    if role == "editor" {
      ChatPromptCarries(system, user, EditorBlock(rag, hist));
    } else if role == "article_evaluator" {
      ChatPromptCarries(system, user, EvaluatorBlock(rag));
    } else {
      ChatPromptCarries(system, user, FieldBlock(rag, hist));
      var line := "Location or interaction id: '" + targetId + "'.\n";
      assert OccursAt(user, line, 0);
      ChatPromptCarries(system, user, line);
    }
  }

  /** What `process_input` does with the model's output `out` once the
      agent is resolved: whatever the model answered, the feedback is
      non-empty and stripped, it is judged by the role's success prefix, and
      exactly one turn is remembered, under that agent, holding the input
      and the feedback. */
  function Conclude(dir: Directory, h: History, agentId: string, text: string, out: string): (r: Processed)
    requires |dir| > 0
    ensures r.feedback != "" && IsStripped(r.feedback)
    ensures !AllSpace(out) ==> r.feedback == Strip(out)
    ensures AllSpace(out) ==> r.feedback == NoOutputFeedback
    ensures r.ok == Classify(GetRole(dir, agentId).value, r.feedback)
    ensures TurnsOf(r.history, agentId)
      == TurnsOf(h, agentId) + [Turn(text, r.feedback, GetName(dir, agentId).value)]
    ensures forall other :: other != agentId ==> TurnsOf(r.history, other) == TurnsOf(h, other)
  {
    var feedback := OrFallback(out, NoOutputFeedback);
    assert IsStripped(NoOutputFeedback);
    Processed(Classify(GetRole(dir, agentId).value, feedback), feedback,
      AddHistory(h, agentId, text, feedback, GetName(dir, agentId).value))
  }

  /** `process_input`: a blank input is answered at once and changes
      nothing; otherwise the agent is resolved, the model is asked with
      `InputPrompt` about the stripped input, and `Conclude` records the
      outcome. A `Failure` is the exception the source lets escape when the
      agent directory is empty. */
  function ProcessInput(dir: Directory, kbs: Knowledge, h: History, playerText: string,
                        targetId: string, characterAgent: Option<string>,
                        generate: string -> string): (r: Result<Processed, string>)
    ensures AllSpace(playerText) ==> r == Success(Processed(false, NoInputFeedback, h))
    ensures !AllSpace(playerText) ==> (r.Failure? <==> |dir| == 0)
    ensures !AllSpace(playerText) && r.Success? ==>
      var agentId := ResolveAgentId(dir, targetId, characterAgent).value;
      var text := Strip(playerText);
      r.value == Conclude(dir, h, agentId, text, generate(InputPrompt(dir, kbs, h, agentId, targetId, text)))
  {
    var text := Strip(playerText);
    if text == "" then Success(Processed(false, NoInputFeedback, h))
    else
      match ResolveAgentId(dir, targetId, characterAgent)
      case Failure(e) => Failure(e)
      case Success(agentId) =>
        Success(Conclude(dir, h, agentId, text, generate(InputPrompt(dir, kbs, h, agentId, targetId, text))))
  }

  /** For a non-blank input the history gains exactly one turn, under the
      resolved agent, holding the stripped input. */
  lemma ProcessInputRemembers(dir: Directory, kbs: Knowledge, h: History, playerText: string,
                              targetId: string, characterAgent: Option<string>,
                              generate: string -> string)
    requires !AllSpace(playerText) && |dir| > 0
    ensures var r := ProcessInput(dir, kbs, h, playerText, targetId, characterAgent, generate).value;
      var agentId := ResolveAgentId(dir, targetId, characterAgent).value;
      && r.feedback != "" && IsStripped(r.feedback)
      && TurnsOf(r.history, agentId)
         == TurnsOf(h, agentId) + [Turn(Strip(playerText), r.feedback, GetName(dir, agentId).value)]
      && (forall other :: other != agentId ==> TurnsOf(r.history, other) == TurnsOf(h, other))
  {
  }

  /** The user prompt of `get_character_response`. */
  function CharacterUserPrompt(context: string, rag: string, hist: string, name: string,
                               query: string): (r: string)
    ensures Contains(r, query)
    ensures Contains(r, ContextBlock([Section("Scene context:\n", context),
                                      Section("Relevant facts:\n", rag),
                                      Section("Earlier dialogue:\n", hist)],
                                     "No additional context."))
  {
    Frame("", ContextBlock([Section("Scene context:\n", context),
                            Section("Relevant facts:\n", rag),
                            Section("Earlier dialogue:\n", hist)],
                           "No additional context."),
      "\n\nThe player says: \"", query,
      "\"\n\nRespond in character as " + name + ", briefly (2\U{2013}4 sentences).")
  }

  /** What `get_character_response` does with the model's output: the
      response is non-empty and stripped, and one turn holding the query as
      given is remembered under the agent. */
  function ConcludeCharacter(dir: Directory, h: History, agentId: string, query: string,
                             out: string): (r: (string, History))
    requires |dir| > 0
    ensures r.0 != "" && IsStripped(r.0)
    ensures !AllSpace(out) ==> r.0 == Strip(out)
    ensures AllSpace(out) ==> r.0 == NoResponseText
    ensures TurnsOf(r.1, agentId) == TurnsOf(h, agentId) + [Turn(query, r.0, GetName(dir, agentId).value)]
    ensures forall other :: other != agentId ==> TurnsOf(r.1, other) == TurnsOf(h, other)
  {
    var response := OrFallback(out, NoResponseText);
    assert IsStripped(NoResponseText);
    (response, AddHistory(h, agentId, query, response, GetName(dir, agentId).value))
  }

  /** The chat prompt of `get_character_response`. */
  function CharacterPrompt(dir: Directory, kbs: Knowledge, h: History, agentId: string,
                           query: string, context: string): string
    requires |dir| > 0
  {
    ChatPrompt(GetSystemPrompt(dir, agentId).value,
      CharacterUserPrompt(context, GetRagContext(KnowledgeOf(kbs, agentId), query, 3),
        GetHistoryContext(h, agentId, 3), GetName(dir, agentId).value, query))
  }

  /** The prompt opens with the agent's system prompt and carries the query
      verbatim. */
  lemma CharacterPromptCarries(dir: Directory, kbs: Knowledge, h: History, agentId: string,
                               query: string, context: string)
    requires |dir| > 0
    ensures StartsWith(CharacterPrompt(dir, kbs, h, agentId, query, context),
                       SystemOpen + GetSystemPrompt(dir, agentId).value)
    ensures Contains(CharacterPrompt(dir, kbs, h, agentId, query, context), query)
  {
    var user := CharacterUserPrompt(context, GetRagContext(KnowledgeOf(kbs, agentId), query, 3),
      GetHistoryContext(h, agentId, 3), GetName(dir, agentId).value, query);
    ChatPromptCarries(GetSystemPrompt(dir, agentId).value, user, query);
  }

  /** `get_character_response`: the agent is resolved from the character id
      alone (no target), and unlike `process_input` there is no blank check
      and the query is used and remembered unstripped. */
  function CharacterResponse(dir: Directory, kbs: Knowledge, h: History, characterAgent: string,
                             query: string, context: string,
                             generate: string -> string): (r: Result<(string, History), string>)
    ensures r.Failure? <==> |dir| == 0
    ensures r.Success? ==>
      var agentId := ResolveAgentId(dir, "", Some(characterAgent)).value;
      r.value == ConcludeCharacter(dir, h, agentId, query,
        generate(CharacterPrompt(dir, kbs, h, agentId, query, context)))
  {
    match ResolveAgentId(dir, "", Some(characterAgent))
    case Failure(e) => Failure(e)
    case Success(agentId) =>
      Success(ConcludeCharacter(dir, h, agentId, query,
        generate(CharacterPrompt(dir, kbs, h, agentId, query, context))))
  }
}
