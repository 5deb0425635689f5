# HOLMES dialogue core in Dafny

HOLMES is a Ren'Py investigation game set in Paris in July 1789. The player
questions characters, and a local language model answers them. An editor and
an article evaluator judge the player's articles. This project models the
deterministic logic around the model call and proves properties about it:

- **`Text`** (`text.dfy`): the Python string operations the core relies on.
  These are `str.strip`, a fixed-alphabet `str.lower`, `startswith`,
  `str.join`, `str.split` on one character, decimal rendering of a number,
  and list slices `[:k]` / `[-k:]` for any integer `k`.
- **`Tokenizer`** (`tokenizer.dfy`): `_tokenize`. It lowercases, takes the
  maximal runs of the token alphabet, and drops the stopwords.
- **`Ranking`** (`ranking.dfy`): the stable descending sort on score.
- **`RagStore`** (`rag_store.dfy`): lexical retrieval from an agent's
  knowledge base, and the per-agent turn log with its "last N turns"
  rendering.
- **`Agents`** (`agents.py` → `agents.dfy`):
  - the agent directory and its lookup fallbacks;
  - role-specific system prompts;
  - resolution of a target id to an agent id.
- **`DialogueLogic`** (`dialogue_logic.dfy`):
  - the chat template and the three user-prompt builders;
  - `process_input`: blank check, role dispatch, feedback normalisation, success classification by prefix, history append;
  - `get_character_response`.
- **`PlayerOptions`** (`player_options.dfy`): the parser for "Option N: …"
  lines, and the fallback and cap that produce two to four reply options.
- **`DialogueManager`** (`dialogue_manager.dfy`): the dialogue state machine.
  - It keeps per-agent exchange lists and a cursor on two axes: exchange index and option index.
  - Operations: start, switch, clear and navigation.
  - The background generation thread is split into two explicit transitions. `Work` computes the outcome and `Complete` stores it.
- **`Progression`** (`progression.dfy`): the unlock and completion lists and
  their queries.
- **`GameData`** (`game_data.dfy`): the primary-stage choice, and the
  first-match searches over nested stage / area / interaction data.
- **`Wrappers`** (`wrappers.dfy`): `Option`, `Result`, and Python truthiness
  of an optional string.

How the outside world is represented:

- **The language model.** `generate_sync` is a total function parameter
  `string -> string`. It is `generate` or `answer` for the main call, and
  `suggest` for the option call made with `max_tokens=100`.
- **Loaded data.** Knowledge bases, the agent directory, the turn log, the
  world map and the persisted progression are passed in as values.
- **Exceptions.** An exception that escapes an operation is a value.
  The `Failure` of `GetAgent`, `GetRole`, `GetName` and `GetSystemPrompt`
  carries the `KeyError`'s argument. The `Failure` of `ResolveAgentId`, and
  hence of `ProcessInput` and `CharacterResponse`, carries "", the empty
  message of the `StopIteration` that `next(iter(agents.keys()))` raises.
  `Crashed` and `StartRaised` (DialogueManager) carry `str(e)`, written
  `KeyErrorText`. `Raised` (PlayerOptions) carries an arbitrary message.

## Model

| member | source | states |
|---|---|---|
| Text.Strip | game/python/dialogue_logic.py:101 | the result has no leading or trailing whitespace, is no longer than the input, and is empty exactly when the input is all whitespace |
| Text.StripPadded | game/python/dialogue_manager.py:172-173 | stripping whitespace + x + whitespace gives back x when x is already stripped |
| Text.StripIdempotent | game/python/dialogue_manager.py:172-173 | stripping twice is stripping once |
| Text.Lower | game/python/rag_store.py:31 | lowercasing maps each character independently and keeps the length |
| Text.LowerAppend | game/python/rag_store.py:31 | lowercasing distributes over concatenation |
| Text.FoldedPrefixIsLowerPrefix | game/python/dialogue_logic.py:123-130 | `lower().startswith(p)` holds exactly when each of the first \|p\| characters lowercases to the matching character of p |
| Text.Split | game/python/dialogue_manager.py:172 | splitting on a character yields at least one piece, and no piece contains the separator |
| Text.SplitJoin | game/python/dialogue_manager.py:172 | splitting a join of separator-free pieces on that separator gives the pieces back |
| Text.SliceTo | game/python/rag_store.py:83 | `s[:j]` is a prefix of s whose length follows Python's rules for non-negative and negative j |
| Text.SliceFrom | game/python/rag_store.py:100 | `s[i:]` is a suffix of s whose length follows Python's rules for non-negative and negative i |
| Tokenizer.RunLength | game/python/rag_store.py:31 | a token run is the longest prefix of token characters |
| Tokenizer.Runs | game/python/rag_store.py:31 | every run is a non-empty word of the token alphabet built from characters of the text |
| Tokenizer.DropStopwords | game/python/rag_store.py:32 | the kept tokens are tokens of the input and none is a stopword |
| Tokenizer.DropStopwordsAppend | game/python/rag_store.py:32 | the stopword filter distributes over concatenation |
| Tokenizer.Tokenize | game/python/rag_store.py:29-32 | every token is a word of the alphabet, is not a stopword, and is made of characters of the lowercased text |
| Tokenizer.RunsSeparated | game/python/rag_store.py:31 | a non-token character splits the runs: runs(a + c + b) = runs(a) + runs(b) |
| Tokenizer.RunsOfWord | game/python/rag_store.py:31 | a word is its own single run |
| Tokenizer.TokenizeSpaced | game/python/rag_store.py:74 | tokenizing `text + " " + tags` is tokenizing each side and concatenating |
| Tokenizer.TokenizeJoined | game/python/rag_store.py:73-74 | tokenizing a space-joined tag list is concatenating the tokens of each tag |
| Tokenizer.TokenizeWord | game/python/rag_store.py:29-32 | a lowercase word that is not a stopword tokenizes to itself |
| Ranking.Insert | game/python/rag_store.py:82 | insertion adds exactly one element and keeps the others (multiset) |
| Ranking.InsertRanked | game/python/rag_store.py:82 | inserting an entry that precedes all ranked entries in knowledge-base order keeps the order (descending score, ties by position) |
| Ranking.SortByScore | game/python/rag_store.py:82 | the sort is a permutation of its input |
| Ranking.SortRanked | game/python/rag_store.py:82 | on entries in knowledge-base order the sort yields descending scores with ties in knowledge-base order (stability) |
| RagStore.ScoreMeaning | game/python/rag_store.py:72-75 | a score never exceeds the number of distinct query tokens, and is zero exactly when the entry shares none of them |
| RagStore.ScoresOfMeaning | game/python/rag_store.py:70-77 | every entry's score is bounded by the query's token count, and the entries scoring zero (and so dropped at line 76) are exactly those sharing no query token |
| RagStore.ScoredFrom | game/python/rag_store.py:70-77 | the scoring loop keeps only entries with positive score, each with its own text, in knowledge-base order |
| RagStore.ScoredFromComplete | game/python/rag_store.py:76-77 | every entry with positive score is kept |
| RagStore.RankEntries | game/python/rag_store.py:70-82 | the ranking holds exactly the positive-score entries, with their scores and texts, in stable descending order |
| RagStore.TopChunks | game/python/rag_store.py:82-83 | at most max_chunks entries, ranked, each with a positive score and its text verbatim |
| RagStore.TopChunksComplete | game/python/rag_store.py:82-83 | a positive-score entry left out means the selection is full and every selected entry ranks before it |
| RagStore.EarlyReturnsAgree | game/python/rag_store.py:62-80 | in each early-return case (empty base, no query tokens, no positive score) nothing is scored, and nothing scored means nothing is selected |
| RagStore.RagContextIsRenderedTop | game/python/rag_store.py:57-84 | the context is the bullet rendering of the top entries |
| RagStore.RenderShape | game/python/rag_store.py:84 | the rendering is empty iff there are no entries, and otherwise starts with "- " and the first entry's text |
| RagStore.RagContextEarlyEmpty | game/python/rag_store.py:62-80 | an empty knowledge base, a query without tokens, or no positive score gives "" |
| RagStore.RagContextShape | game/python/rag_store.py:79-84 | the context is "" iff no entry is selected; otherwise it starts with "- " and the best entry's text |
| RagStore.AddHistory | game/python/rag_store.py:86-93 | exactly one turn (input, response, agent name) is appended to that agent's log, and every other log is unchanged |
| RagStore.RecentTurnsWindow | game/python/rag_store.py:100 | `history[-max_turns:]` is a suffix of the log: the last max_turns turns for max_turns ≥ 1, the whole log for 0 (Python's `[-0:]`), and a shorter suffix for negative values |
| RagStore.HistoryLines | game/python/rag_store.py:100-106 | for a positive max_turns, exactly min(max_turns, len) lines rendering the agent's latest turns, oldest first; for max_turns 0 one line per turn of the whole log |
| RagStore.GetHistoryContext | game/python/rag_store.py:95-98 | an agent with no turns has the empty context |
| RagStore.TurnLineSingle | game/python/rag_store.py:103-106 | a turn without newlines renders as a single line |
| RagStore.HistoryContextLines | game/python/rag_store.py:95-107 | for max_turns ≥ 1, splitting the context on "\n" gives min(max_turns, number of turns) lines, which are the last turns rendered oldest first |
| Agents.Lookup | game/python/agents.py:41 | `agents.get(id)` succeeds exactly for ids of the directory, and returns the profile stored under that id |
| Agents.LoadAgents | game/python/agents.py:23-35 | the directory never repeats an id, and a load failure yields a directory with the single id `default_field`, whose role is "field" |
| Agents.LookupStored | game/python/agents.py:41 | in a directory without repeated ids, `agents.get` finds every stored profile under its own id |
| Agents.GetAgent | game/python/agents.py:38-52 | the id's own profile, else `default_field`'s, else the first profile; it raises exactly when the directory is empty |
| Agents.GetRole | game/python/agents.py:57-59 | the resolved profile's role, "field" when missing; it raises exactly on an empty directory |
| Agents.GetName | game/python/agents.py:61-63 | the resolved profile's name, or the requested id when that profile has no name |
| Agents.SystemPrompt | game/python/agents.py:67-93 | personality + "\n" + the fixed text for field / editor / article_evaluator, the bare personality for other roles, and a missing role treated as field |
| Agents.GetSystemPrompt | game/python/agents.py:65-69 | the system prompt of the resolved profile; it raises exactly on an empty directory |
| Agents.EditorPromptStatesContract | game/python/agents.py:77-84 | the editor prompt contains 'Good article:' and 'Try again:' |
| Agents.EvaluatorPromptStatesContract | game/python/agents.py:85-92 | the evaluator prompt contains 'Good answer:' and 'Try again:' |
| Agents.MapTarget | game/python/agents.py:123-124 | a found mapping is an entry of the table; not found means no entry has that target |
| Agents.MapTargetFinds | game/python/agents.py:123-124 | with distinct targets, the lookup returns the entry's mapped id |
| Agents.TargetTableDistinct | game/python/agents.py:97-109 | the target table's keys are distinct |
| Agents.ResolveAgentId | game/python/agents.py:111-131 | a present non-empty explicit agent wins; the result is always an id of the directory; it raises exactly on an empty directory |
| Agents.ResolveByTarget | game/python/agents.py:123-129 | without a usable explicit agent, a mapped target whose agent exists resolves to that agent; otherwise to `default_field` when present |
| Agents.EditorOfficeResolves | game/python/agents.py:107-126 | "editor_office" resolves to "editor_in_chief" when that agent exists |
| Agents.ResolveFallback | game/python/agents.py:120-131 | with no usable explicit id (missing, empty or unknown) and no mapped agent in the directory (unmapped target, or mapped agent missing), resolution gives `default_field` when present, else the first id |
| Agents.EmptyTargetUnmapped | game/python/agents.py:97-109 | the empty target, which `get_character_response` passes, has no entry in the target table, so an unknown character resolves by the fallback |
| DialogueLogic.ChatPromptLayout | game/python/dialogue_logic.py:18-22 | the prompt is the system delimiter, the system text, the user delimiter, the user text and the open assistant turn, in that order |
| DialogueLogic.ChatPromptInjective | game/python/dialogue_logic.py:18-22 | with system texts of equal length, equal prompts have equal system and user texts |
| DialogueLogic.ChatPromptCarries | game/python/dialogue_logic.py:118 | the prompt starts with the system part and contains everything the user text contains |
| DialogueLogic.PresentSections | game/python/dialogue_logic.py:38-42 | the kept parts are none exactly when every body is empty, and all of them exactly when no body is |
| DialogueLogic.PresentSectionsAppend | game/python/dialogue_logic.py:38-42 | the parts kept from a concatenation are those kept from each side, in order |
| DialogueLogic.PresentSectionsOne | game/python/dialogue_logic.py:38-41 | one part is kept, header before body, exactly when its body is non-empty |
| DialogueLogic.ContextBlockTwo | game/python/dialogue_logic.py:38-44 | the two headed parts joined by a blank line, only the present one, or the fallback when both are empty |
| DialogueLogic.ContextBlockThree | game/python/dialogue_logic.py:149-157 | in each of the eight present/absent cases, the present parts in the order scene, facts, earlier dialogue, separated by blank lines; the fallback only when all three are empty |
| DialogueLogic.FieldUserPrompt | game/python/dialogue_logic.py:34-52 | begins with the location line and contains the field context block and the player's words |
| DialogueLogic.EditorUserPrompt | game/python/dialogue_logic.py:54-74 | contains the editor context block ("No prior submissions." fallback) and the article |
| DialogueLogic.EvaluatorUserPrompt | game/python/dialogue_logic.py:76-88 | contains the retrieved notes or "No external context.", and the article |
| DialogueLogic.UserPrompt | game/python/dialogue_logic.py:111-116 | "editor" gets the editor builder, "article_evaluator" the evaluator builder, every other role the field builder; each contains the player's text |
| DialogueLogic.OrFallback | game/python/dialogue_logic.py:121 | the stripped model output, or the fallback when the output is blank |
| DialogueLogic.ClassifyIsPrefixTest | game/python/dialogue_logic.py:123-130 | success is a case-insensitive prefix test against "good article:" for editor and "good answer:" for every other role |
| DialogueLogic.EditorAcceptsGoodArticle | game/python/dialogue_logic.py:124-125 | editor feedback starting "Good article:" succeeds |
| DialogueLogic.EditorAcceptsCapitals | game/python/dialogue_logic.py:123-125 | the test ignores case |
| DialogueLogic.OthersAcceptGoodAnswer | game/python/dialogue_logic.py:126-130 | for every non-editor role, feedback starting "Good answer:" succeeds |
| DialogueLogic.EditorRejectsGoodAnswer | game/python/dialogue_logic.py:124-125 | the editor does not accept "Good answer:" |
| DialogueLogic.TryAgainRejected | game/python/dialogue_logic.py:123-130 | "Try again:" never succeeds |
| DialogueLogic.InputPromptCarries | game/python/dialogue_logic.py:107-118 | the prompt starts with the resolved agent's system prompt and contains the player's text and the context block of the agent's role: the editor block, the evaluator's notes, or the field block with the location line |
| DialogueLogic.Conclude | game/python/dialogue_logic.py:120-133 | feedback is the stripped output or "[No output from model.]"; ok is the role's prefix test; exactly one turn is appended for the agent |
| DialogueLogic.ProcessInput | game/python/dialogue_logic.py:94-136 | blank input gives (False, "No input provided.") with the log untouched; otherwise it raises exactly on an empty directory, and else concludes on the stripped text |
| DialogueLogic.ProcessInputRemembers | game/python/dialogue_logic.py:101-133 | every non-blank call appends exactly one turn, sentinel feedback included, and touches no other agent |
| DialogueLogic.CharacterUserPrompt | game/python/dialogue_logic.py:149-163 | contains the query and the scene → facts → dialogue context block |
| DialogueLogic.ConcludeCharacter | game/python/dialogue_logic.py:166-169 | the stripped output or "[No response from model.]", and one turn appended |
| DialogueLogic.CharacterPromptCarries | game/python/dialogue_logic.py:143-165 | the prompt starts with the system prompt and contains the query |
| DialogueLogic.CharacterResponse | game/python/dialogue_logic.py:138-170 | raises exactly on an empty directory; otherwise resolves the explicit agent with an empty target and concludes on the model output |
| PlayerOptions.ParseLine | game/python/dialogue_manager.py:173-180 | a kept option is non-empty and stripped; a line without ':' gives nothing |
| PlayerOptions.ParseLineAfter | game/python/dialogue_manager.py:173-180 | a stripped line whose first ':' follows a colon-free head yields the stripped text after that colon, or nothing when that text is blank |
| PlayerOptions.ParseLines | game/python/dialogue_manager.py:172-181 | at most one option per line, each non-empty and stripped |
| PlayerOptions.ParseLinesAppend | game/python/dialogue_manager.py:172-181 | parsing distributes over concatenation of line lists (order kept, no dedup) |
| PlayerOptions.ParseOptions | game/python/dialogue_manager.py:169-181 | no more options than lines, each non-empty and stripped |
| PlayerOptions.PlainLineParses | game/python/dialogue_manager.py:173-180 | "head: option" with a plain head parses to the option |
| PlayerOptions.OptionLineShape | game/python/dialogue_manager.py:173-180 | "Option N: o" is a stripped single line that parses back to o |
| PlayerOptions.ParseOptionLines | game/python/dialogue_manager.py:172-181 | parsing the "Option N: …" lines gives the options back, in order |
| PlayerOptions.ParseRendered | game/python/dialogue_manager.py:169-181 | round trip: parsing the rendered "Option 1: …\nOption 2: …" text gives back any list of well-formed options |
| PlayerOptions.ParseThreeOptions | game/python/dialogue_manager.py:169-181 | the three-option example parses to its three texts |
| PlayerOptions.ChooseOptions | game/python/dialogue_manager.py:152-159 | fewer than two parsed options give the fixed three-item fallback; otherwise the first min(n, 4) options; always 2 to 4 |
| PlayerOptions.GeneratePlayerOptions | game/python/dialogue_manager.py:147-167 | 2 to 4 non-empty options; an exception gives the other fixed list ending "I understand." |
| PlayerOptions.GenerateFromRendered | game/python/dialogue_manager.py:148-159 | a model answer rendering 2 to 4 well-formed options yields exactly those options |
| PlayerOptions.OptionsUserPrompt | game/python/dialogue_manager.py:139-143 | the option request contains the player's input and the agent's response |
| DialogueManager.InitialInv | game/python/dialogue_manager.py:44-49 | a new manager satisfies the cursor invariant |
| DialogueManager.GetCurrentExchange | game/python/dialogue_manager.py:183-191 | an exchange exactly when the current agent is truthy, has a list, and the index is valid; then the indexed one |
| DialogueManager.GetCurrentOption | game/python/dialogue_manager.py:193-198 | the selected option exactly when there is a current exchange and the option index is in range |
| DialogueManager.SelectCurrentOption | game/python/dialogue_manager.py:238-243 | the current option, or "" when there is none |
| DialogueManager.IsViewingPast | game/python/dialogue_manager.py:284-291 | true iff the current agent's list is non-empty and the index is before its last exchange |
| DialogueManager.GetHistory | game/python/dialogue_manager.py:293-298 | the given agent's list, else the current agent's, else [] |
| DialogueManager.NextOption | game/python/dialogue_manager.py:200-209 | moves (by one) exactly when there is a current exchange and a later option; reports whether it moved and changes nothing else |
| DialogueManager.PrevOption | game/python/dialogue_manager.py:211-216 | moves back by one exactly when the index is positive; reports whether it moved |
| DialogueManager.PrevUndoesNext | game/python/dialogue_manager.py:200-216 | a successful next_option is undone by prev_option |
| DialogueManager.NextUndoesPrev | game/python/dialogue_manager.py:200-216 | under the invariant, a successful prev_option is undone by next_option |
| DialogueManager.NextExchange | game/python/dialogue_manager.py:218-228 | moves forward by one and resets the option exactly when the current agent has a later exchange |
| DialogueManager.PrevExchange | game/python/dialogue_manager.py:230-236 | moves back by one and resets the option exactly when the index is positive |
| DialogueManager.PrevUndoesNextExchange | game/python/dialogue_manager.py:218-236 | a successful next_exchange is undone by prev_exchange, up to the option reset |
| DialogueManager.NextUndoesPrevExchange | game/python/dialogue_manager.py:218-236 | a successful prev_exchange is undone by next_exchange when the current agent is truthy |
| DialogueManager.ViewingPastIffNextMoves | game/python/dialogue_manager.py:284-291 | under the invariant, viewing the past is exactly "next_exchange would move" |
| DialogueManager.OptionMovesKeepInv | game/python/dialogue_manager.py:200-216 | option moves keep the invariant, so the option index stays within [0, max(0, len − 1)] |
| DialogueManager.ExchangeMovesKeepInv | game/python/dialogue_manager.py:218-236 | exchange moves keep the invariant |
| DialogueManager.SwitchCurrent | game/python/dialogue_manager.py:61-65 | the agent becomes current and gets a list if it had none; other lists and the cursor are untouched |
| DialogueManager.StartExchange | game/python/dialogue_manager.py:51-78 | blank input (after strip) is exactly the no-op case; it raises exactly when the directory is empty, or when the agent is already current but has no list |
| DialogueManager.StartAppendsOne | game/python/dialogue_manager.py:56-73 | a started exchange holds the stripped input; exactly one exchange is appended to that agent's list; no other list changes; the cursor is (len − 1, 0); both generating flags are set |
| DialogueManager.StartKeepsInv | game/python/dialogue_manager.py:51-78 | a successful start keeps the invariant |
| DialogueManager.StartRaisedBreaksInv | game/python/dialogue_manager.py:61-67 | as written, a start that raises after switching agents leaves a manager that breaks the invariant (see Findings) |
| DialogueManager.StartExchangeResolved | game/python/dialogue_manager.py:56-73 | the corrected start: when it raises, the manager is unchanged; otherwise it behaves as the source |
| DialogueManager.StartResolvedKeepsInv | game/python/dialogue_manager.py:56-73 | the corrected start keeps the invariant in every outcome |
| DialogueManager.WorkerPromptCarries | game/python/dialogue_manager.py:86-96 | the worker prompt starts with the agent's system prompt and contains the player's input (the field builder is used for every role) |
| DialogueManager.ConcludeWork | game/python/dialogue_manager.py:99-111 | the response is the stripped answer or "[No response from model.]"; 2 to 4 options; exactly one turn remembered |
| DialogueManager.Work | game/python/dialogue_manager.py:84-115 | with an empty directory the thread crashes with the KeyError text and remembers nothing |
| DialogueManager.ApplyResult | game/python/dialogue_manager.py:100-117 | success stores response and options, an error stores "[Error: …]" and no options; either way generating ends false |
| DialogueManager.CompleteList | game/python/dialogue_manager.py:113-117 | the exchange with the thread's ticket stops generating and receives the result, every other exchange is unchanged, order and tickets are kept, and with unique tickets at most one exchange changes |
| DialogueManager.Complete | game/python/dialogue_manager.py:116-118 | the thread's exchange receives the result, other agents and the cursor are untouched, and the manager stops generating |
| DialogueManager.CompleteKeepsInv | game/python/dialogue_manager.py:113-118 | storing the outcome of a pending exchange keeps the invariant |
| DialogueManager.ThreadOutcome | game/python/dialogue_manager.py:84-118 | success: stripped response or fallback, 2 to 4 options, exactly one history turn; error: "[Error: …]", no options, no turn; both end not generating |
| DialogueManager.ConcludeOutcome | game/python/dialogue_manager.py:99-111 | the success branch of the thread for any model answer |
| DialogueManager.SwitchAgent | game/python/dialogue_manager.py:269-282 | another agent becomes current at its last exchange (or −1) with option 0; the same agent is a no-op; no list changes |
| DialogueManager.SwitchKeepsInv | game/python/dialogue_manager.py:269-282 | switching keeps the invariant |
| DialogueManager.ClearOne | game/python/dialogue_manager.py:249-253 | empties only that agent's list and resets the cursor only if it is current |
| DialogueManager.ClearDialogue | game/python/dialogue_manager.py:245-260 | with an id, clears that agent; without, drops every list and the current agent; generating ends false |
| DialogueManager.ClearHistory | game/python/dialogue_manager.py:300-307 | clears the given or current agent when it has a list, and otherwise changes nothing |
| DialogueManager.ClearOneKeepsInv | game/python/dialogue_manager.py:249-253 | clearing one agent keeps the invariant |
| DialogueManager.ClearDialogueKeepsInv | game/python/dialogue_manager.py:245-260 | clear_dialogue keeps the invariant |
| DialogueManager.ClearHistoryKeepsInv | game/python/dialogue_manager.py:300-307 | clear_history keeps the invariant |
| Progression.Load | game/python/progression.py:10-22 | every query after loading answers exactly as the stored lists do (nothing is unlocked for a missing key or no saved data), and the state is duplicate-free whenever the stored lists are |
| Progression.AddOnce | game/python/progression.py:31-32 | the id is present afterwards; the members are the old ones plus the id; it is appended at the end only when absent |
| Progression.AddOnceIdempotent | game/python/progression.py:29-33 | adding the same id twice is adding it once |
| Progression.AddOnceNoDuplicates | game/python/progression.py:31-32 | a duplicate-free list stays duplicate-free |
| Progression.AddOnceCommutesAsSet | game/python/progression.py:29-39 | the order of two additions does not change which ids are recorded |
| Progression.UnlockStage | game/python/progression.py:29-33 | only the stage list changes, by adding the id once |
| Progression.UnlockArea | game/python/progression.py:35-39 | only the area list changes, by adding the id once |
| Progression.CompleteInteraction | game/python/progression.py:49-53 | only the interaction list changes, by adding the id once |
| Progression.UnlockStageQueries | game/python/progression.py:29-47 | afterwards the stage is unlocked, other stages answer as before, and the other two queries are unchanged |
| Progression.UnlockAreaQueries | game/python/progression.py:35-47 | afterwards the area is unlocked, other areas answer as before, and the other queries are unchanged |
| Progression.CompleteInteractionQueries | game/python/progression.py:41-57 | afterwards the interaction is completed, and the rest answer as before |
| Progression.MutatorsIdempotent | game/python/progression.py:29-53 | repeating any unlock or completion changes nothing |
| Progression.MutatorsKeepInv | game/python/progression.py:29-53 | duplicate-free lists stay duplicate-free under every mutator |
| Progression.FreshProgress | game/python/progression.py:12-16 | a fresh game has nothing unlocked or completed |
| GameData.FirstDefault | game/python/game_data.py:41-44 | the first stage whose default_unlocked is truthy, or none when no stage has it |
| GameData.PrimaryStage | game/python/game_data.py:39-47 | None with no stages; the first stage's id when no stage is default-unlocked |
| GameData.PrimaryStageOfDefault | game/python/game_data.py:41-47 | the first default-unlocked stage's id when truthy, else the first stage's id |
| GameData.ParseData | game/python/game_data.py:33-47 | title and image from the world map with their defaults, and the primary stage of its stages |
| GameData.PrimaryStageExists | game/python/game_data.py:39-47 | a primary id is some stage's id, and a truthy one is found by get_stage |
| GameData.GetStage | game/python/game_data.py:66-74 | None exactly when no stage has the id; otherwise a stage with that id |
| GameData.GetStageIsFirst | game/python/game_data.py:71-73 | the stage found is the first one with the id |
| GameData.GetStageAreas | game/python/game_data.py:82-87 | [] for an unknown stage, else that stage's stored areas |
| GameData.FirstMatch | game/python/game_data.py:59-64 | the shared `for … if x.get("id") == id: return x` loop: None exactly when no element has the id, otherwise an element of the list with that id |
| GameData.FirstMatchIsFirst | game/python/game_data.py:71-73 | the element found is the first one with the id |
| GameData.FirstMatchAppend | game/python/game_data.py:59-64 | searching a concatenation finds the left part's match if there is one, else the right part's |
| GameData.GetAreaIsFirstOfAll | game/python/game_data.py:54-64 | the nested scan returns the first matching area of the flattened list, stages in order then areas in order |
| GameData.GetAreaFound | game/python/game_data.py:54-64 | None exactly when no area anywhere has the id; otherwise an area with that id |
| GameData.GetAreaInteractions | game/python/game_data.py:89-94 | [] for an unknown area, else that area's stored interactions |
| GameData.GetInteractions | game/python/game_data.py:89-98 | the interactions of the first area with the id in the flattened stage-then-area order, [] when no area has it, and only interactions of the world |
| GameData.AreaStageAgrees | game/python/game_data.py:100-110 | None when no area matches; otherwise the id of the first stage holding a matching area, the stage that holds get_area's result |
| GameData.ResolveAreaId | game/python/game_data.py:49-52 | resolution does not change what get_area finds |
| GameData.InteractionInAreasIsFirst | game/python/game_data.py:118-123 | the two inner loops return the first match among the areas' interactions |
| GameData.GetInteractionIsFirstOfAll | game/python/game_data.py:112-124 | the three nested loops return the first match of the flattened list of all interactions |
| GameData.GetInteractionFound | game/python/game_data.py:112-124 | None exactly when no interaction anywhere has the id; otherwise an interaction with that id |

## Left out

- Threading: the `threading.Thread` spawn (dialogue_manager.py:123-125) and its interleaving are not modelled. Worker completion is the sequential pair `Work` / `Complete`, and the race on the manager-wide flag is not modelled.
- The language model backend (`llm_local_bind.py`): `generate_sync` is an arbitrary total function. Generation settings such as `max_tokens` and the sampling constants of `dialogue_config.py` are not modelled.
- File, JSON and persistence I/O are not modelled; their results are parameters:
  - `_load_agents`, `_load_kb` and its cache;
  - `GameData.__init__` through `renpy.open_file`;
  - `Progression.save` (a no-op here).
- The Ren'Py store writes of `process_input` and all `print` logging are not modelled.
- The module-level singleton managers are not modelled. The manager is an explicit value.
- `dialogue_helpers.py`, `dialogue_config.py` and `inspect_persistent.py` are not part of this model.
- `get_all_agents`, `get_history_summary`, `DialogueExchange.to_dict` and `iter_stage_entries` are not modelled. They return stored data unchanged or serialise it.
- Text.Lower: lowercases ASCII capitals and the capitals of the accented token letters (É È Ê À Ù Ï Û Ç) only, not all of Unicode `str.lower`. Every other character is kept as it is. This differs where full case mapping yields a token letter, such as the Kelvin sign becoming 'k'.
- DialogueManager.KeyErrorText: models `str(KeyError(key))` as the key in single quotes, or in double quotes when it contains only single quotes. Backslash escapes of `repr` are not modelled.
- DialogueManager.Work: `generate_sync` never raises in the source, and the model has no other way for the call to fail than an empty agent directory. In the source that directory is fixed for the process, so a thread never meets it after a successful start; the model states the branch for any directory it is given.
- DialogueManager: the source loads the agent directory once per process and caches it, the empty one included (agents.py:15-36). The model passes the directory to each call instead, so it also admits sequences in which the directory changes between calls. `Work` with an empty directory after a successful start is one; the witness of `StartRaisedBreaksInv` is another.
- GameData: JSON values of unexpected types are not modelled. Examples are a stage that is not an object, or an `id` that is a number. Looked-up ids are strings, so an object without an `id` never matches.
- GameData.ParseData: a load failure leaves the constructor's defaults. That is the same result as parsing a content object without `world_map`, so both are the `None` case.
- Agents: a JSON `null` is not modelled. A directory entry is always a profile, and a profile field is present or missing. In the source a `null` profile makes `get_agent` fall through to `default_field` (agents.py:41-43), and `"role": null` makes `get_role` answer None instead of "field" (agents.py:59, 69); the model has no value for either case.
- Agents: a directory is a parsed JSON object, so its ids are distinct (`DistinctIds`). Where a duplicate key occurs in the file, `json.load` keeps one value per key; that step belongs to the loading I/O above.
- RagStore: a knowledge-base entry whose `text` or `tags` is not a string or a list of strings is not modelled.

## Findings

| source | as written | input that shows it | evidently intended | confidence | as-written member | corrected member |
|---|---|---|---|---|---|---|
| game/python/dialogue_manager.py:61-67 | `start_exchange` switches the current agent and creates its list before `get_name` runs, so when `get_name` raises the manager is left with the new agent current but the previous agent's exchange index | `agents.json` holding `{"a": {"name": "A"}, "b": 42}`; two starts for "a", then `start_exchange("Hello", "b")`: "b" is made current with an empty list, `get_name` raises `AttributeError` on the integer profile (agents.py:61-63), and the index stays 1, so `prev_exchange` then moves on an empty list. Profiles that are not objects are outside the model, so `StartRaisedBreaksInv` reaches the same state by handing that call an empty directory, which the source's once-loaded directory cannot produce | a start that raises leaves the manager unchanged (or resets the cursor with the switch) | low — not executed; needs a malformed `agents.json` | DialogueManager.StartRaisedBreaksInv | DialogueManager.StartExchangeResolved |
