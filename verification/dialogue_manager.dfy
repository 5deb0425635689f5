/** The dialogue navigation state machine (game/python/dialogue_manager.py,
    `DialogueExchange` and `DialogueManager`): per-agent lists of exchanges
    that only ever grow or are emptied, and a two-axis cursor made of an
    exchange index and an option index.

    The manager is a value and every operation returns the new value. The
    background thread of `_generate_agent_response_async` is split into
    `Work`, which computes what the thread would produce, and `Complete`,
    which stores it: any interleaving of the thread with the player's
    navigation is a sequence of these transitions. Exchanges are mutable
    objects shared between the manager and the thread in the source; here
    each exchange carries a `ticket` standing for its identity, so that the
    thread updates the very exchange it was started for, or nothing when a
    clear has dropped it. */
module DialogueManager {
  import opened Wrappers
  import opened Text
  import opened Agents
  import opened RagStore
  import opened DialogueLogic
  import opened PlayerOptions

  // ---------------------------------------------------------------------
  // State
  // ---------------------------------------------------------------------

  /** `DialogueExchange`: the player's words, the agent's answer and the
      reply options; `generating` is true until the thread finishes. */
  datatype Exchange = Exchange(
    ticket: nat,
    playerInput: string,
    agentId: string,
    agentName: string,
    response: string,
    options: seq<string>,
    generating: bool)

  /** `DialogueManager`. `exchangeIndex` is a Python int: -1 means no
      exchange is shown. `nextTicket` only numbers exchanges. */
  datatype Manager = Manager(
    histories: map<string, seq<Exchange>>,
    current: Option<string>,
    exchangeIndex: int,
    optionIndex: nat,
    generating: bool,
    nextTicket: nat)

  /** `DialogueManager()`. */
  const Initial: Manager := Manager(map[], None, -1, 0, false, 0)

  /** The exchanges stored for an agent, none when it has no list. */
  function ListOf(m: Manager, agentId: string): seq<Exchange> {
    if agentId in m.histories then m.histories[agentId] else []
  }

  // ---------------------------------------------------------------------
  // The invariant
  // ---------------------------------------------------------------------

  /** The exchange index is -1 when there is no current agent or its list
      is empty, and a valid index of that list otherwise. */
  predicate CursorOk(m: Manager) {
    && (m.current.None? ==> m.exchangeIndex == -1)
    && (m.current.Some? ==>
          && m.current.value in m.histories
          && (|m.histories[m.current.value]| == 0 ==> m.exchangeIndex == -1)
          && (|m.histories[m.current.value]| > 0 ==>
                0 <= m.exchangeIndex < |m.histories[m.current.value]|))
  }

  /** Every exchange sits in its own agent's list, lists are in ticket
      order, and an exchange still being generated has neither answer nor
      options yet. */
  predicate WellFormedList(xs: seq<Exchange>, agentId: string, nextTicket: nat) {
    && (forall k :: 0 <= k < |xs| ==>
          && xs[k].agentId == agentId && xs[k].ticket < nextTicket
          && (xs[k].generating ==> xs[k].response == "" && xs[k].options == []))
    && (forall j, k :: 0 <= j < k < |xs| ==> xs[j].ticket < xs[k].ticket)
  }

  predicate ListsOk(m: Manager) {
    forall a :: a in m.histories ==> WellFormedList(m.histories[a], a, m.nextTicket)
  }

  /** The largest option index the shown exchange allows. */
  function MaxOption(m: Manager): nat {
    match GetCurrentExchange(m)
    case Some(ex) => if |ex.options| > 0 then |ex.options| - 1 else 0
    case None => 0
  }

  predicate Inv(m: Manager) {
    CursorOk(m) && ListsOk(m) && m.optionIndex <= MaxOption(m)
  }

  lemma InitialInv()
    ensures Inv(Initial)
  {
  }

  // ---------------------------------------------------------------------
  // Queries
  // ---------------------------------------------------------------------

  /** `get_current_exchange`: the exchange under the cursor, if the current
      agent is set (and not "") and the index is inside its list. */
  function GetCurrentExchange(m: Manager): (r: Option<Exchange>)
    ensures r.Some? <==>
      Truthy(m.current) && m.current.value in m.histories
      && 0 <= m.exchangeIndex < |m.histories[m.current.value]|
    ensures r.Some? ==> r.value == m.histories[m.current.value][m.exchangeIndex]
  {
    if !Truthy(m.current) || m.current.value !in m.histories then None
    else
      var xs := m.histories[m.current.value];
      if 0 <= m.exchangeIndex < |xs| then Some(xs[m.exchangeIndex]) else None
  }

  /** `get_current_option`. */
  function GetCurrentOption(m: Manager): (r: Option<string>)
    ensures r.Some? <==>
      GetCurrentExchange(m).Some? && m.optionIndex < |GetCurrentExchange(m).value.options|
    ensures r.Some? ==> r.value == GetCurrentExchange(m).value.options[m.optionIndex]
  {
    match GetCurrentExchange(m)
    case Some(ex) =>
      if m.optionIndex < |ex.options| then Some(ex.options[m.optionIndex]) else None
    case None => None
  }

  /** `select_current_option`: the selected option, "" when there is none. */
  function SelectCurrentOption(m: Manager): (r: string)
    ensures GetCurrentOption(m).Some? ==> r == GetCurrentOption(m).value
    ensures GetCurrentOption(m).None? ==> r == ""
  {
    match GetCurrentOption(m)
    case Some(o) => if o != "" then o else ""
    case None => ""
  }

  /** `is_viewing_past`: a later exchange of the current agent exists. */
  function IsViewingPast(m: Manager): (r: bool)
    ensures r <==>
      Truthy(m.current) && m.current.value in m.histories
      && |m.histories[m.current.value]| > 0
      && m.exchangeIndex < |m.histories[m.current.value]| - 1
  {
    if !Truthy(m.current) || m.current.value !in m.histories then false
    else
      var xs := m.histories[m.current.value];
      if |xs| == 0 then false else m.exchangeIndex < |xs| - 1
  }

  /** `agent_id or self.current_agent_id`. */
  function TargetAgent(m: Manager, agentId: Option<string>): Option<string> {
    if Truthy(agentId) then agentId else m.current
  }

  /** `get_history`: the stored list of the named agent, or of the current
      one when none (or "") is named; empty when that agent has no list. */
  function GetHistory(m: Manager, agentId: Option<string>): (r: seq<Exchange>)
    ensures Truthy(agentId) ==> r == ListOf(m, agentId.value)
    ensures !Truthy(agentId) && Truthy(m.current) ==> r == ListOf(m, m.current.value)
    ensures !Truthy(agentId) && !Truthy(m.current) ==> r == []
  {
    var target := TargetAgent(m, agentId);
    if !Truthy(target) || target.value !in m.histories then [] else m.histories[target.value]
  }

  // ---------------------------------------------------------------------
  // Option navigation
  // ---------------------------------------------------------------------

  /** `next_option`: one step right while a further option exists; whether
      it moved. */
  function NextOption(m: Manager): (r: (Manager, bool))
    ensures r.1 <==>
      GetCurrentExchange(m).Some? && m.optionIndex + 1 < |GetCurrentExchange(m).value.options|
    ensures r.1 ==> r.0 == m.(optionIndex := m.optionIndex + 1)
    ensures !r.1 ==> r.0 == m
  {
    match GetCurrentExchange(m)
    case None => (m, false)
    case Some(ex) =>
      if |ex.options| == 0 then (m, false)
      else if m.optionIndex < |ex.options| - 1 then (m.(optionIndex := m.optionIndex + 1), true)
      else (m, false)
  }

  /** `prev_option`: one step left while the index is positive. */
  function PrevOption(m: Manager): (r: (Manager, bool))
    ensures r.1 <==> m.optionIndex > 0
    ensures r.1 ==> r.0 == m.(optionIndex := m.optionIndex - 1)
    ensures !r.1 ==> r.0 == m
  {
    if m.optionIndex > 0 then (m.(optionIndex := m.optionIndex - 1), true) else (m, false)
  }

  /** Stepping right then left comes back to the same state. */
  lemma PrevUndoesNext(m: Manager)
    requires NextOption(m).1
    ensures PrevOption(NextOption(m).0) == (m, true)
  {
  }

  /** Under the invariant, stepping left then right comes back as well. */
  lemma NextUndoesPrev(m: Manager)
    requires Inv(m) && PrevOption(m).1
    ensures NextOption(PrevOption(m).0) == (m, true)
  {
    var m1 := PrevOption(m).0;
    assert GetCurrentExchange(m1) == GetCurrentExchange(m);
  }

  // ---------------------------------------------------------------------
  // Exchange navigation
  // ---------------------------------------------------------------------

  /** `next_exchange`: one exchange later in the current agent's list,
      selecting its first option; whether it moved. */
  function NextExchange(m: Manager): (r: (Manager, bool))
    ensures r.1 <==>
      Truthy(m.current) && m.current.value in m.histories
      && m.exchangeIndex < |m.histories[m.current.value]| - 1
    ensures r.1 ==> r.0 == m.(exchangeIndex := m.exchangeIndex + 1, optionIndex := 0)
    ensures !r.1 ==> r.0 == m
  {
    if !Truthy(m.current) || m.current.value !in m.histories then (m, false)
    else if m.exchangeIndex < |m.histories[m.current.value]| - 1 then
      (m.(exchangeIndex := m.exchangeIndex + 1, optionIndex := 0), true)
    else (m, false)
  }

  /** `prev_exchange`: one exchange earlier while the index is positive. */
  function PrevExchange(m: Manager): (r: (Manager, bool))
    ensures r.1 <==> m.exchangeIndex > 0
    ensures r.1 ==> r.0 == m.(exchangeIndex := m.exchangeIndex - 1, optionIndex := 0)
    ensures !r.1 ==> r.0 == m
  {
    if m.exchangeIndex > 0 then (m.(exchangeIndex := m.exchangeIndex - 1, optionIndex := 0), true)
    else (m, false)
  }

  /** Going one exchange forward and back returns to the same exchange,
      with the first option selected. */
  lemma PrevUndoesNextExchange(m: Manager)
    requires Inv(m) && NextExchange(m).1
    ensures PrevExchange(NextExchange(m).0) == (m.(optionIndex := 0), true)
  {
  }

  /** Under the invariant, going back and forward returns as well. */
  lemma NextUndoesPrevExchange(m: Manager)
    requires Inv(m) && Truthy(m.current) && PrevExchange(m).1
    ensures NextExchange(PrevExchange(m).0) == (m.(optionIndex := 0), true)
  {
  }

  /** Viewing the past means exactly that a later exchange can be reached. */
  lemma ViewingPastIffNextMoves(m: Manager)
    requires Inv(m)
    ensures IsViewingPast(m) <==> NextExchange(m).1
  {
  }

  /** Moving through the options keeps the option index within
      [0, max(0, len - 1)] of the shown exchange's options. */
  lemma OptionMovesKeepInv(m: Manager)
    requires Inv(m)
    ensures Inv(NextOption(m).0) && Inv(PrevOption(m).0)
  {
    assert GetCurrentExchange(NextOption(m).0) == GetCurrentExchange(m);
    assert GetCurrentExchange(PrevOption(m).0) == GetCurrentExchange(m);
  }

  /** Moving through the exchanges keeps the exchange index valid. */
  lemma ExchangeMovesKeepInv(m: Manager)
    requires Inv(m)
    ensures Inv(NextExchange(m).0) && Inv(PrevExchange(m).0)
  {
  }

  // ---------------------------------------------------------------------
  // Starting an exchange
  // ---------------------------------------------------------------------

  /** What `start_exchange` did: nothing for a blank input, a new exchange,
      or an exception escaping after the state was partly changed. */
  datatype StartResult =
    | NotStarted
    | Started(manager: Manager, exchange: Exchange)
    | StartRaised(manager: Manager, message: string)

  /** `str()` of a `KeyError`: the repr of its key (escapes inside the key
      are not modelled). */
  function KeyErrorText(key: string): string {
    if '\'' in key && '"' !in key then "\"" + key + "\"" else "'" + key + "'"
  }

  /** Lines 61-65: make `agentId` current, creating its list if needed; the
      cursor is not touched. */
  function SwitchCurrent(m: Manager, agentId: string): (r: Manager)
    ensures r.current == Some(agentId)
    ensures agentId in r.histories && ListOf(r, agentId) == ListOf(m, agentId)
    ensures r.histories.Keys == m.histories.Keys + {agentId}
    ensures forall a :: a in m.histories ==> a in r.histories && r.histories[a] == m.histories[a]
    ensures r.exchangeIndex == m.exchangeIndex && r.optionIndex == m.optionIndex
    ensures r.generating == m.generating && r.nextTicket == m.nextTicket
  {
    var hs := if agentId in m.histories then m.histories else m.histories[agentId := []];
    m.(current := Some(agentId), histories := hs)
  }

  /** `start_exchange` up to the launch of the thread (the thread is `Work`
      followed by `Complete`). `playerInput` may be None. A new exchange
      holds the stripped input and the agent's display name, is appended to
      the agent's list and selected with its first option; both generating
      flags are raised. `get_name` raises on an empty directory after the
      agent was made current, and appending raises when the current agent
      has no list, which the invariant rules out. */
  function StartExchange(m: Manager, dir: Directory, playerInput: Option<string>, agentId: string)
    : (r: StartResult)
    ensures r.NotStarted? <==> AllSpace(playerInput.GetOr(""))
    ensures r.StartRaised? <==>
      (!AllSpace(playerInput.GetOr("")) && (|dir| == 0 || (m.current == Some(agentId) && agentId !in m.histories)))
  {
    var text := Strip(playerInput.GetOr(""));
    if text == "" then NotStarted
    else
      var s := if m.current != Some(agentId) then SwitchCurrent(m, agentId) else m;
      match GetName(dir, agentId)
      case Failure(e) => StartRaised(s, KeyErrorText(e))
      case Success(name) =>
        if agentId !in s.histories then StartRaised(s, KeyErrorText(agentId))
        else
          var ex := Exchange(m.nextTicket, text, agentId, name, "", [], true);
          var xs := s.histories[agentId] + [ex];
          Started(s.(histories := s.histories[agentId := xs], exchangeIndex := |xs| - 1,
                     optionIndex := 0, generating := true, nextTicket := m.nextTicket + 1), ex)
  }

  /** A non-blank start appends exactly one exchange, holding the stripped
      input, to the agent's list, touches no other list, makes the agent
      current and selects the new exchange's first option. */
  lemma StartAppendsOne(m: Manager, dir: Directory, playerInput: Option<string>, agentId: string)
    requires StartExchange(m, dir, playerInput, agentId).Started?
    ensures var r := StartExchange(m, dir, playerInput, agentId); var m' := r.manager;
      && r.exchange == Exchange(m.nextTicket, Strip(playerInput.GetOr("")), agentId,
                                GetName(dir, agentId).value, "", [], true)
      && ListOf(m', agentId) == ListOf(m, agentId) + [r.exchange]
      && m'.histories.Keys == m.histories.Keys + {agentId}
      && (forall a :: a != agentId ==> ListOf(m', a) == ListOf(m, a))
      && m'.current == Some(agentId)
      && m'.exchangeIndex == |ListOf(m, agentId)| && m'.optionIndex == 0
      && m'.generating && m'.nextTicket == m.nextTicket + 1
  {
  }

  /** A list stays well formed when the ticket counter grows. */
  lemma WellFormedLater(xs: seq<Exchange>, agentId: string, n: nat, n': nat)
    requires WellFormedList(xs, agentId, n) && n <= n'
    ensures WellFormedList(xs, agentId, n')
  {
  }

  /** Appending a fresh exchange that is still being generated keeps a list
      well formed. */
  lemma AppendFresh(xs: seq<Exchange>, ex: Exchange, agentId: string, n: nat)
    requires WellFormedList(xs, agentId, n)
    requires ex.agentId == agentId && ex.ticket == n && ex.generating && ex.response == "" && ex.options == []
    ensures WellFormedList(xs + [ex], agentId, n + 1)
  {
    var ys := xs + [ex];
    assert forall k :: 0 <= k < |xs| ==> ys[k] == xs[k];
  }

  /** A start that goes through keeps the invariant. */
  lemma StartKeepsInv(m: Manager, dir: Directory, playerInput: Option<string>, agentId: string)
    requires Inv(m) && StartExchange(m, dir, playerInput, agentId).Started?
    ensures Inv(StartExchange(m, dir, playerInput, agentId).manager)
  {
    var r := StartExchange(m, dir, playerInput, agentId);
    StartAppendsOne(m, dir, playerInput, agentId);
    var m' := r.manager;
    AppendFresh(ListOf(m, agentId), r.exchange, agentId, m.nextTicket);
    forall a | a in m'.histories ensures WellFormedList(m'.histories[a], a, m'.nextTicket) {
      if a != agentId {
        assert m'.histories[a] == m.histories[a];
        WellFormedLater(m.histories[a], a, m.nextTicket, m'.nextTicket);
      }
    }
  }

  /** When `get_name` raises, a start for another agent has already made
      that agent current: the exchange index still points into the previous
      agent's list, and `prev_exchange` then reports a move within an empty
      list. The model's only way for `get_name` to raise is an empty
      directory, so the witness passes one to this call; in the source the
      same state follows from a profile that is not an object. */
  lemma StartRaisedBreaksInv()
    ensures var e0 := Exchange(0, "Who are you?", "a", "A", "A worker.", ["Why?", "Where?"], false);
      var e1 := Exchange(1, "Why?", "a", "A", "Bread.", ["How?", "When?"], false);
      var m := Manager(map["a" := [e0, e1]], Some("a"), 1, 0, false, 2);
      var r := StartExchange(m, [], Some("Hello"), "b");
      && Inv(m) && r.StartRaised?
      && !Inv(r.manager)
      && ListOf(r.manager, "b") == [] && PrevExchange(r.manager).1
  {
    var e0 := Exchange(0, "Who are you?", "a", "A", "A worker.", ["Why?", "Where?"], false);
    var e1 := Exchange(1, "Why?", "a", "A", "Bread.", ["How?", "When?"], false);
    var m := Manager(map["a" := [e0, e1]], Some("a"), 1, 0, false, 2);
    assert WellFormedList([e0, e1], "a", 2);
    assert !AllSpace("Hello") by { assert !IsSpace("Hello"[0]); }
    assert Some("a") != Some("b");
  }

  /** The start with the agent's name resolved before anything changes: a
      start that raises leaves the manager as it was. */
  function StartExchangeResolved(m: Manager, dir: Directory, playerInput: Option<string>, agentId: string)
    : (r: StartResult)
    ensures r.StartRaised? ==> r.manager == m
    ensures !r.StartRaised? ==> r == StartExchange(m, dir, playerInput, agentId)
    ensures r.NotStarted? <==> AllSpace(playerInput.GetOr(""))
  {
    if AllSpace(playerInput.GetOr("")) || |dir| > 0 then
      match StartExchange(m, dir, playerInput, agentId)
      case StartRaised(_, e) => StartRaised(m, e)
      case other => other
    else StartRaised(m, KeyErrorText(NoAgentsMessage(agentId)))
  }

  /** Every outcome of the resolved start keeps the invariant. */
  lemma StartResolvedKeepsInv(m: Manager, dir: Directory, playerInput: Option<string>, agentId: string)
    requires Inv(m)
    ensures var r := StartExchangeResolved(m, dir, playerInput, agentId);
      !r.NotStarted? ==> Inv(r.manager)
  {
    if StartExchange(m, dir, playerInput, agentId).Started? {
      StartKeepsInv(m, dir, playerInput, agentId);
    }
  }

  // ---------------------------------------------------------------------
  // The thread: computing and storing the outcome
  // ---------------------------------------------------------------------

  /** What the thread stores: an answer with options, or the text of the
      exception it caught. */
  datatype WorkerResult = Answered(response: string, options: seq<string>) | Crashed(error: string)

  /** `f"[Error: {str(e)}]"`. */
  function ErrorText(error: string): string {
    "[Error: " + error + "]"
  }

  /** The chat prompt of the thread: the agent's system prompt and the
      field builder, whatever the agent's role. */
  function WorkerPrompt(dir: Directory, kbs: Knowledge, h: History, agentId: string,
                        targetId: string, input: string): string
    requires |dir| > 0
  {
    ChatPrompt(GetSystemPrompt(dir, agentId).value,
      FieldUserPrompt(targetId, GetRagContext(KnowledgeOf(kbs, agentId), input, 3),
        GetHistoryContext(h, agentId, 3), input))
  }

  /** The thread's prompt opens with the agent's system prompt and quotes
      the player's input. */
  lemma WorkerPromptCarries(dir: Directory, kbs: Knowledge, h: History, agentId: string,
                            targetId: string, input: string)
    requires |dir| > 0
    ensures StartsWith(WorkerPrompt(dir, kbs, h, agentId, targetId, input),
                       SystemOpen + GetSystemPrompt(dir, agentId).value)
    ensures Contains(WorkerPrompt(dir, kbs, h, agentId, targetId, input), input)
  {
    var user := FieldUserPrompt(targetId, GetRagContext(KnowledgeOf(kbs, agentId), input, 3),
      GetHistoryContext(h, agentId, 3), input);
    ChatPromptCarries(GetSystemPrompt(dir, agentId).value, user, input);
  }

  /** Lines 100-111 once the model has answered `out`: the response is the
      stripped answer or the fixed text, the options come from the second
      call `suggest` makes, and one turn is remembered for the agent. */
  function ConcludeWork(dir: Directory, h: History, agentId: string, input: string, out: string,
                        suggest: string -> string): (r: (WorkerResult, History))
    requires |dir| > 0
    ensures r.0.Answered?
    ensures r.0.response != "" && IsStripped(r.0.response)
    ensures !AllSpace(out) ==> r.0.response == Strip(out)
    ensures AllSpace(out) ==> r.0.response == NoResponseText
    ensures 2 <= |r.0.options| <= 4
    ensures r.1 == AddHistory(h, agentId, input, r.0.response, GetName(dir, agentId).value)
  {
    var response := OrFallback(out, NoResponseText);
    assert IsStripped(NoResponseText);
    var name := GetName(dir, agentId).value;
    var options := GeneratePlayerOptions(Returned(suggest(OptionsPrompt(name, input, response))));
    (Answered(response, options), AddHistory(h, agentId, input, response, name))
  }

  /** `_generate` for exchange `ex`: `answer` and `suggest` stand for
      `generate_sync` with the default settings and with `max_tokens=100`.
      With an empty directory `get_system_prompt` raises and the thread
      stores the error without remembering anything. */
  function Work(dir: Directory, kbs: Knowledge, h: History, ex: Exchange, targetId: string,
                answer: string -> string, suggest: string -> string): (r: (WorkerResult, History))
    ensures |dir| == 0 ==> r == (Crashed(KeyErrorText(NoAgentsMessage(ex.agentId))), h)
    ensures |dir| > 0 ==> r == ConcludeWork(dir, h, ex.agentId, ex.playerInput,
      answer(WorkerPrompt(dir, kbs, h, ex.agentId, targetId, ex.playerInput)), suggest)
  {
    if |dir| == 0 then (Crashed(KeyErrorText(NoAgentsMessage(ex.agentId))), h)
    else
      ConcludeWork(dir, h, ex.agentId, ex.playerInput,
        answer(WorkerPrompt(dir, kbs, h, ex.agentId, targetId, ex.playerInput)), suggest)
  }

  /** The exchange once the thread has stored `result`. */
  function ApplyResult(e: Exchange, result: WorkerResult): (r: Exchange)
    ensures r.ticket == e.ticket && r.playerInput == e.playerInput
    ensures r.agentId == e.agentId && r.agentName == e.agentName
    ensures !r.generating
    ensures result.Answered? ==> r.response == result.response && r.options == result.options
    ensures result.Crashed? ==> r.response == ErrorText(result.error) && r.options == []
  {
    match result
    case Answered(response, options) => e.(response := response, options := options, generating := false)
    case Crashed(error) => e.(response := ErrorText(error), options := [], generating := false)
  }

  /** The list once the thread has stored its result: the exchange carrying
      `ticket` is finished, every other exchange is left as it was, and the
      order and the tickets are kept. As tickets are unique within a list,
      at most one exchange changes. */
  function CompleteList(xs: seq<Exchange>, ticket: nat, result: WorkerResult): (r: seq<Exchange>)
    ensures |r| == |xs|
    ensures forall k :: 0 <= k < |xs| ==>
      r[k] == if xs[k].ticket == ticket then ApplyResult(xs[k], result) else xs[k]
    ensures forall k :: 0 <= k < |xs| ==> r[k].ticket == xs[k].ticket
    ensures forall k :: 0 <= k < |xs| && xs[k].ticket == ticket ==> !r[k].generating
    ensures (forall i, j :: 0 <= i < j < |xs| ==> xs[i].ticket != xs[j].ticket) ==>
      forall i, j :: 0 <= i < j < |xs| && r[i] != xs[i] ==> r[j] == xs[j]
  {
    seq(|xs|, k requires 0 <= k < |xs| =>
      if xs[k].ticket == ticket then ApplyResult(xs[k], result) else xs[k])
  }

  /** The `finally` of the thread and the stores before it: the exchange
      with `ticket` in `agentId`'s list, if it is still there, receives the
      result; the manager's generating flag is lowered in any case. */
  function Complete(m: Manager, agentId: string, ticket: nat, result: WorkerResult): (r: Manager)
    ensures r.histories.Keys == m.histories.Keys
    ensures forall a :: a in m.histories && a != agentId ==> r.histories[a] == m.histories[a]
    ensures agentId in m.histories ==> r.histories[agentId] == CompleteList(m.histories[agentId], ticket, result)
    ensures r.current == m.current && r.exchangeIndex == m.exchangeIndex
    ensures r.optionIndex == m.optionIndex && r.nextTicket == m.nextTicket
    ensures !r.generating
  {
    var hs := if agentId in m.histories
      then m.histories[agentId := CompleteList(m.histories[agentId], ticket, result)]
      else m.histories;
    m.(histories := hs, generating := false)
  }

  /** No exchange of `agentId` with `ticket` has finished yet: each thread
      completes once. */
  predicate Pending(m: Manager, agentId: string, ticket: nat) {
    agentId in m.histories ==>
      forall k :: 0 <= k < |m.histories[agentId]| && m.histories[agentId][k].ticket == ticket ==>
        m.histories[agentId][k].generating
  }

  /** Storing the outcome of a pending exchange keeps the invariant. */
  lemma CompleteKeepsInv(m: Manager, agentId: string, ticket: nat, result: WorkerResult)
    requires Inv(m) && Pending(m, agentId, ticket)
    ensures Inv(Complete(m, agentId, ticket, result))
  {
    var r := Complete(m, agentId, ticket, result);
    if agentId in m.histories {
      var xs := m.histories[agentId];
      var ys := r.histories[agentId];
      assert WellFormedList(xs, agentId, m.nextTicket);
      assert WellFormedList(ys, agentId, r.nextTicket) by {
        forall j, k | 0 <= j < k < |ys| ensures ys[j].ticket < ys[k].ticket {
          assert ys[j].ticket == xs[j].ticket && ys[k].ticket == xs[k].ticket;
        }
      }
    }
    match GetCurrentExchange(m)
    case None =>
    case Some(ex) =>
      var c := m.current.value;
      if c == agentId && ex.ticket == ticket {
        assert ex.generating;
      }
  }

  /** The thread's whole effect: an answered exchange gets the stripped
      answer (or the fixed text) and two to four options, and exactly one
      turn is remembered; a crashed one gets the error text and no options,
      and nothing is remembered. Either way the exchange stops generating,
      and `Complete` stores it in place of the pending one. */
  lemma ThreadOutcome(dir: Directory, kbs: Knowledge, h: History, ex: Exchange,
                      targetId: string, answer: string -> string, suggest: string -> string)
    ensures var (result, h') := Work(dir, kbs, h, ex, targetId, answer, suggest);
      var done := ApplyResult(ex, result);
      && !done.generating && done.ticket == ex.ticket && done.playerInput == ex.playerInput
      && (|dir| > 0 ==>
            && done.response != "" && IsStripped(done.response) && 2 <= |done.options| <= 4
            && TurnsOf(h', ex.agentId)
               == TurnsOf(h, ex.agentId) + [Turn(ex.playerInput, done.response, GetName(dir, ex.agentId).value)]
            && (forall other :: other != ex.agentId ==> TurnsOf(h', other) == TurnsOf(h, other)))
      && (|dir| == 0 ==> done.response == ErrorText(KeyErrorText(NoAgentsMessage(ex.agentId)))
                          && done.options == [] && h' == h)
  {
    if |dir| > 0 {
      ConcludeOutcome(dir, h, ex, answer(WorkerPrompt(dir, kbs, h, ex.agentId, targetId, ex.playerInput)),
        suggest);
    }
  }

  /** `ThreadOutcome` for whatever the model answered. */
  lemma ConcludeOutcome(dir: Directory, h: History, ex: Exchange, out: string, suggest: string -> string)
    requires |dir| > 0
    ensures var (result, h') := ConcludeWork(dir, h, ex.agentId, ex.playerInput, out, suggest);
      var done := ApplyResult(ex, result);
      && done.response != "" && IsStripped(done.response) && 2 <= |done.options| <= 4
      && TurnsOf(h', ex.agentId)
         == TurnsOf(h, ex.agentId) + [Turn(ex.playerInput, done.response, GetName(dir, ex.agentId).value)]
      && (forall other :: other != ex.agentId ==> TurnsOf(h', other) == TurnsOf(h, other))
  {
  }

  // ---------------------------------------------------------------------
  // Switching and clearing
  // ---------------------------------------------------------------------

  /** `switch_agent`: another agent becomes current with its latest
      exchange (or none) and first option shown; the current one is left
      as it is. */
  function SwitchAgent(m: Manager, agentId: string): (r: Manager)
    ensures m.current == Some(agentId) ==> r == m
    ensures m.current != Some(agentId) ==>
      && r.current == Some(agentId)
      && r.histories.Keys == m.histories.Keys + {agentId}
      && (forall a :: ListOf(r, a) == ListOf(m, a))
      && r.exchangeIndex == |ListOf(m, agentId)| - 1 && r.optionIndex == 0
      && r.generating == m.generating && r.nextTicket == m.nextTicket
  {
    if m.current == Some(agentId) then m
    else
      var s := SwitchCurrent(m, agentId);
      var xs := s.histories[agentId];
      s.(exchangeIndex := if |xs| > 0 then |xs| - 1 else -1, optionIndex := 0)
  }

  lemma SwitchKeepsInv(m: Manager, agentId: string)
    requires Inv(m)
    ensures Inv(SwitchAgent(m, agentId))
  {
    var r := SwitchAgent(m, agentId);
    assert forall a :: a in r.histories ==> r.histories[a] == ListOf(m, a);
  }

  /** Empties `agentId`'s list if it has one and, when it is current, resets
      the cursor (the common part of `clear_dialogue(id)` and
      `clear_history`). */
  function ClearOne(m: Manager, agentId: string): (r: Manager)
    ensures r.histories.Keys == m.histories.Keys
    ensures ListOf(r, agentId) == []
    ensures forall a :: a != agentId ==> ListOf(r, a) == ListOf(m, a)
    ensures r.current == m.current
    ensures m.current == Some(agentId) ==> r.exchangeIndex == -1 && r.optionIndex == 0
    ensures m.current != Some(agentId) ==> r.exchangeIndex == m.exchangeIndex && r.optionIndex == m.optionIndex
    ensures r.generating == m.generating && r.nextTicket == m.nextTicket
  {
    var hs := if agentId in m.histories then m.histories[agentId := []] else m.histories;
    if m.current == Some(agentId) then m.(histories := hs, exchangeIndex := -1, optionIndex := 0)
    else m.(histories := hs)
  }

  /** `clear_dialogue`: with an agent id (not ""), only that agent's list
      is emptied; without one, every list is dropped and no agent is
      current. The generating flag is lowered either way. */
  function ClearDialogue(m: Manager, agentId: Option<string>): (r: Manager)
    ensures Truthy(agentId) ==> r == ClearOne(m, agentId.value).(generating := false)
    ensures !Truthy(agentId) ==> r == Manager(map[], None, -1, 0, false, m.nextTicket)
  {
    if Truthy(agentId) then ClearOne(m, agentId.value).(generating := false)
    else m.(histories := map[], current := None, exchangeIndex := -1, optionIndex := 0, generating := false)
  }

  /** `clear_history`: empties the list of the named agent, or of the
      current one when none is named; the cursor is reset only when that
      agent is current. Unlike `clear_dialogue` it leaves the generating
      flag alone, and it does nothing for an agent without a list. */
  function ClearHistory(m: Manager, agentId: Option<string>): (r: Manager)
    ensures var t := TargetAgent(m, agentId);
      Truthy(t) && t.value in m.histories ==> r == ClearOne(m, t.value)
    ensures var t := TargetAgent(m, agentId);
      !(Truthy(t) && t.value in m.histories) ==> r == m
  {
    var target := TargetAgent(m, agentId);
    if Truthy(target) && target.value in m.histories then ClearOne(m, target.value) else m
  }

  lemma ClearOneKeepsInv(m: Manager, agentId: string)
    requires Inv(m)
    ensures Inv(ClearOne(m, agentId))
  {
    var r := ClearOne(m, agentId);
    assert forall a :: a in r.histories ==> r.histories[a] == ListOf(r, a);
    assert forall a :: a in m.histories ==> m.histories[a] == ListOf(m, a);
  }

  lemma ClearDialogueKeepsInv(m: Manager, agentId: Option<string>)
    requires Inv(m)
    ensures Inv(ClearDialogue(m, agentId))
  {
    if Truthy(agentId) {
      ClearOneKeepsInv(m, agentId.value);
    }
  }

  lemma ClearHistoryKeepsInv(m: Manager, agentId: Option<string>)
    requires Inv(m)
    ensures Inv(ClearHistory(m, agentId))
  {
    var t := TargetAgent(m, agentId);
    if Truthy(t) && t.value in m.histories {
      ClearOneKeepsInv(m, t.value);
    }
  }
}
