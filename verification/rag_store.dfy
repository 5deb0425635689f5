/** Lexical retrieval over an agent's knowledge base and the per-agent turn
    log that feeds prompt context (game/python/rag_store.py). The knowledge
    base is passed in: loading and caching the JSON file is not modelled. */
module RagStore {
  import opened Text
  import opened Tokenizer
  import opened Ranking

  /** One knowledge-base item; a missing `text` or `tags` reads as "" / []. */
  datatype KBEntry = KBEntry(id: string, text: string, tags: seq<string>)

  /** `set(_tokenize(query))`. */
  function QueryTokens(query: string): set<string> {
    set t | t in Tokenize(query)
  }

  /** The tokens of an entry: its text and its tags joined by spaces. */
  function EntryTokens(e: KBEntry): set<string> {
    set t | t in Tokenize(e.text + " " + Join(e.tags, " "))
  }

  /** Number of distinct query tokens the entry shares. */
  function Score(q: set<string>, e: KBEntry): nat {
    |q * EntryTokens(e)|
  }

  lemma {:induction false} SubsetCard<T>(a: set<T>, b: set<T>)
    requires a <= b
    ensures |a| <= |b|
    decreases |b|
  {
    if a != {} {
      var x :| x in a;
      SubsetCard(a - {x}, b - {x});
    }
  }

  /** A score counts shared tokens: it never exceeds the number of query
      tokens, and it is zero exactly when the entry shares none of them. */
  lemma ScoreMeaning(q: set<string>, e: KBEntry)
    ensures Score(q, e) <= |q|
    ensures Score(q, e) == 0 <==> forall t :: t in q ==> t !in EntryTokens(e)
  {
    SubsetCard(q * EntryTokens(e), q);
    if Score(q, e) != 0 {
      var t :| t in q * EntryTokens(e);
    }
  }

  /** The score of every entry, in knowledge-base order. */
  function ScoresOf(q: set<string>, kb: seq<KBEntry>): (r: seq<nat>)
    ensures |r| == |kb|
    ensures forall j :: 0 <= j < |kb| ==> r[j] == Score(q, kb[j])
  {
    seq(|kb|, j requires 0 <= j < |kb| => Score(q, kb[j]))
  }

  /** Every entry's score is at most the number of query tokens, and zero
      exactly for the entries that share no query token. */
  lemma ScoresOfMeaning(q: set<string>, kb: seq<KBEntry>)
    ensures forall j :: 0 <= j < |kb| ==> ScoresOf(q, kb)[j] <= |q|
    ensures forall j :: 0 <= j < |kb| ==>
      (ScoresOf(q, kb)[j] == 0 <==> forall t :: t in q ==> t !in EntryTokens(kb[j]))
  {
    forall j | 0 <= j < |kb| {
      ScoreMeaning(q, kb[j]);
    }
  }

  /** The scoring loop from position `i` on: the positively scored entries in
      knowledge-base order, each tagged with its position. */
  function ScoredFrom(sc: seq<nat>, kb: seq<KBEntry>, i: nat): (r: seq<Scored>)
    requires |sc| == |kb| && i <= |kb|
    ensures forall k :: 0 <= k < |r| ==>
      i <= r[k].pos < |kb| && r[k].score == sc[r[k].pos] > 0 && r[k].text == kb[r[k].pos].text
    ensures PosIncreasing(r)
    decreases |kb| - i
  {
    if i == |kb| then []
    else
      var rest := ScoredFrom(sc, kb, i + 1);
      if sc[i] > 0 then [Scored(sc[i], kb[i].text, i)] + rest else rest
  }

  /** Every positively scored entry from position `i` on is emitted. */
  lemma {:induction false} ScoredFromComplete(sc: seq<nat>, kb: seq<KBEntry>, i: nat, j: nat)
    requires |sc| == |kb| && i <= j < |kb| && sc[j] > 0
    ensures exists k :: 0 <= k < |ScoredFrom(sc, kb, i)| && ScoredFrom(sc, kb, i)[k].pos == j
    decreases |kb| - i
  {
    var r := ScoredFrom(sc, kb, i);
    if j == i {
      assert r[0].pos == j;
    } else {
      ScoredFromComplete(sc, kb, i + 1, j);
      var rest := ScoredFrom(sc, kb, i + 1);
      var k :| 0 <= k < |rest| && rest[k].pos == j;
      if sc[i] > 0 {
        assert r[k + 1] == rest[k];
      } else {
        assert r[k] == rest[k];
      }
    }
  }

  /** The ranking of the positively scored entries, given the scores. */
  function RankEntries(sc: seq<nat>, kb: seq<KBEntry>): (r: seq<Scored>)
    requires |sc| == |kb|
    ensures Ranked(r)
    ensures forall k :: 0 <= k < |r| ==>
      r[k].pos < |kb| && r[k].score == sc[r[k].pos] > 0 && r[k].text == kb[r[k].pos].text
    ensures forall j :: 0 <= j < |kb| && sc[j] > 0 ==>
      exists k :: 0 <= k < |r| && r[k] == Scored(sc[j], kb[j].text, j)
  {
    var scored := ScoredFrom(sc, kb, 0);
    var ranked := SortByScore(scored);
    SortRanked(scored);
    forall k | 0 <= k < |ranked|
      ensures ranked[k].pos < |kb| && ranked[k].score == sc[ranked[k].pos] > 0
      && ranked[k].text == kb[ranked[k].pos].text
    {
      assert ranked[k] in multiset(scored);
    }
    forall j | 0 <= j < |kb| && sc[j] > 0
      ensures exists k :: 0 <= k < |ranked| && ranked[k] == Scored(sc[j], kb[j].text, j)
    {
      ScoredFromComplete(sc, kb, 0, j);
      var k :| 0 <= k < |scored| && scored[k].pos == j;
      assert scored[k] in multiset(ranked);
      var t :| 0 <= t < |ranked| && ranked[t] == scored[k];
    }
    ranked
  }

  /** The entries whose text is rendered: the first `maxChunks` of the
      ranking (`scored[:max_chunks]`). */
  function TopChunks(kb: seq<KBEntry>, query: string, maxChunks: int): (r: seq<Scored>)
    ensures maxChunks >= 0 ==> |r| <= maxChunks
    ensures Ranked(r)
    ensures forall k :: 0 <= k < |r| ==>
      r[k].pos < |kb| && r[k].score == Score(QueryTokens(query), kb[r[k].pos]) > 0
      && r[k].text == kb[r[k].pos].text
  {
    var sc := ScoresOf(QueryTokens(query), kb);
    var ranked := RankEntries(sc, kb);
    var r := SliceTo(ranked, maxChunks);
    RankedPrefix(ranked, |r|);
    assert forall k :: 0 <= k < |r| ==> r[k] == ranked[k];
    r
  }

  /** Cutting a ranking after `n` elements leaves out an element only when
      `n` elements that rank before it fill the cut. */
  lemma CutRanking(ranked: seq<Scored>, n: int, y: Scored)
    requires n >= 0 && Ranked(ranked) && y in ranked && y !in SliceTo(ranked, n)
    ensures |SliceTo(ranked, n)| == n
    ensures forall k :: 0 <= k < n ==> Before(SliceTo(ranked, n)[k], y)
  {
    var t :| 0 <= t < |ranked| && ranked[t] == y;
    var r := SliceTo(ranked, n);
    assert forall a :: 0 <= a < |r| ==> r[a] == ranked[a];
    assert |r| <= t;
  }

  /** Top-k: a positively scored entry left out of the output is left out
      only because `maxChunks` entries that rank before it filled the output. */
  lemma TopChunksComplete(kb: seq<KBEntry>, query: string, maxChunks: int, j: nat)
    requires maxChunks >= 0
    requires j < |kb| && Score(QueryTokens(query), kb[j]) > 0
    requires forall k :: 0 <= k < |TopChunks(kb, query, maxChunks)| ==>
      TopChunks(kb, query, maxChunks)[k].pos != j
    ensures |TopChunks(kb, query, maxChunks)| == maxChunks
    ensures forall k :: 0 <= k < |TopChunks(kb, query, maxChunks)| ==>
      Before(TopChunks(kb, query, maxChunks)[k], Scored(Score(QueryTokens(query), kb[j]), kb[j].text, j))
  {
    var sc := ScoresOf(QueryTokens(query), kb);
    var ranked := RankEntries(sc, kb);
    var r := TopChunks(kb, query, maxChunks);
    assert r == SliceTo(ranked, maxChunks);
    var y := Scored(sc[j], kb[j].text, j);
    var t :| 0 <= t < |ranked| && ranked[t] == y;
    assert y !in r;
    CutRanking(ranked, maxChunks, y);
  }

  /** `"\n\n".join(f"- {t}" for t in top)`. */
  function Render(top: seq<Scored>): string {
    Join(seq(|top|, k requires 0 <= k < |top| => "- " + top[k].text), "\n\n")
  }

  lemma JoinStartsWithFirst(xs: seq<string>, sep: string)
    ensures |xs| > 0 ==> StartsWith(Join(xs, sep), xs[0])
  {
  }

  /** `get_rag_context` on an already loaded knowledge base, with its
      three early returns. */
  function GetRagContext(kb: seq<KBEntry>, query: string, maxChunks: int): string {
    if |kb| == 0 then ""
    else
      var q := QueryTokens(query);
      if q == {} then ""
      else
        var scored := ScoredFrom(ScoresOf(q, kb), kb, 0);
        if |scored| == 0 then ""
        else Render(SliceTo(SortByScore(scored), maxChunks))
  }

  /** The early returns of `get_rag_context` agree with the general path:
      whenever one of them fires, nothing would have been rendered anyway. */
  lemma EarlyReturnsAgree(kb: seq<KBEntry>, query: string, maxChunks: int)
    ensures var q := QueryTokens(query);
      (|kb| == 0 || q == {} || (forall j :: 0 <= j < |kb| ==> Score(q, kb[j]) == 0)) ==>
      ScoredFrom(ScoresOf(q, kb), kb, 0) == [] && TopChunks(kb, query, maxChunks) == []
    ensures var q := QueryTokens(query);
      |ScoredFrom(ScoresOf(q, kb), kb, 0)| == 0 ==> TopChunks(kb, query, maxChunks) == []
  {
    var q := QueryTokens(query);
    var scored := ScoredFrom(ScoresOf(q, kb), kb, 0);
    assert q == {} ==> forall j :: 0 <= j < |kb| ==> Score(q, kb[j]) == 0;
    assert TopChunks(kb, query, maxChunks) == SliceTo(SortByScore(scored), maxChunks);
  }

  /** The retrieval context is exactly the rendering of the top chunks. */
  lemma RagContextIsRenderedTop(kb: seq<KBEntry>, query: string, maxChunks: int)
    ensures GetRagContext(kb, query, maxChunks) == Render(TopChunks(kb, query, maxChunks))
  {
    EarlyReturnsAgree(kb, query, maxChunks);
    if |kb| > 0 && QueryTokens(query) != {} {
      var scored := ScoredFrom(ScoresOf(QueryTokens(query), kb), kb, 0);
      assert TopChunks(kb, query, maxChunks) == SliceTo(SortByScore(scored), maxChunks);
    }
  }

  /** The rendering is empty exactly when there is no chunk, and otherwise
      opens with the first chunk's bullet. */
  lemma RenderShape(top: seq<Scored>)
    ensures Render(top) == "" <==> |top| == 0
    ensures |top| > 0 ==> StartsWith(Render(top), "- " + top[0].text)
  {
    var lines := seq(|top|, k requires 0 <= k < |top| => "- " + top[k].text);
    JoinStartsWithFirst(lines, "\n\n");
    if |top| > 0 {
      assert lines[0] == "- " + top[0].text;
    }
  }

  /** `get_rag_context` returns "" for an empty knowledge base, a query
      without tokens, or no entry with a positive score. */
  lemma RagContextEarlyEmpty(kb: seq<KBEntry>, query: string, maxChunks: int)
    requires |kb| == 0 || QueryTokens(query) == {}
      || (forall j :: 0 <= j < |kb| ==> Score(QueryTokens(query), kb[j]) == 0)
    ensures GetRagContext(kb, query, maxChunks) == ""
  {
    EarlyReturnsAgree(kb, query, maxChunks);
    RagContextIsRenderedTop(kb, query, maxChunks);
    RenderShape(TopChunks(kb, query, maxChunks));
  }

  /** The context is empty exactly when no chunk is selected, and otherwise
      opens with the best chunk. */
  lemma RagContextShape(kb: seq<KBEntry>, query: string, maxChunks: int)
    ensures var r := GetRagContext(kb, query, maxChunks);
      r == "" <==> |TopChunks(kb, query, maxChunks)| == 0
    ensures var r := GetRagContext(kb, query, maxChunks);
      |TopChunks(kb, query, maxChunks)| > 0 ==> StartsWith(r, "- " + TopChunks(kb, query, maxChunks)[0].text)
  {
    RagContextIsRenderedTop(kb, query, maxChunks);
    RenderShape(TopChunks(kb, query, maxChunks));
  }

  // ---------------------------------------------------------------------
  // Conversation history
  // ---------------------------------------------------------------------

  /** One remembered turn; `agentName` is the display name at the time. */
  datatype Turn = Turn(input: string, response: string, agentName: string)

  /** `_HISTORY`: agent id to its turns, oldest first. */
  type History = map<string, seq<Turn>>

  function TurnsOf(h: History, agentId: string): seq<Turn> {
    if agentId in h then h[agentId] else []
  }

  /** `add_history`: one turn appended at the end of that agent's log; every
      other agent's log is untouched. `agentName` is `get_name(agent_id)`,
      resolved by the caller. */
  function AddHistory(h: History, agentId: string, input: string, response: string,
                      agentName: string): (r: History)
    ensures r.Keys == h.Keys + {agentId}
    ensures TurnsOf(r, agentId) == TurnsOf(h, agentId) + [Turn(input, response, agentName)]
    ensures forall other :: other != agentId ==> TurnsOf(r, other) == TurnsOf(h, other)
  {
    h[agentId := TurnsOf(h, agentId) + [Turn(input, response, agentName)]]
  }

  function TurnLine(t: Turn): string {
    "Earlier, the player said '" + t.input + "', " + t.agentName + " answered '" + t.response + "'."
  }

  /** `history[-max_turns:]`. */
  function RecentTurns(h: History, agentId: string, maxTurns: int): seq<Turn> {
    SliceFrom(TurnsOf(h, agentId), -maxTurns)
  }

  /** The window is the last `maxTurns` turns, oldest first; Python's
      `[-0:]` makes a window of 0 the whole log, and a negative one drops
      that many turns from the front. */
  lemma RecentTurnsWindow(h: History, agentId: string, maxTurns: int)
    ensures var all := TurnsOf(h, agentId); var w := RecentTurns(h, agentId, maxTurns);
      && w == all[|all| - |w|..]
      && (maxTurns >= 1 ==> |w| == if maxTurns < |all| then maxTurns else |all|)
      && (maxTurns == 0 ==> w == all)
      && (maxTurns < 0 ==> |w| == if -maxTurns < |all| then |all| + maxTurns else 0)
  {
  }

  /** One line per turn of the window: for a positive `maxTurns` the last
      min(maxTurns, len) turns of the agent's log, oldest first, and for
      `maxTurns` 0 the whole log. */
  function HistoryLines(h: History, agentId: string, maxTurns: int): (r: seq<string>)
    ensures |r| == |RecentTurns(h, agentId, maxTurns)|
    ensures forall k :: 0 <= k < |r| ==> r[k] == TurnLine(RecentTurns(h, agentId, maxTurns)[k])
    ensures var all := TurnsOf(h, agentId);
      var n := if maxTurns < |all| then maxTurns else |all|;
      maxTurns >= 1 ==> |r| == n && forall k :: 0 <= k < n ==> r[k] == TurnLine(all[|all| - n + k])
    ensures var all := TurnsOf(h, agentId);
      maxTurns == 0 ==> |r| == |all| && forall k :: 0 <= k < |all| ==> r[k] == TurnLine(all[k])
  {
    var w := RecentTurns(h, agentId, maxTurns);
    RecentTurnsWindow(h, agentId, maxTurns);
    var all := TurnsOf(h, agentId);
    assert forall k :: 0 <= k < |w| ==> w[k] == all[|all| - |w| + k];
    seq(|w|, k requires 0 <= k < |w| => TurnLine(w[k]))
  }

  /** `get_history_context`. */
  function GetHistoryContext(h: History, agentId: string, maxTurns: int): (r: string)
    ensures TurnsOf(h, agentId) == [] ==> r == ""
  {
    if TurnsOf(h, agentId) == [] then ""
    else Join(HistoryLines(h, agentId, maxTurns), "\n")
  }

  predicate SingleLine(s: string) {
    '\n' !in s
  }

  predicate TurnIsSingleLine(t: Turn) {
    SingleLine(t.input) && SingleLine(t.response) && SingleLine(t.agentName)
  }

  lemma TurnLineSingle(t: Turn)
    requires TurnIsSingleLine(t)
    ensures SingleLine(TurnLine(t))
  {
    var parts := ["Earlier, the player said '", t.input, "', ", t.agentName, " answered '", t.response, "'."];
    assert forall k :: 0 <= k < |parts| ==> '\n' !in parts[k];
    assert TurnLine(t) == parts[0] + parts[1] + parts[2] + parts[3] + parts[4] + parts[5] + parts[6];
  }

  /** When no remembered text contains a newline, the rendered context splits
      back into exactly one line per turn of the window, in order: with 5
      turns and `maxTurns` 3 that is 3 lines, for the 3 latest turns. */
  lemma HistoryContextLines(h: History, agentId: string, maxTurns: int)
    requires maxTurns >= 1
    requires TurnsOf(h, agentId) != []
    requires forall k :: 0 <= k < |TurnsOf(h, agentId)| ==> TurnIsSingleLine(TurnsOf(h, agentId)[k])
    ensures var all := TurnsOf(h, agentId);
      var n := if maxTurns < |all| then maxTurns else |all|;
      var lines := Split(GetHistoryContext(h, agentId, maxTurns), '\n');
      && |lines| == n
      && forall k :: 0 <= k < n ==> lines[k] == TurnLine(all[|all| - n + k])
  {
    var all := TurnsOf(h, agentId);
    var w := RecentTurns(h, agentId, maxTurns);
    RecentTurnsWindow(h, agentId, maxTurns);
    var lines := HistoryLines(h, agentId, maxTurns);
    forall k | 0 <= k < |lines| ensures '\n' !in lines[k] {
      assert w[k] == all[|all| - |w| + k];
      TurnLineSingle(w[k]);
    }
    SplitJoin(lines, '\n');
  }
}
