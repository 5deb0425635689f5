/** The reply options offered to the player after an agent has answered
    (game/python/dialogue_manager.py, `_generate_player_options` and
    `_parse_options`): the model is asked for "Option N: text" lines, the
    lines are parsed, and a fixed list replaces an unusable answer. */
module PlayerOptions {
  import opened Wrappers
  import opened Text
  import DialogueLogic

  // ---------------------------------------------------------------------
  // Parsing
  // ---------------------------------------------------------------------

  /** One line of `_parse_options`: the stripped text after the first ':'
      of the stripped line, kept when it is not empty. */
  function ParseLine(line: string): (r: Option<string>)
    ensures r.Some? ==> r.value != "" && IsStripped(r.value)
    ensures ':' !in Strip(line) ==> r.None?
  {
    var l := Strip(line);
    if ':' in l then
      var rest := Strip(l[FirstIndex(l, ':') + 1..]);
      if rest != "" then Some(rest) else None
    else None
  }

  /** The option a line contributes: none or one. */
  function Kept(o: Option<string>): (r: seq<string>)
    ensures o.None? ==> r == []
    ensures o.Some? ==> r == [o.value]
  {
    if o.Some? then [o.value] else []
  }

  /** Options as `_parse_options` returns them: non-empty and stripped. */
  predicate Usable(opts: seq<string>) {
    forall k :: 0 <= k < |opts| ==> opts[k] != "" && IsStripped(opts[k])
  }

  lemma UsableConcat(a: seq<string>, b: seq<string>)
    requires Usable(a) && Usable(b)
    ensures Usable(a + b)
  {
    assert forall k :: |a| <= k < |a + b| ==> (a + b)[k] == b[k - |a|];
  }

  function ParseLines(lines: seq<string>): (r: seq<string>)
    ensures |r| <= |lines|
    ensures Usable(r)
  {
    if |lines| == 0 then []
    else
      var head := Kept(ParseLine(lines[0]));
      var rest := ParseLines(lines[1..]);
      UsableConcat(head, rest);
      head + rest
  }

  /** Lines are parsed independently and the options keep line order:
      nothing is reordered or merged. */
  lemma {:induction false} ParseLinesAppend(a: seq<string>, b: seq<string>)
    ensures ParseLines(a + b) == ParseLines(a) + ParseLines(b)
  {
    if |a| > 0 {
      assert (a + b)[1..] == a[1..] + b;
      assert (a + b)[0] == a[0];
      ParseLinesAppend(a[1..], b);
    } else {
      assert a + b == b;
    }
  }

  /** `_parse_options`: every option is a non-empty stripped string, at
      most one per line of the output. */
  function ParseOptions(text: string): (r: seq<string>)
    ensures |r| <= |Split(Strip(text), '\n')|
    ensures Usable(r)
  {
    ParseLines(Split(Strip(text), '\n'))
  }

  // ---------------------------------------------------------------------
  // The format the model is asked for
  // ---------------------------------------------------------------------

  /** "Option N: text", the line format the options prompt asks for. */
  function OptionLine(n: nat, o: string): string {
    "Option " + NatToString(n) + ": " + o
  }

  function OptionLines(opts: seq<string>, n: nat): (r: seq<string>)
    ensures |r| == |opts|
  {
    if |opts| == 0 then [] else [OptionLine(n, opts[0])] + OptionLines(opts[1..], n + 1)
  }

  /** The answer a model following the format gives for `opts`. */
  function RenderOptions(opts: seq<string>): string {
    Join(OptionLines(opts, 1), "\n")
  }

  /** What an option text must be for the format to carry it unchanged:
      one line, not empty, no surrounding whitespace. */
  predicate WellFormedOption(o: string) {
    o != "" && IsStripped(o) && '\n' !in o
  }

  /** The "Option N" head of a line: it opens with a non-space letter and
      holds neither ':' nor a line break. */
  predicate PlainHead(head: string) {
    |head| > 0 && !IsSpace(head[0]) && ':' !in head && '\n' !in head
  }

  lemma OptionHeadPlain(n: nat)
    ensures PlainHead("Option " + NatToString(n))
  {
    var d := NatToString(n);
    var head := "Option " + d;
    assert forall j :: 7 <= j < |head| ==> head[j] == d[j - 7];
    assert forall j :: 0 <= j < 7 ==> head[j] == "Option "[j];
  }

  /** A line `head + ": " + o` with a plain head is one stripped line. */
  lemma PlainLineStripped(head: string, o: string)
    requires PlainHead(head) && WellFormedOption(o)
    ensures var line := head + ": " + o; line != "" && IsStripped(line) && '\n' !in line
  {
    var line := head + ": " + o;
    assert line[0] == head[0];
    assert line[|line| - 1] == o[|o| - 1];
    assert line == head + (": " + o);
  }

  /** A stripped line whose first ':' follows `head` contributes the
      stripped text after that ':'. */
  lemma ParseLineAfter(head: string, tail: string)
    requires ':' !in head && IsStripped(head + [':'] + tail)
    ensures ParseLine(head + [':'] + tail) == if Strip(tail) != "" then Some(Strip(tail)) else None
  {
    var line := head + [':'] + tail;
    StripPadded([], line, []);
    assert [] + line + [] == line;
    FirstIndexAfter(head, ':', tail);
    assert line[|head| + 1..] == tail;
  }

  /** Its first ':' is the one after the head, so the option is `o`. */
  lemma PlainLineParses(head: string, o: string)
    requires PlainHead(head) && WellFormedOption(o)
    ensures ParseLine(head + ": " + o) == Some(o)
  {
    PlainLineStripped(head, o);
    assert head + ": " + o == head + [':'] + (" " + o);
    ParseLineAfter(head, " " + o);
    StripPadded(" ", o, []);
    assert " " + o + [] == " " + o;
  }

  lemma OptionLineShape(n: nat, o: string)
    requires WellFormedOption(o)
    ensures var line := OptionLine(n, o);
      && line != "" && IsStripped(line) && '\n' !in line
      && ParseLine(line) == Some(o)
  {
    OptionHeadPlain(n);
    PlainLineStripped("Option " + NatToString(n), o);
    PlainLineParses("Option " + NatToString(n), o);
  }

  /** Every rendered line is one non-empty stripped line. */
  lemma {:induction false} OptionLinesPlain(opts: seq<string>, n: nat)
    requires forall k :: 0 <= k < |opts| ==> WellFormedOption(opts[k])
    ensures forall k :: 0 <= k < |opts| ==> WellFormedOption(OptionLines(opts, n)[k])
  {
    if |opts| > 0 {
      OptionLineShape(n, opts[0]);
      OptionLinesPlain(opts[1..], n + 1);
      var lines := OptionLines(opts, n);
      var rest := OptionLines(opts[1..], n + 1);
      assert lines == [OptionLine(n, opts[0])] + rest;
      assert forall k :: 1 <= k < |opts| ==> lines[k] == rest[k - 1];
    }
  }

  /** Each rendered line parses back to its option. */
  lemma {:induction false} ParseOptionLines(opts: seq<string>, n: nat)
    requires forall k :: 0 <= k < |opts| ==> WellFormedOption(opts[k])
    ensures ParseLines(OptionLines(opts, n)) == opts
  {
    if |opts| > 0 {
      var lines := OptionLines(opts, n);
      var rest := OptionLines(opts[1..], n + 1);
      assert lines == [OptionLine(n, opts[0])] + rest;
      assert lines[1..] == rest;
      OptionLineShape(n, opts[0]);
      ParseOptionLines(opts[1..], n + 1);
      assert Kept(ParseLine(lines[0])) == [opts[0]];
      assert ParseLines(lines) == Kept(ParseLine(lines[0])) + ParseLines(lines[1..]);
      assert opts == [opts[0]] + opts[1..];
    }
  }

  /** Joining non-empty stripped lines gives a non-empty stripped text. */
  lemma {:induction false} JoinStripped(xs: seq<string>, sep: string)
    requires |xs| >= 1
    requires forall k :: 0 <= k < |xs| ==> xs[k] != "" && IsStripped(xs[k])
    ensures Join(xs, sep) != "" && IsStripped(Join(xs, sep))
  {
    if |xs| > 1 {
      JoinStripped(xs[1..], sep);
      var rest := Join(xs[1..], sep);
      var s := xs[0] + sep + rest;
      assert s[0] == xs[0][0];
      assert s[|s| - 1] == rest[|rest| - 1];
    }
  }

  /** Parsing recovers exactly the options of an answer in the requested
      format, in order and without deduplication. */
  lemma ParseRendered(opts: seq<string>)
    requires forall k :: 0 <= k < |opts| ==> WellFormedOption(opts[k])
    ensures ParseOptions(RenderOptions(opts)) == opts
  {
    if |opts| == 0 {
      assert RenderOptions(opts) == [];
      ParseEmptyAnswer();
    } else {
      ParseOptionLines(opts, 1);
      RenderedSplits(opts);
    }
  }

  /** An empty answer has no options. */
  lemma ParseEmptyAnswer()
    ensures ParseOptions([]) == []
  {
    StripEmpty();
    SplitEmpty('\n');
    ParseEmptyLine();
  }

  /** A single empty line holds no option. */
  lemma ParseEmptyLine()
    ensures ParseLines([[]]) == []
  {
    StripEmpty();
    assert ParseLine([]) == None;
    assert ParseLines([[]]) == Kept(ParseLine([])) + ParseLines([]);
  }

  /** The rendered lines, stated element by element. */
  lemma OptionLinesSeparate(opts: seq<string>)
    requires forall k :: 0 <= k < |opts| ==> WellFormedOption(opts[k])
    ensures forall k :: 0 <= k < |OptionLines(opts, 1)| ==>
      OptionLines(opts, 1)[k] != "" && IsStripped(OptionLines(opts, 1)[k]) && '\n' !in OptionLines(opts, 1)[k]
  {
    OptionLinesPlain(opts, 1);
  }

  /** A rendered answer has no surrounding whitespace to strip. */
  lemma RenderedStripped(opts: seq<string>)
    requires |opts| > 0
    requires forall k :: 0 <= k < |opts| ==> WellFormedOption(opts[k])
    ensures Strip(RenderOptions(opts)) == RenderOptions(opts)
  {
    var lines := OptionLines(opts, 1);
    OptionLinesSeparate(opts);
    JoinStripped(lines, "\n");
    var text := RenderOptions(opts);
    StripPadded([], text, []);
    assert [] + text + [] == text;
  }

  /** A rendered answer, stripped and cut at line breaks, gives back its
      lines. */
  lemma RenderedSplits(opts: seq<string>)
    requires |opts| > 0
    requires forall k :: 0 <= k < |opts| ==> WellFormedOption(opts[k])
    ensures Split(Strip(RenderOptions(opts)), '\n') == OptionLines(opts, 1)
  {
    var lines := OptionLines(opts, 1);
    OptionLinesSeparate(opts);
    RenderedStripped(opts);
    assert RenderOptions(opts) == Join(lines, ['\n']);
    SplitJoin(lines, '\n');
  }

  /** The three-option answer used as the format's example is parsed into
      its three texts. */
  lemma ParseThreeOptions()
    ensures ParseOptions(RenderOptions(["Tell me more", "Why are you here?", "I understand."]))
      == ["Tell me more", "Why are you here?", "I understand."]
  {
    var opts := ["Tell me more", "Why are you here?", "I understand."];
    assert WellFormedOption(opts[0]) && WellFormedOption(opts[1]) && WellFormedOption(opts[2]);
    ParseRendered(opts);
  }

  // ---------------------------------------------------------------------
  // Generation
  // ---------------------------------------------------------------------

  /** What the options call produced: the model's text, or the message of
      an exception raised inside the call's `try`. */
  datatype Outcome = Returned(text: string) | Raised(message: string)

  /** The list used when fewer than two options parse. */
  const ParseFallback: seq<string> :=
    ["Tell me more about that.", "What do you mean exactly?", "I understand. What's next?"]

  /** The list used when the call raises; its last item differs. */
  const ErrorFallback: seq<string> :=
    ["Tell me more about that.", "What do you mean exactly?", "I understand."]

  /** The choice `_generate_player_options` makes on the parsed options:
      fewer than two are replaced by the fixed list, and the result is cut
      to four. */
  function ChooseOptions(options: seq<string>): (r: seq<string>)
    ensures 2 <= |r| <= 4
    ensures (forall k :: 0 <= k < |options| ==> options[k] != "") ==> forall k :: 0 <= k < |r| ==> r[k] != ""
    ensures |options| < 2 ==> r == ParseFallback
    ensures |options| >= 2 ==>
      |r| == (if |options| < 4 then |options| else 4) && r == options[..|r|]
  {
    var r := SliceTo(if |options| < 2 then ParseFallback else options, 4);
    assert |options| >= 2 ==> forall k :: 0 <= k < |r| ==> r[k] == options[k];
    r
  }

  /** `_generate_player_options` once the model has answered: always two
      to four non-empty options; parsed options are kept in order and cut
      to four, and a fixed list replaces fewer than two, or the whole
      answer when the call raised. */
  function GeneratePlayerOptions(outcome: Outcome): (r: seq<string>)
    ensures 2 <= |r| <= 4
    ensures forall k :: 0 <= k < |r| ==> r[k] != ""
    ensures outcome.Raised? ==> r == ErrorFallback
    ensures outcome.Returned? ==> r == ChooseOptions(ParseOptions(outcome.text))
  {
    match outcome
    case Raised(_) => ErrorFallback
    case Returned(text) =>
      ChooseOptions(ParseOptions(text))
  }

  /** A model that answers in the requested format with two to four
      well-formed options has those options offered verbatim. */
  lemma GenerateFromRendered(opts: seq<string>)
    requires 2 <= |opts| <= 4
    requires forall k :: 0 <= k < |opts| ==> WellFormedOption(opts[k])
    ensures GeneratePlayerOptions(Returned(RenderOptions(opts))) == opts
  {
    ParseRendered(opts);
    assert opts[..|opts|] == opts;
  }

  const OptionsSystem: string :=
    "You are a dialogue option generator for a visual novel. "
    + "Generate 3 realistic and distinct response options that the player could say next. "
    + "Each option should be 1 short sentence (5-10 words). "
    + "Make options diverse: one could be inquisitive, one confrontational or curious, "
    + "and one could be friendly or neutral. "
    + "Format: Option 1: [text]\nOption 2: [text]\nOption 3: [text]"

  /** The user turn of the options request: the exchange so far, quoted. */
  function OptionsUserPrompt(agentName: string, playerInput: string, response: string): (r: string)
    ensures Contains(r, playerInput) && Contains(r, response)
  {
    var a := "Previous context:\nPlayer asked: \"";
    var c := "\"\n" + agentName + " responded: \"";
    var e := "\"\n\nGenerate 3 distinct response options the player could choose from.";
    OccursInFive(a, playerInput, c, response, e);
    a + playerInput + c + response + e
  }

  /** The chat prompt sent for options. */
  function OptionsPrompt(agentName: string, playerInput: string, response: string): string {
    DialogueLogic.ChatPrompt(OptionsSystem, OptionsUserPrompt(agentName, playerInput, response))
  }
}
