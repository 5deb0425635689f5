/** The retrieval tokenizer (game/python/rag_store.py, `_tokenize`):
    lower-case the text, take the maximal runs of word characters in order,
    and drop the stopwords. */
module Tokenizer {
  import opened Text

  /** The character class `[a-zA-Zéèêàùïûç'-]`. */
  predicate IsTokenChar(c: char) {
    || ('a' <= c <= 'z') || ('A' <= c <= 'Z')
    || c == '\U{00E9}' || c == '\U{00E8}' || c == '\U{00EA}' || c == '\U{00E0}'
    || c == '\U{00F9}' || c == '\U{00EF}' || c == '\U{00FB}' || c == '\U{00E7}'
    || c == '\'' || c == '-'
  }

  /** A non-empty run of word characters. */
  predicate IsWord(w: string) {
    |w| > 0 && forall j :: 0 <= j < |w| ==> IsTokenChar(w[j])
  }

  /** The English and French function words the retriever ignores. */
  const Stopwords: set<string> := {
    "the", "a", "an", "and", "or", "of", "in", "on", "to",
    "le", "la", "les", "un", "une", "des", "et", "de", "du", "en", "au", "aux"
  }

  /** Length of the run of word characters at the start of `s`. */
  function RunLength(s: string): (n: nat)
    requires |s| > 0 && IsTokenChar(s[0])
    ensures 1 <= n <= |s|
    ensures forall j :: 0 <= j < n ==> IsTokenChar(s[j])
    ensures n == |s| || !IsTokenChar(s[n])
  {
    if |s| == 1 || !IsTokenChar(s[1]) then 1
    else 1 + RunLength(s[1..])
  }

  /** The run length is the only length with those two properties. */
  lemma RunLengthUnique(s: string, k: nat)
    requires 1 <= k <= |s|
    requires forall j :: 0 <= j < k ==> IsTokenChar(s[j])
    requires k == |s| || !IsTokenChar(s[k])
    ensures RunLength(s) == k
  {
    var n := RunLength(s);
    assert forall j :: 0 <= j < n ==> IsTokenChar(s[j]);
  }

  /** The maximal runs of word characters of `s`, left to right
      (`re.findall` with the character class above and `+`). */
  function Runs(s: string): (r: seq<string>)
    ensures forall k :: 0 <= k < |r| ==> IsWord(r[k])
    ensures forall k, j :: 0 <= k < |r| && 0 <= j < |r[k]| ==> r[k][j] in s
    decreases |s|
  {
    if |s| == 0 then []
    else if !IsTokenChar(s[0]) then Runs(s[1..])
    else
      var n := RunLength(s);
      [s[..n]] + Runs(s[n..])
  }

  function DropStopwords(ts: seq<string>): (r: seq<string>)
    ensures forall k :: 0 <= k < |r| ==> r[k] !in Stopwords && r[k] in ts
  {
    if |ts| == 0 then []
    else if ts[0] in Stopwords then DropStopwords(ts[1..])
    else [ts[0]] + DropStopwords(ts[1..])
  }

  lemma DropStopwordsAppend(a: seq<string>, b: seq<string>)
    ensures DropStopwords(a + b) == DropStopwords(a) + DropStopwords(b)
  {
    if |a| > 0 {
      assert (a + b)[1..] == a[1..] + b;
      DropStopwordsAppend(a[1..], b);
    } else {
      assert a + b == b;
    }
  }

  /** `_tokenize`: the lower-cased word runs that are not stopwords. Every
      token is a word of lower-case characters drawn from the lower-cased text. */
  function Tokenize(s: string): (r: seq<string>)
    ensures forall k :: 0 <= k < |r| ==> IsWord(r[k]) && r[k] !in Stopwords
    ensures forall k, j :: 0 <= k < |r| && 0 <= j < |r[k]| ==> r[k][j] in Lower(s)
  {
    DropStopwords(Runs(Lower(s)))
  }

  /** A single non-word character separates runs: the runs of `a + [c] + b`
      are those of `a` followed by those of `b`. */
  lemma {:induction false} RunsSeparated(a: string, c: char, b: string)
    requires !IsTokenChar(c)
    ensures Runs(a + [c] + b) == Runs(a) + Runs(b)
    decreases |a|
  {
    var s := a + [c] + b;
    if |a| == 0 {
      assert s[1..] == b;
      assert Runs(s) == Runs(b);
    } else if !IsTokenChar(a[0]) {
      assert s[1..] == a[1..] + [c] + b;
      RunsSeparated(a[1..], c, b);
      assert Runs(s) == Runs(s[1..]);
      assert Runs(a) == Runs(a[1..]);
    } else {
      var n := RunLength(a);
      RunBeforeSeparator(a, c, b);
      CutInside(a, c, b, n);
      RunsSeparated(a[n..], c, b);
      assert Runs(s) == [s[..n]] + Runs(s[n..]);
      assert Runs(a) == [a[..n]] + Runs(a[n..]);
      assert [a[..n]] + (Runs(a[n..]) + Runs(b)) == [a[..n]] + Runs(a[n..]) + Runs(b);
    }
  }

  /** The first run of `a` is also the first run of `a + [c] + b`. */
  lemma RunBeforeSeparator(a: string, c: char, b: string)
    requires !IsTokenChar(c) && |a| > 0 && IsTokenChar(a[0])
    ensures RunLength(a + [c] + b) == RunLength(a)
  {
    var s := a + [c] + b;
    var n := RunLength(a);
    assert forall j :: 0 <= j < n ==> s[j] == a[j];
    assert n == |a| ==> s[n] == c;
    assert n < |a| ==> s[n] == a[n];
    RunLengthUnique(s, n);
  }

  /** Cutting `a + [c] + b` inside `a`. */
  lemma CutInside(a: string, c: char, b: string, n: nat)
    requires n <= |a|
    ensures (a + [c] + b)[..n] == a[..n] && (a + [c] + b)[n..] == a[n..] + [c] + b
  {
  }

  /** A word is its own single run. */
  lemma RunsOfWord(w: string)
    requires IsWord(w)
    ensures Runs(w) == [w]
  {
    RunLengthUnique(w, |w|);
    assert w[..|w|] == w;
    assert w[|w|..] == [];
  }

  /** Tokenizing two texts joined by a space gives the two token lists in order. */
  lemma TokenizeSpaced(a: string, b: string)
    ensures Tokenize(a + " " + b) == Tokenize(a) + Tokenize(b)
  {
    LowerAppend(a + " ", b);
    LowerAppend(a, " ");
    assert Lower(" ") == " ";
    RunsSeparated(Lower(a), ' ', Lower(b));
    DropStopwordsAppend(Runs(Lower(a)), Runs(Lower(b)));
  }

  /** The tokens of every text in `xs`, in order. */
  function TokenizeEach(xs: seq<string>): seq<string> {
    if |xs| == 0 then [] else Tokenize(xs[0]) + TokenizeEach(xs[1..])
  }

  /** Tokenizing a space-joined list (how tags are flattened before scoring)
      is tokenizing each element and concatenating. */
  lemma {:induction false} TokenizeJoined(xs: seq<string>)
    ensures Tokenize(Join(xs, " ")) == TokenizeEach(xs)
  {
    if |xs| == 0 {
      assert Lower([]) == [];
    } else if |xs| == 1 {
      assert TokenizeEach(xs[1..]) == [];
    } else {
      TokenizeSpaced(xs[0], Join(xs[1..], " "));
      TokenizeJoined(xs[1..]);
    }
  }

  /** A lower-case word that is not a stopword tokenizes to itself. */
  lemma TokenizeWord(w: string)
    requires IsWord(w) && Lower(w) == w && w !in Stopwords
    ensures Tokenize(w) == [w]
  {
    RunsOfWord(w);
    assert DropStopwords([w][1..]) == [];
  }
}
