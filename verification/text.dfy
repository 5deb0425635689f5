/** String and list primitives with the semantics of the Python built-ins the
    dialogue code relies on: `str.strip`, `str.lower` (restricted to the
    letters the game's text uses), `str.startswith`, `str.join`,
    `str.split`, and list slicing with possibly negative bounds. */
module Text {

  /** Python's `str.isspace` for a single character. */
  predicate IsSpace(c: char) {
    || c == ' ' || c == '\t' || c == '\n' || c == '\r'
    || c == '\U{000B}' || c == '\U{000C}'
    || ('\U{001C}' <= c <= '\U{001F}')
    || c == '\U{0085}' || c == '\U{00A0}' || c == '\U{1680}'
    || ('\U{2000}' <= c <= '\U{200A}')
    || c == '\U{2028}' || c == '\U{2029}' || c == '\U{202F}'
    || c == '\U{205F}' || c == '\U{3000}'
  }

  predicate AllSpace(s: string) {
    forall i :: 0 <= i < |s| ==> IsSpace(s[i])
  }

  /** True of a string that `str.strip` leaves unchanged. */
  predicate IsStripped(s: string) {
    s == [] || (!IsSpace(s[0]) && !IsSpace(s[|s| - 1]))
  }

  /** Number of leading whitespace characters. */
  function LeadCount(s: string): (n: nat)
    ensures n <= |s|
    ensures AllSpace(s[..n])
    ensures n == |s| || !IsSpace(s[n])
  {
    if |s| == 0 || !IsSpace(s[0]) then 0
    else
      var k := LeadCount(s[1..]);
      assert s[..k + 1] == [s[0]] + s[1..][..k];
      k + 1
  }

  /** Number of trailing whitespace characters. */
  function TrailCount(s: string): (n: nat)
    ensures n <= |s|
    ensures AllSpace(s[|s| - n..])
    ensures n == |s| || !IsSpace(s[|s| - n - 1])
  {
    if |s| == 0 || !IsSpace(s[|s| - 1]) then 0
    else
      var init := s[..|s| - 1];
      var k := TrailCount(init);
      assert s[|s| - (k + 1)..] == init[|init| - k..] + [s[|s| - 1]];
      k + 1
  }

  /** Python's `str.strip()` with no argument. */
  function Strip(s: string): (r: string)
    ensures IsStripped(r)
    ensures |r| <= |s|
    ensures r == [] <==> AllSpace(s)
  {
    var n := LeadCount(s);
    LeadAllSpace(s, n);
    var t := s[n..];
    assert |t| > 0 ==> t[0] == s[n];
    var m := TrailCount(t);
    TrailParts(t, m);
    t[..|t| - m]
  }

  /** The leading count covers the whole string exactly when it is all whitespace. */
  lemma LeadAllSpace(s: string, n: nat)
    requires n <= |s| && AllSpace(s[..n]) && (n == |s| || !IsSpace(s[n]))
    ensures AllSpace(s) <==> n == |s|
  {
    if n == |s| {
      assert s[..n] == s;
    }
  }

  /** Cutting the trailing whitespace off a string that starts with a
      non-space leaves a stripped, non-empty string. */
  lemma TrailParts(t: string, m: nat)
    requires |t| == 0 || !IsSpace(t[0])
    requires m <= |t| && AllSpace(t[|t| - m..])
    requires m == |t| || !IsSpace(t[|t| - m - 1])
    ensures IsStripped(t[..|t| - m])
    ensures t[..|t| - m] == [] <==> |t| == 0
  {
    SuffixHead(t, m);
  }

  /** A whitespace suffix that is the whole string starts with whitespace. */
  lemma SuffixHead(t: string, m: nat)
    requires m <= |t| && AllSpace(t[|t| - m..])
    ensures m == |t| && |t| > 0 ==> IsSpace(t[0])
  {
    if m == |t| && |t| > 0 {
      assert t[|t| - m..][0] == t[0];
    }
  }

  lemma StripEmpty()
    ensures Strip([]) == []
  {
  }

  /** `Strip` removes exactly the whitespace padding around a stripped core. */
  lemma {:induction false} StripPadded(a: string, x: string, b: string)
    requires AllSpace(a) && AllSpace(b) && IsStripped(x)
    ensures Strip(a + x + b) == x
  {
    var s := a + x + b;
    if x == [] {
      assert AllSpace(s) by {
        forall i | 0 <= i < |s| ensures IsSpace(s[i]) {
          if i < |a| { assert s[i] == a[i]; } else { assert s[i] == b[i - |a|]; }
        }
      }
    } else {
      var n := LeadCount(s);
      assert forall i :: 0 <= i < |a| ==> s[i] == a[i];
      assert forall j :: 0 <= j < n ==> IsSpace(s[j]);
      assert s[|a|] == x[0];
      assert n == |a|;
      var t := s[n..];
      assert t == x + b;
      var m := TrailCount(t);
      assert forall j :: |t| - m <= j < |t| ==> IsSpace(t[j]);
      assert forall j :: |x| <= j < |t| ==> t[j] == b[j - |x|];
      assert t[|x| - 1] == x[|x| - 1];
      assert m == |b|;
      assert t[..|t| - m] == x;
    }
  }

  /** Stripping is idempotent. */
  lemma StripIdempotent(s: string)
    ensures Strip(Strip(s)) == Strip(s)
  {
    StripPadded([], Strip(s), []);
    assert [] + Strip(s) + [] == Strip(s);
  }

  /** The characters `str.lower` changes among those the game text can
      contain: ASCII capitals and the capitals of the accented letters the
      tokenizer accepts. Other characters are left as they are. */
  function LowerChar(c: char): char {
    if 'A' <= c <= 'Z' then (c as int + 32) as char
    else if c == '\U{00C9}' then '\U{00E9}'  // É
    else if c == '\U{00C8}' then '\U{00E8}'  // È
    else if c == '\U{00CA}' then '\U{00EA}'  // Ê
    else if c == '\U{00C0}' then '\U{00E0}'  // À
    else if c == '\U{00D9}' then '\U{00F9}'  // Ù
    else if c == '\U{00CF}' then '\U{00EF}'  // Ï
    else if c == '\U{00DB}' then '\U{00FB}'  // Û
    else if c == '\U{00C7}' then '\U{00E7}'  // Ç
    else c
  }

  function Lower(s: string): (r: string)
    ensures |r| == |s|
    ensures forall i :: 0 <= i < |s| ==> r[i] == LowerChar(s[i])
  {
    if |s| == 0 then [] else [LowerChar(s[0])] + Lower(s[1..])
  }

  lemma LowerAppend(a: string, b: string)
    ensures Lower(a + b) == Lower(a) + Lower(b)
  {
    assert Lower(a + b) == Lower(a) + Lower(b);
  }

  predicate StartsWith(s: string, prefix: string) {
    |prefix| <= |s| && s[..|prefix|] == prefix
  }

  /** `s` opens with `p` once lower-cased, compared character by character. */
  predicate FoldedPrefix(s: string, p: string) {
    |p| <= |s| && forall i :: 0 <= i < |p| ==> LowerChar(s[i]) == p[i]
  }

  /** `s.lower().startswith(p)` is the character-wise comparison. */
  lemma FoldedPrefixIsLowerPrefix(s: string, p: string)
    ensures FoldedPrefix(s, p) <==> StartsWith(Lower(s), p)
  {
    if |p| <= |s| {
      assert forall i :: 0 <= i < |p| ==> Lower(s)[..|p|][i] == LowerChar(s[i]);
    }
  }

  predicate OccursAt(s: string, part: string, i: int) {
    0 <= i <= |s| - |part| && s[i..i + |part|] == part
  }

  predicate Contains(s: string, part: string) {
    exists i :: 0 <= i <= |s| && OccursAt(s, part, i)
  }

  /** `a + b + c + d + e` contains `b` and `d`. */
  lemma OccursInFive(a: string, b: string, c: string, d: string, e: string)
    ensures Contains(a + b + c + d + e, b) && Contains(a + b + c + d + e, d)
  {
    var s := a + b + c + d + e;
    assert s[|a|..|a| + |b|] == b;
    assert OccursAt(s, b, |a|);
    assert s[|a + b + c|..|a + b + c| + |d|] == d;
    assert OccursAt(s, d, |a + b + c|);
  }

  /** The same, for a five-part text placed after a prefix `p`. */
  lemma OccursInFiveAfter(p: string, a: string, b: string, c: string, d: string, e: string)
    ensures Contains(p + (a + b + c + d + e), b) && Contains(p + (a + b + c + d + e), d)
  {
    var s := p + (a + b + c + d + e);
    assert s[|p + a|..|p + a| + |b|] == b;
    assert OccursAt(s, b, |p + a|);
    assert s[|p + a + b + c|..|p + a + b + c| + |d|] == d;
    assert OccursAt(s, d, |p + a + b + c|);
  }

  /** A part of `a` is a part of `a + b`. */
  lemma ContainsPrefix(a: string, b: string, part: string)
    requires Contains(a, part)
    ensures Contains(a + b, part)
  {
    var i :| 0 <= i <= |a| && OccursAt(a, part, i);
    assert (a + b)[i..i + |part|] == a[i..i + |part|];
    assert OccursAt(a + b, part, i);
  }

  /** Python's `sep.join(xs)`. */
  function Join(xs: seq<string>, sep: string): string {
    if |xs| == 0 then []
    else if |xs| == 1 then xs[0]
    else xs[0] + sep + Join(xs[1..], sep)
  }

  function FirstIndex(s: string, c: char): (i: nat)
    requires c in s
    ensures i < |s| && s[i] == c && c !in s[..i]
  {
    if s[0] == c then 0
    else
      var k := FirstIndex(s[1..], c);
      assert s[..k + 1] == [s[0]] + s[1..][..k];
      k + 1
  }

  /** The first `c` of `a + [c] + b` is the one after `a` when `a` has none. */
  lemma FirstIndexAfter(a: string, c: char, b: string)
    requires c !in a
    ensures c in a + [c] + b && FirstIndex(a + [c] + b, c) == |a|
  {
    var s := a + [c] + b;
    assert s[|a|] == c;
    assert forall j :: 0 <= j < |a| ==> s[j] == a[j];
    assert forall j :: 0 <= j < |a| ==> s[j] != c;
  }

  /** Python's `s.split(c)` for a one-character separator: always at least
      one piece, and no piece contains the separator. */
  function Split(s: string, c: char): (r: seq<string>)
    ensures |r| >= 1
    ensures forall k :: 0 <= k < |r| ==> c !in r[k]
    decreases |s|
  {
    if c !in s then [s]
    else
      var i := FirstIndex(s, c);
      [s[..i]] + Split(s[i + 1..], c)
  }

  lemma SplitEmpty(c: char)
    ensures Split([], c) == [[]]
  {
  }

  /** Splitting undoes joining when no piece contains the separator. */
  lemma {:induction false} SplitJoin(xs: seq<string>, c: char)
    requires |xs| >= 1
    requires forall k :: 0 <= k < |xs| ==> c !in xs[k]
    ensures Split(Join(xs, [c]), c) == xs
  {
    if |xs| > 1 {
      var s := Join(xs, [c]);
      var rest := Join(xs[1..], [c]);
      assert s == xs[0] + [c] + rest;
      assert s[|xs[0]|] == c;
      assert s[..|xs[0]|] == xs[0];
      var i := FirstIndex(s, c);
      assert forall j :: 0 <= j < i ==> s[j] != c;
      assert forall j :: 0 <= j < |xs[0]| ==> s[j] == xs[0][j];
      assert i == |xs[0]|;
      assert s[|xs[0]| + 1..] == rest;
      SplitJoin(xs[1..], c);
    }
  }

  function DigitChar(d: nat): char
    requires d < 10
  {
    ('0' as int + d) as char
  }

  /** Decimal rendering of a natural number (Python's `str(n)`). */
  function NatToString(n: nat): (r: string)
    ensures |r| >= 1
    ensures forall k :: 0 <= k < |r| ==> '0' <= r[k] <= '9'
  {
    if n < 10 then [DigitChar(n)] else NatToString(n / 10) + [DigitChar(n % 10)]
  }

  /** Python's `s[:j]` for any integer `j`. */
  function SliceTo<T>(s: seq<T>, j: int): (r: seq<T>)
    ensures |r| <= |s| && r == s[..|r|]
    ensures j >= 0 ==> |r| == if j < |s| then j else |s|
    ensures j < 0 ==> |r| == if |s| + j > 0 then |s| + j else 0
  {
    if j >= 0 then s[..if j < |s| then j else |s|]
    else s[..if |s| + j > 0 then |s| + j else 0]
  }

  /** Python's `s[i:]` for any integer `i`. */
  function SliceFrom<T>(s: seq<T>, i: int): (r: seq<T>)
    ensures |r| <= |s| && r == s[|s| - |r|..]
    ensures i >= 0 ==> |r| == if i < |s| then |s| - i else 0
    ensures i < 0 ==> |r| == if -i < |s| then -i else |s|
  {
    if i >= 0 then s[if i < |s| then i else |s|..]
    else s[if |s| + i > 0 then |s| + i else 0..]
  }
}
