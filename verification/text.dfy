/** Small string toolkit: the pieces of Python's `str` that the wizard relies on.
    - `IsInfix` is Python's `sub in s` on strings;
    - `Words` is Python's argument-less `s.split()`: the pieces between runs of
      whitespace;
    - `Join` is `sep.join(xs)`.
 */
module Text {

  /** Whitespace as Python's `str.split()` sees it, restricted to ASCII:
      space, tab, LF, VT, FF, CR and the four separators 0x1C..0x1F. */
  predicate IsWhitespace(c: char) {
    c == ' ' || (9 <= c as int <= 13) || (28 <= c as int <= 31)
  }

  /** Python's `str.isupper()` for one character, restricted to ASCII letters. */
  predicate IsUpperAscii(c: char) {
    'A' <= c <= 'Z'
  }

  /** A non-empty string with no whitespace: one word of `str.split()`. */
  predicate IsWord(w: string) {
    |w| > 0 && forall k :: 0 <= k < |w| ==> !IsWhitespace(w[k])
  }

  /** `p` occurs in `s` starting at offset `k`. */
  predicate OccursAt(p: string, s: string, k: int) {
    0 <= k && k + |p| <= |s| && s[k..k + |p|] == p
  }

  /** `p in s` for Python strings: `p` occurs in `s` at some offset. */
  predicate IsInfix(p: string, s: string) {
    exists k | 0 <= k <= |s| - |p| :: OccursAt(p, s, k)
  }

  /** A prefix is an infix (the occurrence at offset 0). */
  lemma PrefixIsInfix(p: string, s: string)
    requires p <= s
    ensures IsInfix(p, s)
  {
    assert OccursAt(p, s, 0);
  }

  /** Every character of an infix occurs in the host string; so a character of
      `p` that `s` lacks rules out `p in s`. */
  lemma InfixCharsOccur(p: string, s: string)
    ensures IsInfix(p, s) ==> forall i :: 0 <= i < |p| ==> p[i] in s
  {
    if IsInfix(p, s) {
      var k :| 0 <= k <= |s| - |p| && OccursAt(p, s, k);
      forall i | 0 <= i < |p| ensures p[i] in s {
        assert s[k + i] == s[k..k + |p|][i];
      }
    }
  }

  /** A character of `p` missing from `s` rules out `p in s`. */
  lemma NotInfixAt(p: string, s: string, i: int)
    requires 0 <= i < |p| && p[i] !in s
    ensures !IsInfix(p, s)
  {
    InfixCharsOccur(p, s);
  }

  /** Some character of `s` is not whitespace, so `s.split()` is not empty. */
  predicate HasWord(s: string) {
    exists k | 0 <= k < |s| :: !IsWhitespace(s[k])
  }

  /** End of the run of non-whitespace characters of `s` that starts at `i`. */
  function WordEnd(s: string, i: nat): (j: nat)
    requires i <= |s|
    ensures i <= j <= |s|
    ensures forall k :: i <= k < j ==> !IsWhitespace(s[k])
    ensures j < |s| ==> IsWhitespace(s[j])
    decreases |s| - i
  {
    if i == |s| || IsWhitespace(s[i]) then i else WordEnd(s, i + 1)
  }

  /** The leading run of non-whitespace characters of `s`. */
  function TakeWord(s: string): (w: string)
    ensures w <= s
    ensures forall k :: 0 <= k < |w| ==> !IsWhitespace(w[k])
    ensures |w| < |s| ==> IsWhitespace(s[|w|])
    ensures |s| > 0 && !IsWhitespace(s[0]) ==> |w| > 0
  {
    s[..WordEnd(s, 0)]
  }

  /** Python's `s.split()`: maximal runs of non-whitespace, left to right. */
  function Words(s: string): (ws: seq<string>)
    decreases |s|
  {
    if |s| == 0 then []
    else if IsWhitespace(s[0]) then Words(s[1..])
    else
      var w := TakeWord(s);
      [w] + Words(s[|w|..])
  }

  /** Python's `s.split()[0]`: skip leading whitespace, then take one word. */
  function FirstWord(s: string): (w: string)
    requires HasWord(s)
    ensures IsWord(w)
    decreases |s|
  {
    if IsWhitespace(s[0]) then
      assert HasWord(s[1..]) by {
        var k :| 0 <= k < |s| && !IsWhitespace(s[k]);
        assert s[1..][k - 1] == s[k];
      }
      FirstWord(s[1..])
    else TakeWord(s)
  }

  /** Python's `sep.join(xs)`. */
  function Join(sep: string, xs: seq<string>): string {
    if |xs| == 0 then ""
    else if |xs| == 1 then xs[0]
    else xs[0] + sep + Join(sep, xs[1..])
  }

  /** The words of each string, concatenated in order. */
  function AllWords(xs: seq<string>): seq<string> {
    if |xs| == 0 then [] else Words(xs[0]) + AllWords(xs[1..])
  }

  lemma {:induction false} WordEndStopsAtWhitespace(a: string, b: string, i: nat)
    requires i <= |a|
    requires |b| > 0 && IsWhitespace(b[0])
    ensures WordEnd(a + b, i) == WordEnd(a, i)
    decreases |a| - i
  {
    if i < |a| && !IsWhitespace(a[i]) {
      assert (a + b)[i] == a[i];
      WordEndStopsAtWhitespace(a, b, i + 1);
    } else {
      assert (a + b)[i] == if i < |a| then a[i] else b[0];
    }
  }

  /** Whatever follows a whitespace character does not extend the current word. */
  lemma TakeWordStopsAtWhitespace(a: string, b: string)
    requires |b| > 0 && IsWhitespace(b[0])
    ensures TakeWord(a + b) == TakeWord(a)
  {
    WordEndStopsAtWhitespace(a, b, 0);
    assert (a + b)[..WordEnd(a, 0)] == a[..WordEnd(a, 0)];
  }

  /** A word is split into itself alone. */
  lemma WordsOfWord(w: string)
    requires IsWord(w)
    ensures Words(w) == [w]
  {
    assert w[..|w|] == w;
    assert TakeWord(w) == w;
  }

  /** Splitting at a whitespace character: the words of `a + [c] + b` are
      those of `a` then those of `b`. */
  lemma {:induction false} WordsAroundWhitespace(a: string, c: char, b: string)
    requires IsWhitespace(c)
    ensures Words(a + [c] + b) == Words(a) + Words(b)
    decreases |a|
  {
    var s := a + [c] + b;
    if |a| == 0 {
      assert s[1..] == b;
    } else if IsWhitespace(a[0]) {
      assert s[1..] == a[1..] + [c] + b;
      WordsAroundWhitespace(a[1..], c, b);
    } else {
      TakeWordStopsAtWhitespace(a, [c] + b);
      assert s == a + ([c] + b);
      var w := TakeWord(a);
      assert s[|w|..] == a[|w|..] + [c] + b;
      WordsAroundWhitespace(a[|w|..], c, b);
    }
  }

  lemma WordsAroundSpace(a: string, b: string)
    ensures Words(a + " " + b) == Words(a) + Words(b)
  {
    WordsAroundWhitespace(a, ' ', b);
  }

  /** The first word of a word is the word itself. */
  lemma FirstWordOfWord(w: string)
    requires IsWord(w)
    ensures HasWord(w)
    ensures FirstWord(w) == w
  {
    assert !IsWhitespace(w[0]);
    assert w[..|w|] == w;
  }

  /** The first word of `a + " " + rest`, for a word `a`, is `a`. */
  lemma FirstWordBeforeSpace(a: string, rest: string)
    requires IsWord(a)
    ensures HasWord(a + " " + rest)
    ensures FirstWord(a + " " + rest) == a
  {
    var s := a + " " + rest;
    assert s[0] == a[0];
    assert s == a + (" " + rest);
    TakeWordStopsAtWhitespace(a, " " + rest);
    FirstWordOfWord(a);
  }

  /** `s.split()[0]` is the head of `s.split()`, and the split of a string
      with a non-whitespace character is never empty. */
  lemma {:induction false} FirstWordHeadsWords(s: string)
    requires HasWord(s)
    ensures |Words(s)| > 0 && Words(s)[0] == FirstWord(s)
    decreases |s|
  {
    if IsWhitespace(s[0]) {
      assert HasWord(s[1..]) by {
        var k :| 0 <= k < |s| && !IsWhitespace(s[k]);
        assert s[1..][k - 1] == s[k];
      }
      FirstWordHeadsWords(s[1..]);
    }
  }

  /** Words separated by single spaces, read left to right: appending a space
      and one more word adds that word. */
  lemma WordsThenWord(p: string, w: string)
    requires IsWord(w)
    ensures Words(p + " " + w) == Words(p) + [w]
  {
    WordsAroundSpace(p, w);
    WordsOfWord(w);
  }

  /** A command template with an arbitrary string `a` spliced into it: the
      words of the part before, the words of `a`, the word `u`, then the words
      of `rest`. */
  lemma WordsAroundName(p: string, a: string, u: string, rest: string)
    requires IsWord(u)
    ensures Words(p + " " + a + " " + u + " " + rest) == Words(p) + Words(a) + [u] + Words(rest)
  {
    WordsAroundSpace(p + " " + a + " " + u, rest);
    WordsThenWord(p + " " + a, u);
    WordsAroundSpace(p, a);
  }

  /** Joining two or three pieces puts the separator between neighbours. */
  lemma JoinTwo(sep: string, x: string, y: string)
    ensures Join(sep, [x, y]) == x + sep + y
  {
    assert [x, y][1..] == [y];
  }

  lemma JoinThree(sep: string, x: string, y: string, z: string)
    ensures Join(sep, [x, y, z]) == x + sep + y + sep + z
  {
    assert [x, y, z][1..] == [y, z];
    JoinTwo(sep, y, z);
  }

  /** Joining with single spaces and splitting again yields every word of every piece, in order. */
  lemma {:induction false} WordsOfJoin(xs: seq<string>)
    ensures Words(Join(" ", xs)) == AllWords(xs)
  {
    if |xs| == 0 {
    } else if |xs| == 1 {
      assert AllWords(xs[1..]) == [];
    } else {
      WordsAroundSpace(xs[0], Join(" ", xs[1..]));
      WordsOfJoin(xs[1..]);
    }
  }

  /** Round trip: a sequence of words survives `" ".join` followed by `split()`. */
  lemma {:induction false} JoinSplitRoundTrip(xs: seq<string>)
    requires forall i :: 0 <= i < |xs| ==> IsWord(xs[i])
    ensures Words(Join(" ", xs)) == xs
  {
    WordsOfJoin(xs);
    AllWordsOfWords(xs);
  }

  lemma {:induction false} AllWordsOfWords(xs: seq<string>)
    requires forall i :: 0 <= i < |xs| ==> IsWord(xs[i])
    ensures AllWords(xs) == xs
  {
    if |xs| > 0 {
      WordsOfWord(xs[0]);
      AllWordsOfWords(xs[1..]);
    }
  }
}
