/** Python's `str.split()` called with no arguments: the string is cut at
    runs of whitespace, and leading and trailing whitespace yields no token. */
module Whitespace {

  /** Python's `str.isspace()` on one character: the Unicode characters of
      bidirectional class WS, B or S, or of general category Zs. */
  predicate IsSpace(c: char) {
    || ('\t' <= c <= '\r')
    || ('\U{1C}' <= c <= '\U{1F}')
    || c == ' '
    || c == '\U{85}'
    || c == '\U{A0}'
    || c == '\U{1680}'
    || ('\U{2000}' <= c <= '\U{200A}')
    || c == '\U{2028}'
    || c == '\U{2029}'
    || c == '\U{202F}'
    || c == '\U{205F}'
    || c == '\U{3000}'
  }

  /** A string made of whitespace only (possibly empty). */
  predicate Blank(s: string) {
    forall i :: 0 <= i < |s| ==> IsSpace(s[i])
  }

  /** What `str.split()` can return as one element: non-empty, no whitespace. */
  predicate IsToken(t: string) {
    |t| > 0 && forall i :: 0 <= i < |t| ==> !IsSpace(t[i])
  }

  /** Length of the longest whitespace-free prefix of `s`. */
  function TokenLength(s: string): (n: nat)
    ensures n <= |s|
    ensures forall i :: 0 <= i < n ==> !IsSpace(s[i])
    ensures n < |s| ==> IsSpace(s[n])
  {
    if |s| == 0 || IsSpace(s[0]) then 0 else 1 + TokenLength(s[1..])
  }

  /** `s.split()`: skip whitespace, take a maximal run of non-whitespace as a
      token, repeat until the string is exhausted. */
  function Split(s: string): (tokens: seq<string>)
    ensures forall k :: 0 <= k < |tokens| ==> IsToken(tokens[k])
    decreases |s|
  {
    if |s| == 0 then []
    else if IsSpace(s[0]) then Split(s[1..])
    else
      var n := TokenLength(s);
      [s[..n]] + Split(s[n..])
  }

  // ---------------------------------------------------------------------
  // An independent description of a split: a string is its tokens with
  // whitespace gaps around and between them.
  // ---------------------------------------------------------------------

  /** gaps[0] + tokens[0] + gaps[1] + ... + tokens[n-1] + gaps[n]. */
  function Interleave(gaps: seq<string>, tokens: seq<string>): string
    requires |gaps| == |tokens| + 1
    decreases |tokens|
  {
    if |tokens| == 0 then gaps[0]
    else gaps[0] + tokens[0] + Interleave(gaps[1..], tokens[1..])
  }

  /** The gaps are whitespace, those strictly between two tokens are
      non-empty, and every token is a proper token. */
  predicate Separates(gaps: seq<string>, tokens: seq<string>) {
    && |gaps| == |tokens| + 1
    && (forall j :: 0 <= j < |gaps| ==> Blank(gaps[j]))
    && (forall j :: 0 < j < |tokens| ==> |gaps[j]| > 0)
    && (forall k :: 0 <= k < |tokens| ==> IsToken(tokens[k]))
  }

  /** `s` is laid out as `tokens` separated by whitespace. */
  ghost predicate IsLayoutOf(s: string, tokens: seq<string>) {
    exists gaps :: Separates(gaps, tokens) && Interleave(gaps, tokens) == s
  }

  /** The whitespace gaps that `Split` skips over, in order. */
  function Gaps(s: string): (gaps: seq<string>)
    ensures |gaps| == |Split(s)| + 1
    decreases |s|
  {
    if |s| == 0 then [[]]
    else if IsSpace(s[0]) then
      var g := Gaps(s[1..]);
      [[s[0]] + g[0]] + g[1..]
    else
      [[]] + Gaps(s[TokenLength(s)..])
  }

  /** The first gap is non-empty exactly when the text starts with whitespace. */
  lemma FirstGap(s: string)
    ensures |s| > 0 && IsSpace(s[0]) ==> |Gaps(s)[0]| > 0
  {
  }

  /** Widening the first gap by one leading character widens the text by it. */
  lemma InterleaveWidenFirst(c: char, gaps: seq<string>, tokens: seq<string>)
    requires |gaps| == |tokens| + 1
    ensures Interleave([[c] + gaps[0]] + gaps[1..], tokens) == [c] + Interleave(gaps, tokens)
  {
    var gaps' := [[c] + gaps[0]] + gaps[1..];
    assert gaps'[0] == [c] + gaps[0];
    if |tokens| > 0 {
      assert gaps'[1..] == gaps[1..];
    }
  }

  /** An empty first gap puts the first token at the very front. */
  lemma InterleaveEmptyFirst(t: string, gaps: seq<string>, tokens: seq<string>)
    requires |gaps| == |tokens| + 1
    ensures Interleave([[]] + gaps, [t] + tokens) == t + Interleave(gaps, tokens)
  {
    var gs: seq<string> := [[]] + gaps;
    var ts := [t] + tokens;
    assert gs[0] == [] && ts[0] == t;
    assert gs[1..] == gaps && ts[1..] == tokens;
    assert Interleave(gs, ts) == gs[0] + ts[0] + Interleave(gs[1..], ts[1..]);
    assert gs[0] + ts[0] == t;
  }

  lemma {:induction false} GapsInterleave(s: string)
    ensures Interleave(Gaps(s), Split(s)) == s
    decreases |s|
  {
    if |s| == 0 {
    } else if IsSpace(s[0]) {
      GapsInterleave(s[1..]);
      InterleaveWidenFirst(s[0], Gaps(s[1..]), Split(s[1..]));
      assert [s[0]] + s[1..] == s;
    } else {
      var n := TokenLength(s);
      GapsInterleave(s[n..]);
      InterleaveEmptyFirst(s[..n], Gaps(s[n..]), Split(s[n..]));
      assert s[..n] + s[n..] == s;
    }
  }

  lemma {:induction false} GapsSeparate(s: string)
    ensures Separates(Gaps(s), Split(s))
    decreases |s|
  {
    if |s| == 0 {
    } else if IsSpace(s[0]) {
      GapsSeparate(s[1..]);
      var g := Gaps(s[1..]);
      var gaps := Gaps(s);
      assert gaps == [[s[0]] + g[0]] + g[1..];
      forall j | 0 <= j < |gaps|
        ensures Blank(gaps[j])
      {
        if j > 0 {
          assert gaps[j] == g[j];
        }
      }
      forall j | 0 < j < |Split(s)|
        ensures |gaps[j]| > 0
      {
        assert gaps[j] == g[j];
      }
    } else {
      var n := TokenLength(s);
      GapsSeparate(s[n..]);
      FirstGap(s[n..]);
      var g := Gaps(s[n..]);
      var gaps := Gaps(s);
      assert gaps == [[]] + g;
      forall j | 0 <= j < |gaps|
        ensures Blank(gaps[j])
      {
        if j > 0 {
          assert gaps[j] == g[j - 1];
        }
      }
      forall j | 0 < j < |Split(s)|
        ensures |gaps[j]| > 0
      {
        assert gaps[j] == g[j - 1];
      }
    }
  }

  /** Every string is laid out as its own split, with `Gaps` between the tokens. */
  lemma GapsLayout(s: string)
    ensures Separates(Gaps(s), Split(s))
    ensures Interleave(Gaps(s), Split(s)) == s
  {
    GapsInterleave(s);
    GapsSeparate(s);
  }

  /** Blank text in front of a string adds no tokens. */
  lemma {:induction false} SplitIgnoresLeadingBlank(w: string, s: string)
    requires Blank(w)
    ensures Split(w + s) == Split(s)
    decreases |w|
  {
    if |w| > 0 {
      assert (w + s)[1..] == w[1..] + s;
      SplitIgnoresLeadingBlank(w[1..], s);
    } else {
      assert w + s == s;
    }
  }

  /** A token followed by whitespace or by nothing is split off whole. */
  lemma SplitToken(t: string, s: string)
    requires IsToken(t)
    requires |s| == 0 || IsSpace(s[0])
    ensures Split(t + s) == [t] + Split(s)
  {
    TokenLengthOf(t, s);
    assert (t + s)[..|t|] == t;
    assert (t + s)[|t|..] == s;
  }

  lemma {:induction false} TokenLengthOf(t: string, s: string)
    requires forall i :: 0 <= i < |t| ==> !IsSpace(t[i])
    requires |s| == 0 || IsSpace(s[0])
    ensures TokenLength(t + s) == |t|
    decreases |t|
  {
    if |t| > 0 {
      assert (t + s)[1..] == t[1..] + s;
      TokenLengthOf(t[1..], s);
    } else {
      assert t + s == s;
    }
  }

  /** Text laid out as `tokens` between whitespace gaps splits into exactly `tokens`. */
  lemma {:induction false} SplitOfLayout(gaps: seq<string>, tokens: seq<string>)
    requires Separates(gaps, tokens)
    ensures Split(Interleave(gaps, tokens)) == tokens
    decreases |tokens|
  {
    if |tokens| == 0 {
      SplitIgnoresLeadingBlank(gaps[0], []);
      assert gaps[0] + [] == gaps[0];
    } else {
      var rest := Interleave(gaps[1..], tokens[1..]);
      assert Separates(gaps[1..], tokens[1..]);
      SplitOfLayout(gaps[1..], tokens[1..]);
      assert gaps[0] + tokens[0] + rest == gaps[0] + (tokens[0] + rest);
      SplitIgnoresLeadingBlank(gaps[0], tokens[0] + rest);
      if |tokens| > 1 {
        assert |gaps[1]| > 0;
        assert rest[0] == gaps[1][0];
      } else {
        assert rest == gaps[1];
      }
      SplitToken(tokens[0], rest);
    }
  }

  /** `Split(s)` is exactly the token sequence `s` is laid out as. */
  lemma SplitCharacterization(s: string, tokens: seq<string>)
    ensures Split(s) == tokens <==> IsLayoutOf(s, tokens)
  {
    if Split(s) == tokens {
      GapsLayout(s);
    }
    if IsLayoutOf(s, tokens) {
      var gaps :| Separates(gaps, tokens) && Interleave(gaps, tokens) == s;
      SplitOfLayout(gaps, tokens);
    }
  }

  lemma {:induction false} InterleaveExtendLast(gaps: seq<string>, tokens: seq<string>, w: string)
    requires |gaps| == |tokens| + 1
    ensures Interleave(gaps[..|tokens|] + [gaps[|tokens|] + w], tokens) == Interleave(gaps, tokens) + w
    decreases |tokens|
  {
    var gaps' := gaps[..|tokens|] + [gaps[|tokens|] + w];
    if |tokens| > 0 {
      InterleaveExtendLast(gaps[1..], tokens[1..], w);
      assert gaps'[1..] == gaps[1..][..|tokens| - 1] + [gaps[1..][|tokens| - 1] + w];
    }
  }

  /** Blank text after a string, such as a line's `\n`, adds no tokens. */
  lemma SplitIgnoresTrailingBlank(s: string, w: string)
    requires Blank(w)
    ensures Split(s + w) == Split(s)
  {
    var ts := Split(s);
    var gaps := Gaps(s);
    GapsLayout(s);
    var gaps' := gaps[..|ts|] + [gaps[|ts|] + w];
    InterleaveExtendLast(gaps, ts, w);
    assert Separates(gaps', ts) by {
      forall j | 0 <= j < |gaps'|
        ensures Blank(gaps'[j])
      {
        if j < |ts| {
          assert gaps'[j] == gaps[j];
        }
      }
      forall j | 0 < j < |ts|
        ensures |gaps'[j]| > 0
      {
        assert gaps'[j] == gaps[j];
      }
    }
    SplitOfLayout(gaps', ts);
  }

  /** Surrounding whitespace never changes the tokens: `(w1 + s + w2).split() == s.split()`. */
  lemma SplitIgnoresSurroundingBlank(w1: string, s: string, w2: string)
    requires Blank(w1) && Blank(w2)
    ensures Split(w1 + s + w2) == Split(s)
  {
    assert w1 + s + w2 == w1 + (s + w2);
    SplitIgnoresLeadingBlank(w1, s + w2);
    SplitIgnoresTrailingBlank(s, w2);
  }

  /** `" ".join(tokens)`. */
  function JoinSpaced(tokens: seq<string>): string
    decreases |tokens|
  {
    if |tokens| == 0 then []
    else if |tokens| == 1 then tokens[0]
    else tokens[0] + " " + JoinSpaced(tokens[1..])
  }

  /** Gaps of `JoinSpaced`: empty at both ends, one space in between. */
  function SpacedGaps(n: nat): (gaps: seq<string>)
    ensures |gaps| == n + 1
    ensures gaps[0] == [] && gaps[n] == []
    ensures forall j :: 0 < j < n ==> gaps[j] == " "
  {
    if n <= 1 then seq(n + 1, _ => []) else [[], " "] + SpacedGaps(n - 1)[1..]
  }

  lemma {:induction false} JoinSpacedLayout(tokens: seq<string>)
    ensures Interleave(SpacedGaps(|tokens|), tokens) == JoinSpaced(tokens)
    decreases |tokens|
  {
    if |tokens| > 1 {
      var rest := tokens[1..];
      JoinSpacedLayout(rest);
      var g := SpacedGaps(|tokens|);
      var g' := SpacedGaps(|rest|);
      assert g[1..] == [" "] + g'[1..];
      assert g[1..][1..] == g'[1..];
      assert Interleave(g, tokens) == tokens[0] + Interleave(g[1..], rest);
      assert Interleave(g[1..], rest) == " " + rest[0] + Interleave(g'[1..], rest[1..]);
      assert Interleave(g', rest) == rest[0] + Interleave(g'[1..], rest[1..]);
    } else if |tokens| == 1 {
      assert Interleave(SpacedGaps(1)[1..], tokens[1..]) == [];
    }
  }

  lemma SingleSpaceBlank()
    ensures Blank(" ")
  {
    assert " "[0] == ' ';
  }

  lemma SpacedGapsBlank(n: nat)
    ensures forall j :: 0 <= j < n + 1 ==> Blank(SpacedGaps(n)[j])
  {
    var gaps := SpacedGaps(n);
    forall j | 0 <= j < n + 1
      ensures Blank(gaps[j])
    {
      if 0 < j < n {
        assert gaps[j] == " ";
        SingleSpaceBlank();
      } else {
        assert gaps[j] == [];
      }
    }
  }

  lemma SpacedGapsSeparate(tokens: seq<string>)
    requires forall k :: 0 <= k < |tokens| ==> IsToken(tokens[k])
    ensures Separates(SpacedGaps(|tokens|), tokens)
  {
    var gaps := SpacedGaps(|tokens|);
    SpacedGapsBlank(|tokens|);
    forall j | 0 < j < |tokens|
      ensures |gaps[j]| > 0
    {
      assert gaps[j] == " ";
    }
  }

  /** Round trip: splitting `" ".join(tokens)` gives the tokens back. */
  lemma SplitJoinSpaced(tokens: seq<string>)
    requires forall k :: 0 <= k < |tokens| ==> IsToken(tokens[k])
    ensures Split(JoinSpaced(tokens)) == tokens
  {
    JoinSpacedLayout(tokens);
    SpacedGapsSeparate(tokens);
    SplitOfLayout(SpacedGaps(|tokens|), tokens);
  }
}
