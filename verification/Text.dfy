/** The string functions the parser relies on: splitting, joining, trimming, letter case.
    Characters are ASCII; a character is one byte. */
module Text {

  // ---- Splitting at a separator ----

  /** The pieces between separators; one more than there are separators. */
  function Split(s: string, sep: char): (pieces: seq<string>)
    ensures |pieces| >= 1
  {
    if s == "" then [""]
    else
      var rest := Split(s[1..], sep);
      if s[0] == sep then [""] + rest else [[s[0]] + rest[0]] + rest[1..]
  }

  function Join(pieces: seq<string>, sep: char): string
    requires |pieces| >= 1
  {
    if |pieces| == 1 then pieces[0] else pieces[0] + [sep] + Join(pieces[1..], sep)
  }

  lemma {:induction false} JoinSplit(s: string, sep: char)
    ensures Join(Split(s, sep), sep) == s
  {
    if s != "" {
      JoinSplit(s[1..], sep);
      var rest, pieces := Split(s[1..], sep), Split(s, sep);
      if s[0] == sep {
        assert pieces[1..] == rest;
      } else if |rest| > 1 {
        assert pieces[1..] == rest[1..];
      }
    }
  }

  lemma {:induction false} PiecesHaveNoSeparator(s: string, sep: char)
    ensures forall i :: 0 <= i < |Split(s, sep)| ==> sep !in Split(s, sep)[i]
  {
    if s != "" {
      PiecesHaveNoSeparator(s[1..], sep);
    }
  }

  lemma {:induction false} SplitOnePiece(s: string, sep: char)
    requires sep !in s
    ensures Split(s, sep) == [s]
  {
    if s != "" {
      SplitOnePiece(s[1..], sep);
      assert [s[0]] + s[1..] == s;
    }
  }

  /** Splitting text around a separator splits the two sides on their own. */
  lemma {:induction false} SplitAround(a: string, b: string, sep: char)
    ensures Split(a + [sep] + b, sep) == Split(a, sep) + Split(b, sep)
  {
    if a == "" {
      assert a + [sep] + b == [sep] + b && ([sep] + b)[1..] == b;
    } else {
      var whole := a + [sep] + b;
      assert whole[0] == a[0] && whole[1..] == a[1..] + [sep] + b;
      SplitAround(a[1..], b, sep);
    }
  }

  /** Splitting is the only way to cut text into separator-free pieces. */
  lemma {:induction false} SplitJoin(pieces: seq<string>, sep: char)
    requires |pieces| >= 1 && forall i :: 0 <= i < |pieces| ==> sep !in pieces[i]
    ensures Split(Join(pieces, sep), sep) == pieces
    decreases |pieces|
  {
    SplitOnePiece(pieces[0], sep);
    if |pieces| > 1 {
      SplitJoin(pieces[1..], sep);
      SplitAround(pieces[0], Join(pieces[1..], sep), sep);
      assert [pieces[0]] + pieces[1..] == pieces;
    }
  }

  /** So the pieces are determined: the one way to cut a text at every separator. */
  lemma SplitIff(s: string, pieces: seq<string>, sep: char)
    ensures Split(s, sep) == pieces <==>
      |pieces| >= 1 && (forall i :: 0 <= i < |pieces| ==> sep !in pieces[i]) && Join(pieces, sep) == s
  {
    PiecesHaveNoSeparator(s, sep);
    JoinSplit(s, sep);
    if |pieces| >= 1 && forall i :: 0 <= i < |pieces| ==> sep !in pieces[i] {
      SplitJoin(pieces, sep);
    }
  }

  // ---- Characters ----

  /** What the pattern class for white space matches: no vertical tab. */
  predicate IsSpace(c: char) {
    c == ' ' || c == '\t' || c == '\n' || c == '\r' || c == '\U{0C}'
  }

  /** What trimming removes: the vertical tab too. */
  predicate IsTrimmed(c: char) {
    IsSpace(c) || c == '\U{0B}'
  }

  /** In code points: tab to carriage return, and space. */
  predicate IsWhite(c: char) {
    9 <= c as int <= 13 || c as int == 32
  }

  /** The vertical tab is number 11. */
  lemma WhiteSpaceIff(c: char)
    ensures IsTrimmed(c) <==> IsWhite(c)
    ensures IsSpace(c) <==> IsWhite(c) && c as int != 11
  {
    assert '\t' as int == 9 && '\n' as int == 10 && '\U{0B}' as int == 11 && '\U{0C}' as int == 12;
    assert '\r' as int == 13 && ' ' as int == 32;
  }

  predicate IsAlnum(c: char) {
    'a' <= c <= 'z' || 'A' <= c <= 'Z' || '0' <= c <= '9'
  }

  predicate All(s: string, p: char -> bool) {
    forall i :: 0 <= i < |s| ==> p(s[i])
  }

  lemma AllConcat(a: string, b: string, p: char -> bool)
    ensures All(a + b, p) <==> All(a, p) && All(b, p)
  {
    if All(a + b, p) {
      assert forall i :: 0 <= i < |a| ==> a[i] == (a + b)[i];
      assert forall i :: 0 <= i < |b| ==> b[i] == (a + b)[|a| + i];
    }
  }

  // ---- Taking a prefix ----

  /** Length of the longest prefix of characters satisfying `p`. */
  function Span(s: string, p: char -> bool): (n: nat)
    ensures n <= |s| && All(s[..n], p) && (n < |s| ==> !p(s[n]))
  {
    if s == "" || !p(s[0]) then 0 else 1 + Span(s[1..], p)
  }

  lemma {:induction false} SpanUnique(a: string, b: string, p: char -> bool)
    requires All(a, p) && (b != "" ==> !p(b[0]))
    ensures Span(a + b, p) == |a| && (a + b)[..|a|] == a && (a + b)[|a|..] == b
  {
    if a == "" {
      assert a + b == b;
    } else {
      assert (a + b)[1..] == a[1..] + b;
      SpanUnique(a[1..], b, p);
    }
  }

  // ---- Trimming ----

  function TrimLeft(s: string): string {
    s[Span(s, IsTrimmed)..]
  }

  function TrimRight(s: string): (t: string)
    ensures t <= s && All(s[|t|..], IsTrimmed) && (t != "" ==> !IsTrimmed(t[|t| - 1]))
  {
    if s != "" && IsTrimmed(s[|s| - 1]) then TrimRight(s[..|s| - 1]) else s
  }

  function TrimSpace(s: string): string {
    TrimRight(TrimLeft(s))
  }

  predicate Tight(s: string) {
    s != "" ==> !IsTrimmed(s[0]) && !IsTrimmed(s[|s| - 1])
  }

  predicate Around(s: string, l: string, t: string, r: string) {
    s == l + t + r && All(l, IsTrimmed) && All(r, IsTrimmed)
  }

  lemma TrimLeftMeans(s: string)
    ensures var n := |s| - |TrimLeft(s)|;
      0 <= n <= |s| && All(s[..n], IsTrimmed) && s == s[..n] + TrimLeft(s)
    ensures TrimLeft(s) != "" ==> !IsTrimmed(TrimLeft(s)[0])
  {
  }

  lemma TightPrefix(inner: string, t: string)
    requires t <= inner && (inner != "" ==> !IsTrimmed(inner[0])) && (t != "" ==> !IsTrimmed(t[|t| - 1]))
    ensures Tight(t)
  {
  }

  /** Trimming cuts off nothing but white space, and leaves none at either end. */
  lemma TrimSpaceMeans(s: string)
    ensures Tight(TrimSpace(s))
    ensures exists l, r :: Around(s, l, TrimSpace(s), r)
  {
    var inner := TrimLeft(s);
    var t := TrimRight(inner);
    TrimLeftMeans(s);
    TightPrefix(inner, t);
    AroundPieces(s, s[..|s| - |inner|], inner, t);
  }

  /** The same by position: a middle piece that neither starts nor ends with white space, and nothing else
      around it. */
  lemma TrimSpacePositions(s: string) returns (from: nat, to: nat)
    ensures from <= to <= |s| && TrimSpace(s) == s[from..to]
    ensures forall i :: 0 <= i < from || to <= i < |s| ==> IsWhite(s[i])
    ensures from < to ==> !IsWhite(s[from]) && !IsWhite(s[to - 1])
  {
    TrimSpaceMeans(s);
    var l, r :| Around(s, l, TrimSpace(s), r);
    from, to := |l|, |l| + |TrimSpace(s)|;
    forall i | 0 <= i < from || to <= i < |s|
      ensures IsWhite(s[i])
    {
      WhiteSpaceIff(s[i]);
      assert i < from ==> s[i] == l[i];
      assert to <= i ==> s[i] == r[i - to];
    }
    if from < to {
      WhiteSpaceIff(s[from]);
      WhiteSpaceIff(s[to - 1]);
    }
  }

  lemma AroundPieces(s: string, l: string, inner: string, t: string)
    requires s == l + inner && t <= inner && All(l, IsTrimmed) && All(inner[|t|..], IsTrimmed)
    ensures Around(s, l, t, inner[|t|..])
  {
    assert inner == t + inner[|t|..];
  }

  /** Nothing is left exactly of text that is all white space. */
  lemma TrimsAwayIff(s: string)
    ensures TrimSpace(s) == "" <==> All(s, IsTrimmed)
  {
    TrimSpaceMeans(s);
    var l, r :| Around(s, l, TrimSpace(s), r);
    AllConcat(l + TrimSpace(s), r, IsTrimmed);
    AllConcat(l, TrimSpace(s), IsTrimmed);
  }

  lemma TightIsTrimmed(s: string)
    requires Tight(s)
    ensures TrimSpace(s) == s
  {
  }

  /** Trimming keeps any condition on characters. */
  lemma TrimKeeps(s: string, p: char -> bool)
    requires All(s, p)
    ensures All(TrimSpace(s), p)
  {
  }

  // ---- Letter case ----

  function LowerChar(c: char): char {
    if 'A' <= c <= 'Z' then (c as int + 32) as char else c
  }

  function UpperChar(c: char): char {
    if 'a' <= c <= 'z' then (c as int - 32) as char else c
  }

  function ToLower(s: string): string {
    seq(|s|, i requires 0 <= i < |s| => LowerChar(s[i]))
  }

  function ToUpper(s: string): string {
    seq(|s|, i requires 0 <= i < |s| => UpperChar(s[i]))
  }

  lemma AccountCases()
    ensures ToUpper("direct") == "DIRECT" && ToUpper("reseller") == "RESELLER"
    ensures ToUpper("DIRECT") == "DIRECT" && ToUpper("RESELLER") == "RESELLER"
  {
  }

  /** Lower case, character by character: capitals move by 32, the others stay, and no capital is left. */
  ghost predicate Lowered(s: string, lower: string) {
    && |lower| == |s|
    && (forall i :: 0 <= i < |s| ==> lower[i] as int == if 'A' <= s[i] <= 'Z' then s[i] as int + 32 else s[i] as int)
    && NoCapitals(lower)
  }

  predicate NoCapitals(s: string) {
    forall i :: 0 <= i < |s| ==> !('A' <= s[i] <= 'Z')
  }

  lemma ToLowerMeans(s: string)
    ensures Lowered(s, ToLower(s))
    ensures ToLower(s) == s <==> NoCapitals(s)
  {
    if ToLower(s) == s {
      assert forall i :: 0 <= i < |s| ==> s[i] == ToLower(s)[i];
    }
  }
}
