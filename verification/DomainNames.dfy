/** Which names pass as domains. The pattern accepts dot-separated labels in the sense of section 2.3.1
    of RFC 1035, with a leading digit allowed as in section 2.1 of RFC 1123. */
module DomainNames {
  import opened Text

  const MAX_NAME := 253
  const MAX_LABEL := 63

  predicate IsLabelChar(c: char) {
    IsAlnum(c) || c == '-'
  }

  /** An alphanumeric, optionally followed by up to 61 alphanumerics or hyphens and a last alphanumeric. */
  predicate IsLabel(s: string) {
    && 1 <= |s| <= MAX_LABEL && All(s, IsLabelChar)
    && IsAlnum(s[0]) && IsAlnum(s[|s| - 1])
  }

  predicate AllLabels(pieces: seq<string>) {
    forall i :: 0 <= i < |pieces| ==> IsLabel(pieces[i])
  }

  /** What the pattern says: labels with dots between them. */
  ghost predicate MatchesPattern(s: string) {
    exists labels: seq<string> :: |labels| >= 1 && AllLabels(labels) && s == Join(labels, '.')
  }

  /** One pass over the text, knowing the length of the label under way and whether its last
      character may end it. */
  predicate ScanName(s: string, length: nat, mayEnd: bool) {
    if s == "" then mayEnd
    else if s[0] == '.' then mayEnd && ScanName(s[1..], 0, false)
    else if IsAlnum(s[0]) then length < MAX_LABEL && ScanName(s[1..], length + 1, true)
    else s[0] == '-' && 1 <= length < MAX_LABEL && ScanName(s[1..], length + 1, false)
  }

  function TrimDot(s: string): string {
    if s != "" && s[|s| - 1] == '.' then s[..|s| - 1] else s
  }

  predicate IsValidDomain(domain: string) {
    && domain != "" && |domain| <= MAX_NAME
    && var name := TrimDot(domain);
      '.' in name && |name| > 1 && ScanName(name, 0, false)
  }

  // ---- The scanner decides the pattern ----

  /** A label cut short. */
  predicate IsLabelStart(s: string) {
    |s| <= MAX_LABEL && All(s, IsLabelChar) && (s != "" ==> IsAlnum(s[0]))
  }

  lemma LabelsCons(first: string, rest: seq<string>)
    ensures AllLabels([first] + rest) <==> IsLabel(first) && AllLabels(rest)
  {
    if AllLabels([first] + rest) {
      assert ([first] + rest)[0] == first;
      assert forall i :: 0 <= i < |rest| ==> rest[i] == ([first] + rest)[i + 1];
    }
  }

  lemma {:induction false} ScanDecidesLabels(start: string, s: string)
    requires IsLabelStart(start)
    ensures ScanName(s, |start|, start != "" && IsAlnum(start[|start| - 1])) <==> AllLabels(Split(start + s, '.'))
    decreases |s|
  {
    var pieces := Split(start + s, '.');
    if s == "" {
      assert start + s == start;
      SplitOnePiece(start, '.');
      assert AllLabels(pieces) <==> IsLabel(pieces[0]);
    } else if s[0] == '.' {
      assert start + s == start + ['.'] + s[1..];
      SplitOnePiece(start, '.');
      SplitAround(start, s[1..], '.');
      ScanDecidesLabels("", s[1..]);
      assert "" + s[1..] == s[1..];
      LabelsCons(start, Split(s[1..], '.'));
    } else {
      var longer := start + [s[0]];
      assert longer + s[1..] == start + s;
      if IsLabelStart(longer) {
        ScanDecidesLabels(longer, s[1..]);
      } else {
        BadStartNeverLabels(longer, s[1..]);
      }
    }
  }

  /** Text that already cannot start a label stays that way. */
  lemma BadStartNeverLabels(start: string, s: string)
    requires '.' !in start && !IsLabelStart(start)
    ensures !AllLabels(Split(start + s, '.'))
  {
    FirstPieceStartsWith(start, s);
    var first := Split(start + s, '.')[0];
    assert !IsLabel(first);
  }

  lemma {:induction false} FirstPieceStartsWith(start: string, s: string)
    requires '.' !in start
    ensures start <= Split(start + s, '.')[0]
    decreases |start|
  {
    if start != "" {
      assert (start + s)[1..] == start[1..] + s;
      FirstPieceStartsWith(start[1..], s);
    }
  }

  lemma LabelHasNoDot(piece: string)
    requires IsLabel(piece)
    ensures '.' !in piece
  {
    forall i | 0 <= i < |piece|
      ensures piece[i] != '.'
    {
      assert IsLabelChar(piece[i]);
    }
  }

  lemma PatternIsSplit(s: string)
    ensures MatchesPattern(s) <==> AllLabels(Split(s, '.'))
  {
    if AllLabels(Split(s, '.')) {
      JoinSplit(s, '.');
    }
    if MatchesPattern(s) {
      var labels: seq<string> :| |labels| >= 1 && AllLabels(labels) && s == Join(labels, '.');
      forall i | 0 <= i < |labels|
        ensures '.' !in labels[i]
      {
        LabelHasNoDot(labels[i]);
      }
      SplitJoin(labels, '.');
    }
  }

  lemma ScanDecidesPattern(s: string)
    ensures ScanName(s, 0, false) <==> MatchesPattern(s)
  {
    PatternIsSplit(s);
    ScanDecidesLabels("", s);
    assert "" + s == s;
  }

  // ---- What a valid domain is ----

  /** At least two labels with dots between them, and perhaps one dot at the end. */
  ghost predicate IsNameOf(domain: string, labels: seq<string>) {
    && |labels| >= 2 && AllLabels(labels)
    && (domain == Join(labels, '.') || domain == Join(labels, '.') + ".")
  }

  lemma JoinHasDot(pieces: seq<string>)
    requires |pieces| >= 2
    ensures '.' in Join(pieces, '.')
  {
    var s := Join(pieces, '.');
    assert s[|pieces[0]|] == '.';
  }

  lemma {:induction false} JoinEndsLikeLast(labels: seq<string>)
    requires |labels| >= 1 && AllLabels(labels)
    ensures Join(labels, '.') != "" && Join(labels, '.')[|Join(labels, '.')| - 1] != '.'
    decreases |labels|
  {
    if |labels| == 1 {
      LabelHasNoDot(labels[0]);
    } else {
      JoinEndsLikeLast(labels[1..]);
    }
  }

  lemma NameTrims(domain: string, labels: seq<string>)
    requires IsNameOf(domain, labels)
    ensures TrimDot(domain) == Join(labels, '.') && '.' in TrimDot(domain) && |TrimDot(domain)| > 1
  {
    JoinHasDot(labels);
    JoinEndsLikeLast(labels);
    var name := Join(labels, '.');
    assert (name + ".")[..|name|] == name;
  }

  lemma ValidHasLabels(domain: string)
    requires IsValidDomain(domain)
    ensures exists labels :: IsNameOf(domain, labels)
  {
    var name := TrimDot(domain);
    ScanDecidesPattern(name);
    var labels: seq<string> :| |labels| >= 1 && AllLabels(labels) && name == Join(labels, '.');
    LabelHasNoDot(labels[0]);
    assert domain == name || domain == name + ".";
    assert IsNameOf(domain, labels);
  }

  /** A label, character by character: letters and digits, and hyphens except at the ends. */
  predicate IsPlainLabel(s: string) {
    && 1 <= |s| <= 63
    && forall i :: 0 <= i < |s| ==>
      || '0' <= s[i] <= '9' || 'a' <= s[i] <= 'z' || 'A' <= s[i] <= 'Z'
      || (s[i] == '-' && 0 < i < |s| - 1)
  }

  lemma PlainLabelIff(s: string)
    ensures IsLabel(s) <==> IsPlainLabel(s)
  {
    if IsPlainLabel(s) {
      assert All(s, IsLabelChar);
    }
    if IsLabel(s) {
      assert forall i :: 0 <= i < |s| ==> IsLabelChar(s[i]);
    }
  }

  /** At least two such labels with dots between them, and perhaps one dot at the end. */
  ghost predicate IsPlainNameOf(domain: string, labels: seq<string>) {
    && |labels| >= 2 && (forall i :: 0 <= i < |labels| ==> IsPlainLabel(labels[i]))
    && (domain == Join(labels, '.') || domain == Join(labels, '.') + ".")
  }

  lemma PlainNameIff(domain: string, labels: seq<string>)
    ensures IsNameOf(domain, labels) <==> IsPlainNameOf(domain, labels)
  {
    forall i | 0 <= i < |labels|
      ensures IsLabel(labels[i]) <==> IsPlainLabel(labels[i])
    {
      PlainLabelIff(labels[i]);
    }
  }

  /** The checks together accept exactly the names of at most 253 characters, a final dot included, made
      of two or more labels. */
  lemma ValidDomainIff(domain: string)
    ensures IsValidDomain(domain) <==> |domain| <= 253 && exists labels :: IsPlainNameOf(domain, labels)
  {
    if IsValidDomain(domain) {
      ValidHasLabels(domain);
      var labels :| IsNameOf(domain, labels);
      PlainNameIff(domain, labels);
    }
    if exists labels :: IsPlainNameOf(domain, labels) {
      var labels :| IsPlainNameOf(domain, labels);
      PlainNameIff(domain, labels);
      NameTrims(domain, labels);
      assert MatchesPattern(TrimDot(domain));
      ScanDecidesPattern(TrimDot(domain));
    }
  }

  /** And a name's labels are determined. */
  lemma NameIsUnambiguous(domain: string, a: seq<string>, b: seq<string>)
    requires IsPlainNameOf(domain, a) && IsPlainNameOf(domain, b)
    ensures a == b
  {
    PlainNameIff(domain, a);
    PlainNameIff(domain, b);
    NameTrims(domain, a);
    NameTrims(domain, b);
    forall i | 0 <= i < |a| ensures '.' !in a[i] { LabelHasNoDot(a[i]); }
    forall i | 0 <= i < |b| ensures '.' !in b[i] { LabelHasNoDot(b[i]); }
    SplitJoin(a, '.');
    SplitJoin(b, '.');
  }

  lemma {:induction false} ScanIgnoresCase(s: string, length: nat, mayEnd: bool)
    ensures ScanName(ToLower(s), length, mayEnd) <==> ScanName(s, length, mayEnd)
    decreases |s|
  {
    if s != "" {
      assert ToLower(s)[1..] == ToLower(s[1..]);
      ScanIgnoresCase(s[1..], 0, false);
      ScanIgnoresCase(s[1..], length + 1, IsAlnum(s[0]));
    }
  }

  /** Whether a name is valid does not depend on the case of its letters. */
  lemma ValidityIgnoresCase(domain: string)
    ensures IsValidDomain(ToLower(domain)) <==> IsValidDomain(domain)
  {
    var name := TrimDot(domain);
    assert TrimDot(ToLower(domain)) == ToLower(name);
    assert '.' in ToLower(name) <==> '.' in name by {
      if '.' in name {
        var i :| 0 <= i < |name| && name[i] == '.';
        assert ToLower(name)[i] == '.';
      }
    }
    ScanIgnoresCase(name, 0, false);
  }

  /** A valid domain is made of label characters and dots, and starts with an alphanumeric. */
  lemma {:induction false} ScanChars(s: string, length: nat, mayEnd: bool)
    requires ScanName(s, length, mayEnd)
    ensures forall i :: 0 <= i < |s| ==> IsLabelChar(s[i]) || s[i] == '.'
    ensures length == 0 && !mayEnd ==> s != "" && IsAlnum(s[0])
    decreases |s|
  {
    if s != "" {
      if s[0] == '.' {
        ScanChars(s[1..], 0, false);
      } else {
        ScanChars(s[1..], length + 1, IsAlnum(s[0]));
      }
    }
  }

  lemma ValidDomainChars(domain: string)
    requires IsValidDomain(domain)
    ensures domain != "" && IsAlnum(domain[0])
    ensures forall i :: 0 <= i < |domain| ==> IsLabelChar(domain[i]) || domain[i] == '.'
  {
    ScanChars(TrimDot(domain), 0, false);
  }
}
