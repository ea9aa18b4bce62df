/** One line of an ads.txt file: the line pattern, stated as the existence of a decomposition, and a
    left-to-right scanner that finds it. */
module AdsTxtLine {
  import opened Text

  /** The pattern's four capture groups; `cert` is empty when the optional group takes no part. */
  datatype Captures = Captures(domain: string, publisher: string, account: string, cert: string)

  /** A character that is neither a comma nor white space. */
  predicate IsField(c: char) {
    c != ',' && !IsSpace(c)
  }

  predicate IsAccount(s: string) {
    s == "DIRECT" || s == "RESELLER" || s == "direct" || s == "reseller"
  }

  predicate FieldsOk(c: Captures) {
    && c.domain != "" && All(c.domain, IsField)
    && c.publisher != "" && All(c.publisher, IsField)
    && IsAccount(c.account) && All(c.cert, IsField)
  }

  /** The line, spelled out around the captures; `w1` to `w4` are the runs of white space between them. */
  ghost predicate Decomposes(line: string, c: Captures, w1: string, w2: string, w3: string, w4: string) {
    && FieldsOk(c)
    && All(w1, IsSpace) && All(w2, IsSpace) && All(w3, IsSpace) && All(w4, IsSpace)
    && line == c.domain + ("," + (w1 + (c.publisher + ("," + (w2 + (c.account + Tail(c.cert, w3, w4)))))))
  }

  function Tail(cert: string, w3: string, w4: string): string {
    if cert == "" then w4 else "," + (w3 + (cert + w4))
  }

  ghost predicate Matches(line: string, c: Captures) {
    exists w1, w2, w3, w4 :: Decomposes(line, c, w1, w2, w3, w4)
  }

  // ---- The scanner ----

  datatype Found = NoMatch | Found(captures: Captures)

  /** The longest prefix of characters satisfying `p`, and what follows it. */
  function Eat(s: string, p: char -> bool): (string, string) {
    (s[..Span(s, p)], s[Span(s, p)..])
  }

  predicate StartsWithComma(s: string) {
    s != "" && s[0] == ','
  }

  function ScanLine(line: string): Found {
    var (domain, r1) := Eat(line, IsField);
    if domain == "" || !StartsWithComma(r1) then NoMatch
    else
      var (publisher, r3) := Eat(Eat(r1[1..], IsSpace).1, IsField);
      if publisher == "" || !StartsWithComma(r3) then NoMatch
      else
        var (account, r5) := Eat(Eat(r3[1..], IsSpace).1, IsField);
        var end := ScanTail(r5);
        if IsAccount(account) && end.Found? then Found(end.captures.(domain := domain, publisher := publisher, account := account))
        else NoMatch
  }

  /** After the account type: white space, or a comma, a last field and white space. */
  function ScanTail(s: string): Found {
    if StartsWithComma(s) then
      var (cert, rest) := Eat(Eat(s[1..], IsSpace).1, IsField);
      if cert != "" && Eat(rest, IsSpace).1 == "" then Found(Captures("", "", "", cert)) else NoMatch
    else if Eat(s, IsSpace).1 == "" then Found(Captures("", "", "", ""))
    else NoMatch
  }

  // ---- They agree ----

  lemma EatWhole(s: string, p: char -> bool)
    ensures var (a, b) := Eat(s, p); s == a + b && All(a, p) && (b != "" ==> !p(b[0]))
  {
  }

  lemma EatExactly(a: string, b: string, p: char -> bool)
    requires All(a, p) && (b != "" ==> !p(b[0]))
    ensures Eat(a + b, p) == (a, b)
  {
    SpanUnique(a, b, p);
  }

  /** White space, then a field: the two runs are read back as they are. */
  lemma EatSpaceField(w: string, f: string, rest: string)
    requires All(w, IsSpace) && f != "" && All(f, IsField) && (rest != "" ==> !IsField(rest[0]))
    ensures Eat(Eat(w + (f + rest), IsSpace).1, IsField) == (f, rest)
  {
    assert IsField((f + rest)[0]) by {
      assert (f + rest)[0] == f[0];
    }
    EatExactly(w, f + rest, IsSpace);
    EatExactly(f, rest, IsField);
  }

  lemma AfterComma(rest: string)
    ensures StartsWithComma("," + rest) && ("," + rest)[1..] == rest && !IsField(("," + rest)[0])
  {
  }

  /** A comma where the publisher should stand: no match. */
  lemma NoPublisherNoMatch(domain: string, w: string, after: string)
    requires All(domain, IsField) && All(w, IsSpace) && StartsWithComma(after)
    ensures ScanLine(domain + ("," + (w + after))) == NoMatch
  {
    AfterComma(w + after);
    EatExactly(domain, "," + (w + after), IsField);
    EatExactly(w, after, IsSpace);
    assert "" + after == after;
    EatExactly("", after, IsField);
  }

  lemma TailScans(cert: string, w3: string, w4: string)
    requires All(cert, IsField) && All(w3, IsSpace) && All(w4, IsSpace)
    ensures var t := Tail(cert, w3, w4);
      ScanTail(t) == Found(Captures("", "", "", cert)) && (t != "" ==> !IsField(t[0]))
  {
    assert w4 + "" == w4;
    EatExactly(w4, "", IsSpace);
    if cert != "" {
      AfterComma(w3 + (cert + w4));
      EatSpaceField(w3, cert, w4);
    }
  }

  lemma AccountIsField(account: string)
    requires IsAccount(account)
    ensures account != "" && All(account, IsField)
  {
  }

  lemma MatchScans(line: string, c: Captures, w1: string, w2: string, w3: string, w4: string)
    requires Decomposes(line, c, w1, w2, w3, w4)
    ensures ScanLine(line) == Found(c)
  {
    var t := Tail(c.cert, w3, w4);
    var afterAccount := w2 + (c.account + t);
    var afterPublisher := w1 + (c.publisher + ("," + afterAccount));
    TailScans(c.cert, w3, w4);
    AccountIsField(c.account);
    AfterComma(afterPublisher);
    EatExactly(c.domain, "," + afterPublisher, IsField);
    AfterComma(afterAccount);
    EatSpaceField(w1, c.publisher, "," + afterAccount);
    EatSpaceField(w2, c.account, t);
  }

  lemma ScannedTail(s: string)
    requires ScanTail(s).Found?
    ensures exists w3, w4 :: All(w3, IsSpace) && All(w4, IsSpace) && s == Tail(ScanTail(s).captures.cert, w3, w4)
    ensures All(ScanTail(s).captures.cert, IsField)
  {
    if StartsWithComma(s) {
      var w3, r := Eat(s[1..], IsSpace).0, Eat(s[1..], IsSpace).1;
      var cert, w4 := Eat(r, IsField).0, Eat(r, IsField).1;
      CommaSpaceField(s);
      EatWhole(w4, IsSpace);
      assert s == Tail(cert, w3, w4);
    } else {
      EatWhole(s, IsSpace);
      assert s == Eat(s, IsSpace).0;
      assert All("", IsSpace) && s == Tail("", "", s);
    }
  }

  /** A comma, white space, a field: read back into the text they came from. */
  lemma CommaSpaceField(r: string)
    requires StartsWithComma(r)
    ensures var (w, q) := Eat(r[1..], IsSpace); var (f, rest) := Eat(q, IsField);
      r == "," + (w + (f + rest)) && All(w, IsSpace) && All(f, IsField)
  {
    EatWhole(r[1..], IsSpace);
    EatWhole(Eat(r[1..], IsSpace).1, IsField);
    assert r == "," + r[1..];
  }

  lemma ScanMatches(line: string)
    requires ScanLine(line).Found?
    ensures Matches(line, ScanLine(line).captures)
  {
    var c := ScanLine(line).captures;
    var r1 := Eat(line, IsField).1;
    var w1, r2 := Eat(r1[1..], IsSpace).0, Eat(r1[1..], IsSpace).1;
    var r3 := Eat(r2, IsField).1;
    var w2, r4 := Eat(r3[1..], IsSpace).0, Eat(r3[1..], IsSpace).1;
    var r5 := Eat(r4, IsField).1;
    EatWhole(line, IsField);
    CommaSpaceField(r1);
    CommaSpaceField(r3);
    ScannedTail(r5);
    var w3, w4 :| All(w3, IsSpace) && All(w4, IsSpace) && r5 == Tail(c.cert, w3, w4);
    assert Decomposes(line, c, w1, w2, w3, w4);
  }

  // ---- The pattern, spelled out ----

  predicate IsBlank(w: string) {
    forall i :: 0 <= i < |w| ==> w[i] as int in {9, 10, 12, 13, 32}
  }

  predicate IsWord(s: string) {
    s != "" && forall i :: 0 <= i < |s| ==> s[i] != ',' && s[i] as int !in {9, 10, 12, 13, 32}
  }

  ghost predicate Spells(line: string, c: Captures, w1: string, w2: string, w3: string, w4: string) {
    && IsWord(c.domain) && IsWord(c.publisher)
    && c.account in {"DIRECT", "RESELLER", "direct", "reseller"}
    && (c.cert == "" || IsWord(c.cert))
    && IsBlank(w1) && IsBlank(w2) && IsBlank(w3) && IsBlank(w4)
    && line == c.domain + "," + w1 + c.publisher + "," + w2 + c.account
               + if c.cert == "" then w4 else "," + w3 + c.cert + w4
  }

  ghost predicate MatchesPattern(line: string, c: Captures) {
    exists w1, w2, w3, w4 :: Spells(line, c, w1, w2, w3, w4)
  }

  lemma BlankIff(w: string)
    ensures All(w, IsSpace) <==> IsBlank(w)
  {
    forall i | 0 <= i < |w|
      ensures IsSpace(w[i]) <==> w[i] as int in {9, 10, 12, 13, 32}
    {
      WhiteSpaceIff(w[i]);
    }
  }

  lemma WordIff(s: string)
    ensures s != "" && All(s, IsField) <==> IsWord(s)
  {
    forall i | 0 <= i < |s|
      ensures IsField(s[i]) <==> s[i] != ',' && s[i] as int !in {9, 10, 12, 13, 32}
    {
      WhiteSpaceIff(s[i]);
    }
  }

  lemma Regroup(a: string, b: string, c: string, d: string, e: string, f: string)
    ensures a + ("," + (b + (c + ("," + (d + (e + f)))))) == a + "," + b + c + "," + d + e + f
  {
  }

  lemma TailMeans(cert: string, w3: string, w4: string)
    ensures Tail(cert, w3, w4) == if cert == "" then w4 else "," + w3 + cert + w4
  {
  }

  lemma SpellsIff(line: string, c: Captures, w1: string, w2: string, w3: string, w4: string)
    ensures Decomposes(line, c, w1, w2, w3, w4) <==> Spells(line, c, w1, w2, w3, w4)
  {
    WordIff(c.domain);
    WordIff(c.publisher);
    WordIff(c.cert);
    BlankIff(w1);
    BlankIff(w2);
    BlankIff(w3);
    BlankIff(w4);
    TailMeans(c.cert, w3, w4);
    Regroup(c.domain, w1, c.publisher, w2, c.account, Tail(c.cert, w3, w4));
  }

  /** The scanner accepts exactly the lines that have a decomposition, and returns its captures. */
  lemma ScanDecidesMatch(line: string, c: Captures)
    ensures ScanLine(line) == Found(c) <==> Matches(line, c)
    ensures ScanLine(line) == Found(c) <==> MatchesPattern(line, c)
  {
    if ScanLine(line) == Found(c) {
      ScanMatches(line);
      var w1, w2, w3, w4 :| Decomposes(line, c, w1, w2, w3, w4);
      SpellsIff(line, c, w1, w2, w3, w4);
    }
    if MatchesPattern(line, c) {
      var w1, w2, w3, w4 :| Spells(line, c, w1, w2, w3, w4);
      SpellsIff(line, c, w1, w2, w3, w4);
    }
    if Matches(line, c) {
      var w1, w2, w3, w4 :| Decomposes(line, c, w1, w2, w3, w4);
      MatchScans(line, c, w1, w2, w3, w4);
    }
  }

  /** No line can be read in two ways. */
  lemma LineIsUnambiguous(line: string, a: Captures, b: Captures)
    requires MatchesPattern(line, a) && MatchesPattern(line, b)
    ensures a == b
  {
    ScanDecidesMatch(line, a);
    ScanDecidesMatch(line, b);
  }
}
