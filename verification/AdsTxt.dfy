/** Parsing the text of an ads.txt file, and counting the advertisers in it. */
module AdsTxt {
  import opened Text
  import opened Tallies
  import DomainNames
  import Line = AdsTxtLine

  datatype Entry = Entry(exchangeDomain: string, publisherID: string, accountType: string, certificationAuth: string)

  datatype Reason = EmptyContent | NoValidEntries | InvalidLine | InvalidExchangeDomain

  datatype Result<T> = Ok(value: T) | Error(reason: Reason)

  function EntryFrom(c: Line.Captures): Result<Entry> {
    var entry := Entry(
      ToLower(TrimSpace(c.domain)),
      TrimSpace(c.publisher),
      ToUpper(TrimSpace(c.account)),
      if c.cert != "" then TrimSpace(c.cert) else "");
    if DomainNames.IsValidDomain(entry.exchangeDomain) then Ok(entry) else Error(InvalidExchangeDomain)
  }

  function ParseLine(line: string): Result<Entry> {
    match Line.ScanLine(line)
    case NoMatch => Error(InvalidLine)
    case Found(c) => EntryFrom(c)
  }

  /** The entry a line contributes, if any: blank lines, comments and malformed lines are passed over. */
  function Contribution(line: string, parsed: Result<Entry>): seq<Entry> {
    if line == "" || line[0] == '#' || parsed.Error? then [] else [parsed.value]
  }

  function LineEntries(raw: string): seq<Entry> {
    Contribution(TrimSpace(raw), ParseLine(TrimSpace(raw)))
  }

  function Collect<T>(lines: seq<string>, read: string -> seq<T>): seq<T> {
    if lines == [] then [] else read(lines[0]) + Collect(lines[1..], read)
  }

  function EntriesOfLines(lines: seq<string>): seq<Entry> {
    Collect(lines, LineEntries)
  }

  function EntriesOf(content: string): seq<Entry> {
    EntriesOfLines(Split(content, '\n'))
  }

  function Parsed(content: string): Result<seq<Entry>> {
    if content == "" then Error(EmptyContent)
    else if EntriesOf(content) == [] then Error(NoValidEntries)
    else Ok(EntriesOf(content))
  }

  lemma {:induction false} CollectConcat<T>(a: seq<string>, b: seq<string>, read: string -> seq<T>)
    ensures Collect(a + b, read) == Collect(a, read) + Collect(b, read)
  {
    if a == [] {
      assert a + b == b;
    } else {
      assert (a + b)[1..] == a[1..] + b;
      CollectConcat(a[1..], b, read);
    }
  }

  lemma CollectOne<T>(line: string, read: string -> seq<T>)
    ensures Collect([line], read) == read(line)
  {
    assert Collect([line], read) == read(line) + Collect([], read);
  }

  lemma CollectSnoc<T>(lines: seq<string>, i: nat, read: string -> seq<T>)
    requires i < |lines|
    ensures Collect(lines[..i + 1], read) == Collect(lines[..i], read) + read(lines[i])
  {
    assert lines[..i + 1] == lines[..i] + [lines[i]];
    CollectConcat(lines[..i], [lines[i]], read);
    CollectOne(lines[i], read);
  }

  // ---- Lines are independent ----

  /** The entries of two texts put one below the other are those of the first and then the second. */
  lemma ParsingIsLinewise(a: string, b: string)
    ensures EntriesOf(a + "\n" + b) == EntriesOf(a) + EntriesOf(b)
  {
    SplitAround(a, b, '\n');
    CollectConcat(Split(a, '\n'), Split(b, '\n'), LineEntries);
  }

  /** Lines without entries can be put in or taken out before, between and after others, and nothing
      changes; but text is never made empty, or filled, that way. */
  lemma EmptyLinesDoNotMatter(a: string, idle: string, b: string)
    requires EntriesOf(idle) == []
    ensures Parsed(a + "\n" + idle + "\n" + b) == Parsed(a + "\n" + b)
    ensures Parsed(idle + "\n" + b) == if b == "" then Error(NoValidEntries) else Parsed(b)
    ensures Parsed(a + "\n" + idle) == if a == "" then Error(NoValidEntries) else Parsed(a)
  {
    IdleBetween(a, idle, b);
    IdleBefore(idle, b);
    IdleAfter(a, idle);
  }

  lemma IdleBetween(a: string, idle: string, b: string)
    requires EntriesOf(idle) == []
    ensures Parsed(a + "\n" + idle + "\n" + b) == Parsed(a + "\n" + b)
  {
    ParsingIsLinewise(a + "\n" + idle, b);
    ParsingIsLinewise(a, idle);
    ParsingIsLinewise(a, b);
    assert EntriesOf(a) + [] == EntriesOf(a);
    assert a + "\n" + idle + "\n" + b != "" && a + "\n" + b != "";
  }

  lemma EmptyHasNoEntries()
    ensures EntriesOf("") == []
  {
    assert LineEntries("") == [];
    CollectOne("", LineEntries);
  }

  lemma IdleBefore(idle: string, b: string)
    requires EntriesOf(idle) == []
    ensures Parsed(idle + "\n" + b) == if b == "" then Error(NoValidEntries) else Parsed(b)
  {
    ParsingIsLinewise(idle, b);
    EmptyHasNoEntries();
    assert [] + EntriesOf(b) == EntriesOf(b);
    assert idle + "\n" + b != "";
  }

  lemma IdleAfter(a: string, idle: string)
    requires EntriesOf(idle) == []
    ensures Parsed(a + "\n" + idle) == if a == "" then Error(NoValidEntries) else Parsed(a)
  {
    ParsingIsLinewise(a, idle);
    EmptyHasNoEntries();
    assert EntriesOf(a) + [] == EntriesOf(a);
    assert a + "\n" + idle != "";
  }

  // ---- What parsed entries look like ----

  ghost predicate FieldOk(s: string) {
    All(s, Line.IsField) && Tight(s)
  }

  /** A lower-case valid domain, an account type, and fields free of commas and white space; only the
      publisher may have vertical tabs at its ends. */
  ghost predicate AlmostOk(e: Entry) {
    && DomainNames.IsValidDomain(e.exchangeDomain) && NoCapitals(e.exchangeDomain)
    && All(e.publisherID, Line.IsField)
    && (e.accountType == "DIRECT" || e.accountType == "RESELLER")
    && FieldOk(e.certificationAuth)
  }

  ghost predicate EntryOk(e: Entry) {
    AlmostOk(e) && Tight(e.publisherID)
  }

  lemma AccountNormalised(account: string)
    requires Line.IsAccount(account)
    ensures TrimSpace(account) == account
    ensures account == "DIRECT" || account == "direct" ==> ToUpper(account) == "DIRECT"
    ensures account == "RESELLER" || account == "reseller" ==> ToUpper(account) == "RESELLER"
    ensures ToUpper(account) == "DIRECT" || ToUpper(account) == "RESELLER"
  {
    TightIsTrimmed(account);
    AccountCases();
  }

  lemma TrimmedFieldOk(s: string)
    requires All(s, Line.IsField)
    ensures FieldOk(TrimSpace(s))
  {
    TrimKeeps(s, Line.IsField);
    TrimSpaceMeans(s);
  }

  lemma LoweredDomain(d: string)
    ensures DomainNames.IsValidDomain(ToLower(d)) <==> DomainNames.IsValidDomain(d)
    ensures Lowered(d, ToLower(d))
  {
    DomainNames.ValidityIgnoresCase(d);
    ToLowerMeans(d);
  }

  lemma EntryFromOk(c: Line.Captures)
    requires Line.FieldsOk(c) && EntryFrom(c).Ok?
    ensures EntryOk(EntryFrom(c).value)
  {
    LoweredDomain(TrimSpace(c.domain));
    TrimmedFieldOk(c.publisher);
    TrimmedFieldOk(c.cert);
    AccountNormalised(c.account);
  }

  lemma ParsedLineOk(line: string)
    requires ParseLine(line).Ok?
    ensures EntryOk(ParseLine(line).value)
  {
    Line.ScanMatches(line);
    EntryFromOk(Line.ScanLine(line).captures);
  }

  /** What an entry says of the fields it was read from. */
  ghost predicate Says(e: Entry, c: Line.Captures) {
    && Lowered(TrimSpace(c.domain), e.exchangeDomain)
    && e.publisherID == TrimSpace(c.publisher)
    && (c.account == "DIRECT" || c.account == "direct" ==> e.accountType == "DIRECT")
    && (c.account == "RESELLER" || c.account == "reseller" ==> e.accountType == "RESELLER")
    && e.certificationAuth == TrimSpace(c.cert)
  }

  /** Reading a line that matches the pattern: it is accepted exactly if its domain, trimmed, is valid in
      whatever case, and the entry then says what the fields say. */
  lemma ParsedLineSays(line: string, c: Line.Captures)
    requires Line.Matches(line, c)
    ensures ParseLine(line).Ok? <==> DomainNames.IsValidDomain(TrimSpace(c.domain))
    ensures ParseLine(line).Ok? ==> Says(ParseLine(line).value, c)
    ensures ParseLine(line).Error? ==> ParseLine(line).reason == InvalidExchangeDomain
  {
    Line.ScanDecidesMatch(line, c);
    EntrySays(c);
  }

  /** A line that cannot be spelled that way is refused as a line. */
  lemma UnmatchedIsInvalidLine(line: string)
    requires forall c :: !Line.MatchesPattern(line, c)
    ensures ParseLine(line) == Error(InvalidLine)
  {
    if Line.ScanLine(line).Found? {
      Line.ScanDecidesMatch(line, Line.ScanLine(line).captures);
    }
  }

  lemma EntrySays(c: Line.Captures)
    requires Line.IsAccount(c.account)
    ensures EntryFrom(c).Ok? <==> DomainNames.IsValidDomain(TrimSpace(c.domain))
    ensures EntryFrom(c).Ok? ==> Says(EntryFrom(c).value, c)
    ensures EntryFrom(c).Error? ==> EntryFrom(c).reason == InvalidExchangeDomain
  {
    LoweredDomain(TrimSpace(c.domain));
    AccountNormalised(c.account);
    TightIsTrimmed("");
  }

  // ---- Which lines count ----

  /** A line that matches the pattern with a valid domain. */
  ghost predicate Fits(line: string, c: Line.Captures) {
    Line.Matches(line, c) && DomainNames.IsValidDomain(TrimSpace(c.domain))
  }

  lemma TrimKeepsFirst(s: string)
    requires s != "" && !IsTrimmed(s[0])
    ensures TrimSpace(s) != "" && TrimSpace(s)[0] == s[0]
  {
    TrimsAwayIff(s);
    assert TrimLeft(s) == s;
  }

  /** A line that fits is neither blank nor a comment: no valid domain starts with the comment sign. */
  lemma FittingIsNoComment(line: string, c: Line.Captures)
    requires Fits(line, c)
    ensures line != "" && line[0] != '#'
  {
    var w1, w2, w3, w4 :| Line.Decomposes(line, c, w1, w2, w3, w4);
    StartsLike(c.domain, "," + (w1 + (c.publisher + ("," + (w2 + (c.account + Line.Tail(c.cert, w3, w4)))))));
    if c.domain[0] == '#' {
      TrimKeepsFirst(c.domain);
      DomainNames.ValidDomainChars(TrimSpace(c.domain));
    }
  }

  lemma StartsLike(a: string, b: string)
    requires a != ""
    ensures a + b != "" && (a + b)[0] == a[0]
  {
  }

  lemma AcceptedFits(line: string)
    requires ParseLine(line).Ok?
    ensures Fits(line, Line.ScanLine(line).captures)
  {
    var c := Line.ScanLine(line).captures;
    Line.ScanMatches(line);
    ParsedLineSays(line, c);
  }

  lemma AcceptedContributes(line: string, parsed: Result<Entry>)
    requires line != "" && line[0] != '#' && parsed.Ok?
    ensures Contribution(line, parsed) == [parsed.value]
  {
  }

  lemma FittingIsAccepted(line: string, c: Line.Captures)
    requires Fits(line, c)
    ensures ParseLine(line).Ok? && Says(ParseLine(line).value, c)
  {
    ParsedLineSays(line, c);
  }

  lemma FittingContributes(line: string, c: Line.Captures, parsed: Result<Entry>)
    requires Fits(line, c) && parsed == ParseLine(line)
    ensures parsed.Ok? && Says(parsed.value, c) && Contribution(line, parsed) == [parsed.value]
  {
    FittingIsAccepted(line, c);
    FittingIsNoComment(line, c);
    AcceptedContributes(line, parsed);
  }

  /** `es` is what a line that says `line` should contribute: one entry that says what its fields say if it
      fits, else nothing. */
  ghost predicate Contributes(line: string, es: seq<Entry>) {
    && |es| <= 1
    && (es != [] <==> exists c :: Fits(line, c))
    && (forall c :: Fits(line, c) ==> es != [] && Says(es[0], c))
  }

  lemma ContributionSays(line: string, parsed: Result<Entry>)
    requires parsed == ParseLine(line)
    ensures Contributes(line, Contribution(line, parsed))
  {
    var es := Contribution(line, parsed);
    forall c | Fits(line, c)
      ensures es != [] && Says(es[0], c)
    {
      FittingContributes(line, c, parsed);
    }
    if es != [] {
      AcceptedFits(line);
    }
  }

  /** A line contributes an entry exactly if, trimmed, it fits, and the entry says what its fields say. */
  lemma LineEntriesSay(raw: string)
    ensures Contributes(TrimSpace(raw), LineEntries(raw))
  {
    ContributionSays(TrimSpace(raw), ParseLine(TrimSpace(raw)));
  }

  /** One turn of the parsing loop. */
  method ReadLine(raw: string) returns (found: seq<Entry>)
    ensures found == LineEntries(raw)
    ensures Contributes(TrimSpace(raw), found)
  {
    LineEntriesSay(raw);
    var line := TrimSpace(raw);
    if line == "" || line[0] == '#' {
      return [];
    }
    var parsed := ParseLine(line);
    if parsed.Error? {
      return [];
    }
    return [parsed.value];
  }

  method Parse(content: string) returns (r: Result<seq<Entry>>)
    ensures r == Parsed(content)
  {
    if content == "" {
      return Error(EmptyContent);
    }
    var entries := [];
    var lines := Split(content, '\n');
    for i := 0 to |lines|
      invariant entries == EntriesOfLines(lines[..i])
    {
      CollectSnoc(lines, i, LineEntries);
      var found := ReadLine(lines[i]);
      entries := entries + found;
    }
    assert lines[..|lines|] == lines;
    if |entries| == 0 {
      return Error(NoValidEntries);
    }
    return Ok(entries);
  }

  ghost predicate SomeLineFits(lines: seq<string>) {
    exists i, c :: 0 <= i < |lines| && Fits(TrimSpace(lines[i]), c)
  }

  lemma {:induction false} CollectEmptyIff<T>(lines: seq<string>, read: string -> seq<T>)
    ensures Collect(lines, read) != [] <==> exists i :: 0 <= i < |lines| && read(lines[i]) != []
  {
    if lines != [] {
      CollectEmptyIff(lines[1..], read);
      if i :| 0 <= i < |lines| && read(lines[i]) != [] {
        if i > 0 {
          assert lines[i] == lines[1..][i - 1];
        }
      }
    }
  }

  lemma LineCountsIff(raw: string)
    ensures LineEntries(raw) != [] <==> exists c :: Fits(TrimSpace(raw), c)
  {
    LineEntriesSay(raw);
  }

  lemma SomeEntryIff(lines: seq<string>)
    ensures EntriesOfLines(lines) != [] <==> SomeLineFits(lines)
  {
    CollectEmptyIff(lines, LineEntries);
    forall i | 0 <= i < |lines|
      ensures LineEntries(lines[i]) != [] <==> exists c :: Fits(TrimSpace(lines[i]), c)
    {
      LineCountsIff(lines[i]);
    }
  }

  /** Parsing succeeds exactly if some line, trimmed, matches the pattern with a valid domain. */
  lemma ParsedOkIff(content: string, lines: seq<string>)
    requires lines == Split(content, '\n')
    ensures Parsed(content).Ok? <==> SomeLineFits(lines)
    ensures Parsed(content).Error? ==> (Parsed(content).reason == EmptyContent <==> content == "")
  {
    SomeEntryIff(lines);
    EmptyHasNoEntries();
  }

  // ---- Every entry is in order ----

  lemma ContributionOk(line: string, parsed: Result<Entry>, ok: Entry -> bool)
    requires parsed.Ok? ==> ok(parsed.value)
    ensures forall e :: e in Contribution(line, parsed) ==> ok(e)
  {
  }

  lemma LineEntriesOk(raw: string)
    ensures forall e :: e in LineEntries(raw) ==> EntryOk(e)
  {
    var line := TrimSpace(raw);
    if ParseLine(line).Ok? {
      ParsedLineOk(line);
    }
    ContributionOk(line, ParseLine(line), EntryOk);
  }

  lemma {:induction false} CollectAll<T>(lines: seq<string>, read: string -> seq<T>, ok: T -> bool)
    requires forall i, e :: 0 <= i < |lines| && e in read(lines[i]) ==> ok(e)
    ensures forall e :: e in Collect(lines, read) ==> ok(e)
  {
    if lines != [] {
      CollectAll(lines[1..], read, ok);
    }
  }

  lemma ParsedEntriesOk(lines: seq<string>)
    ensures forall e :: e in EntriesOfLines(lines) ==> EntryOk(e)
  {
    forall i, e | 0 <= i < |lines| && e in LineEntries(lines[i])
      ensures EntryOk(e)
    {
      LineEntriesOk(lines[i]);
    }
    CollectAll(lines, LineEntries, EntryOk);
  }

  // ---- Printing and parsing back ----

  function PrintEntry(e: Entry): string {
    e.exchangeDomain
    + ("," + (" " + (e.publisherID + ("," + (" " + (e.accountType + Line.Tail(e.certificationAuth, " ", "")))))))
  }

  function PrintLines(entries: seq<Entry>): seq<string> {
    seq(|entries|, i requires 0 <= i < |entries| => PrintEntry(entries[i]))
  }

  /** One entry per line. */
  function Print(entries: seq<Entry>): string
    requires entries != []
  {
    Join(PrintLines(entries), '\n')
  }

  lemma DomainChars(domain: string)
    requires DomainNames.IsValidDomain(domain)
    ensures domain != "" && domain[0] != '#' && FieldOk(domain) && '\n' !in domain
  {
    DomainNames.ValidDomainChars(domain);
  }

  lemma DomainKept(domain: string)
    requires FieldOk(domain) && NoCapitals(domain)
    ensures ToLower(TrimSpace(domain)) == domain
  {
    TightIsTrimmed(domain);
    ToLowerMeans(domain);
  }

  predicate NoBreak(c: char) {
    c != '\n'
  }

  lemma NoBreakMeans(s: string)
    requires All(s, NoBreak)
    ensures '\n' !in s
  {
  }

  lemma FieldsHaveNoBreak(domain: string, publisher: string, account: string, tail: string)
    requires All(domain, NoBreak) && All(publisher, NoBreak) && All(account, NoBreak) && All(tail, NoBreak)
    ensures '\n' !in domain + ("," + (" " + (publisher + ("," + (" " + (account + tail))))))
  {
    var third := " " + (account + tail);
    var second := " " + (publisher + ("," + third));
    AllConcat(account, tail, NoBreak);
    AllConcat(" ", account + tail, NoBreak);
    AllConcat(",", third, NoBreak);
    AllConcat(publisher, "," + third, NoBreak);
    AllConcat(" ", publisher + ("," + third), NoBreak);
    AllConcat(",", second, NoBreak);
    AllConcat(domain, "," + second, NoBreak);
    NoBreakMeans(domain + ("," + second));
  }

  lemma FieldHasNoBreak(s: string)
    requires All(s, Line.IsField)
    ensures All(s, NoBreak)
  {
    forall i | 0 <= i < |s|
      ensures NoBreak(s[i])
    {
      assert Line.IsField(s[i]);
    }
  }

  lemma TailHasNoBreak(cert: string)
    requires All(cert, NoBreak)
    ensures All(Line.Tail(cert, " ", ""), NoBreak)
  {
    if cert != "" {
      assert cert + "" == cert;
      AllConcat(" ", cert, NoBreak);
      AllConcat(",", " " + cert, NoBreak);
    }
  }

  lemma PrintedHasNoBreak(e: Entry)
    requires AlmostOk(e)
    ensures '\n' !in PrintEntry(e)
  {
    DomainChars(e.exchangeDomain);
    FieldHasNoBreak(e.exchangeDomain);
    FieldHasNoBreak(e.publisherID);
    FieldHasNoBreak(e.certificationAuth);
    TailHasNoBreak(e.certificationAuth);
    FieldsHaveNoBreak(e.exchangeDomain, e.publisherID, e.accountType, Line.Tail(e.certificationAuth, " ", ""));
  }

  lemma TightConcat(a: string, b: string)
    requires a != "" && b != "" && !IsTrimmed(a[0]) && !IsTrimmed(b[|b| - 1])
    ensures Tight(a + b) && (a + b)[0] == a[0]
  {
  }

  lemma EndsLike(a: string, b: string)
    requires b != ""
    ensures (a + b)[|a + b| - 1] == b[|b| - 1]
  {
  }

  /** The end of a printed line: an account type, or a certification field. */
  lemma PrintedEnd(account: string, cert: string)
    requires Line.IsAccount(account) && FieldOk(cert)
    ensures var last := account + Line.Tail(cert, " ", ""); last != "" && !IsTrimmed(last[|last| - 1])
  {
    Line.AccountIsField(account);
    if cert != "" {
      assert cert + "" == cert;
      EndsLike(" ", cert);
      EndsLike(",", " " + cert);
      EndsLike(account, "," + (" " + cert));
    } else {
      assert account + "" == account;
    }
  }

  lemma MiddleEndsLike(publisher: string, last: string)
    requires last != ""
    ensures var rest := "," + (" " + (publisher + ("," + (" " + last))));
      rest[|rest| - 1] == last[|last| - 1]
  {
    EndsLike(" ", last);
    EndsLike(",", " " + last);
    EndsLike(publisher, "," + (" " + last));
    EndsLike(" ", publisher + ("," + (" " + last)));
    EndsLike(",", " " + (publisher + ("," + (" " + last))));
  }

  lemma PrintedIsTight(e: Entry)
    requires AlmostOk(e)
    ensures Tight(PrintEntry(e)) && PrintEntry(e) != "" && PrintEntry(e)[0] == e.exchangeDomain[0]
  {
    DomainChars(e.exchangeDomain);
    PrintedEnd(e.accountType, e.certificationAuth);
    var last := e.accountType + Line.Tail(e.certificationAuth, " ", "");
    MiddleEndsLike(e.publisherID, last);
    TightConcat(e.exchangeDomain, "," + (" " + (e.publisherID + ("," + (" " + last)))));
  }

  /** A printed line comes back whole: no newline inside it, nothing to trim, not a comment. */
  lemma PrintedIsALine(e: Entry)
    requires AlmostOk(e)
    ensures var line := PrintEntry(e);
      '\n' !in line && TrimSpace(line) == line && line != "" && line[0] != '#'
  {
    PrintedHasNoBreak(e);
    PrintedIsTight(e);
    DomainChars(e.exchangeDomain);
    TightIsTrimmed(PrintEntry(e));
  }

  function Printed(e: Entry): Line.Captures {
    Line.Captures(e.exchangeDomain, e.publisherID, e.accountType, e.certificationAuth)
  }

  lemma PrintedScans(e: Entry)
    requires AlmostOk(e) && e.publisherID != ""
    ensures Line.ScanLine(PrintEntry(e)) == Line.Found(Printed(e))
  {
    DomainChars(e.exchangeDomain);
    assert All("", IsSpace) && All(" ", IsSpace);
    Line.MatchScans(PrintEntry(e), Printed(e), " ", " ", " ", "");
  }

  lemma PrintedIsKept(e: Entry)
    requires AlmostOk(e)
    ensures EntryFrom(Printed(e)) == Ok(e.(publisherID := TrimSpace(e.publisherID)))
  {
    DomainChars(e.exchangeDomain);
    DomainKept(e.exchangeDomain);
    TightIsTrimmed(e.certificationAuth);
    AccountCases();
    AccountNormalised(e.accountType);
  }

  lemma ScannedLineParses(line: string, c: Line.Captures, e: Entry)
    requires TrimSpace(line) == line && line != "" && line[0] != '#'
    requires Line.ScanLine(line) == Line.Found(c) && EntryFrom(c) == Ok(e)
    ensures LineEntries(line) == [e]
  {
  }

  lemma PrintedParses(e: Entry)
    requires AlmostOk(e) && e.publisherID != ""
    ensures LineEntries(PrintEntry(e)) == [e.(publisherID := TrimSpace(e.publisherID))]
  {
    PrintedIsALine(e);
    PrintedScans(e);
    PrintedIsKept(e);
    ScannedLineParses(PrintEntry(e), Printed(e), e.(publisherID := TrimSpace(e.publisherID)));
  }

  predicate IsVerticalTab(c: char) {
    c == '\U{0B}'
  }

  /** The one kind of field that trimming leaves nothing of: white space for trimming that the pattern does
      not take for white space. */
  lemma FieldTrimsAwayIff(s: string)
    requires All(s, Line.IsField)
    ensures TrimSpace(s) == "" <==> All(s, IsVerticalTab)
  {
    TrimsAwayIff(s);
    if All(s, IsTrimmed) {
      forall i | 0 <= i < |s|
        ensures IsVerticalTab(s[i])
      {
        assert IsTrimmed(s[i]) && Line.IsField(s[i]);
      }
    }
    if All(s, IsVerticalTab) {
      forall i | 0 <= i < |s|
        ensures IsTrimmed(s[i])
      {
        assert IsVerticalTab(s[i]);
      }
    }
  }

  /** An accepted line names no publisher exactly if its publisher field is vertical tabs throughout: a field
      for the pattern, and nothing at all once trimmed. */
  lemma PublisherVanishesIff(line: string, c: Line.Captures)
    requires Fits(line, c)
    ensures ParseLine(line).Ok?
    ensures ParseLine(line).value.publisherID == "" <==> All(c.publisher, IsVerticalTab)
  {
    ParsedLineSays(line, c);
    FieldTrimsAwayIff(c.publisher);
  }

  lemma ShortDomain()
    ensures DomainNames.IsValidDomain("a.b") && NoCapitals("a.b")
  {
    assert DomainNames.IsLabel("a") && DomainNames.IsLabel("b");
    assert ["a", "b"][1..] == ["b"];
    assert DomainNames.IsNameOf("a.b", ["a", "b"]);
    DomainNames.ValidDomainIff("a.b");
  }

  lemma PublisherVanishes(e: Entry)
    requires AlmostOk(e) && e.publisherID != "" && All(e.publisherID, IsVerticalTab)
    ensures EntriesOf(PrintEntry(e)) == [e.(publisherID := "")]
  {
    PrintedIsALine(e);
    PrintedParses(e);
    FieldTrimsAwayIff(e.publisherID);
    SplitOnePiece(PrintEntry(e), '\n');
    CollectOne(PrintEntry(e), LineEntries);
  }

  /** Such a line: a.b, then a vertical tab, then DIRECT. */
  lemma PublisherCanVanish()
    ensures EntriesOf(PrintEntry(Entry("a.b", "\U{0B}", "DIRECT", ""))) == [Entry("a.b", "", "DIRECT", "")]
  {
    ShortDomain();
    PublisherVanishes(Entry("a.b", "\U{0B}", "DIRECT", ""));
  }

  /** A line of a file whose entry names no publisher. */
  ghost predicate LosesPublisher(raw: string) {
    exists c :: Fits(TrimSpace(raw), c) && All(c.publisher, IsVerticalTab)
  }

  function Nameless(e: Entry): bool {
    e.publisherID == ""
  }

  lemma FittingPublisher(line: string, c: Line.Captures)
    requires Fits(line, c)
    ensures TrimSpace(c.publisher) == "" <==> All(c.publisher, IsVerticalTab)
  {
    FieldTrimsAwayIff(c.publisher);
  }

  lemma SaysNameless(line: string, c: Line.Captures, e: Entry)
    requires Fits(line, c) && Says(e, c)
    ensures Nameless(e) <==> All(c.publisher, IsVerticalTab)
  {
    FittingPublisher(line, c);
  }

  lemma LosingIsNameless(line: string, c: Line.Captures, es: seq<Entry>)
    requires Contributes(line, es) && Fits(line, c) && All(c.publisher, IsVerticalTab)
    ensures exists e :: e in es && Nameless(e)
  {
    SaysNameless(line, c, es[0]);
    assert es[0] in es;
  }

  lemma SomeFits(line: string, es: seq<Entry>) returns (c: Line.Captures)
    requires Contributes(line, es) && es != []
    ensures Fits(line, c) && Says(es[0], c)
  {
    c :| Fits(line, c);
  }

  lemma OnlyNameless(es: seq<Entry>)
    requires |es| <= 1 && exists e :: e in es && Nameless(e)
    ensures es != [] && Nameless(es[0])
  {
    var e :| e in es && Nameless(e);
  }

  lemma LosesPublisherIff(raw: string)
    ensures LosesPublisher(raw) <==> exists e :: e in LineEntries(raw) && Nameless(e)
  {
    var line := TrimSpace(raw);
    LineEntriesSay(raw);
    if LosesPublisher(raw) {
      var c :| Fits(line, c) && All(c.publisher, IsVerticalTab);
      LosingIsNameless(line, c, LineEntries(raw));
    }
    if exists e :: e in LineEntries(raw) && Nameless(e) {
      OnlyNameless(LineEntries(raw));
      var c := SomeFits(line, LineEntries(raw));
      SaysNameless(line, c, LineEntries(raw)[0]);
    }
  }

  lemma {:induction false} CollectHas<T>(lines: seq<string>, read: string -> seq<T>, ok: T -> bool)
    ensures (exists e :: e in Collect(lines, read) && ok(e))
       <==> exists i :: 0 <= i < |lines| && exists e :: e in read(lines[i]) && ok(e)
  {
    if lines != [] {
      CollectHas(lines[1..], read, ok);
      if e :| e in Collect(lines, read) && ok(e) {
        assert e in read(lines[0]) || e in Collect(lines[1..], read);
      }
      if i :| 0 <= i < |lines| && exists e :: e in read(lines[i]) && ok(e) {
        var e :| e in read(lines[i]) && ok(e);
        if i > 0 {
          assert lines[i] == lines[1..][i - 1];
        }
      }
    }
  }

  lemma SomeNamelessIff(lines: seq<string>)
    ensures (exists e :: e in EntriesOfLines(lines) && Nameless(e))
       <==> exists i :: 0 <= i < |lines| && LosesPublisher(lines[i])
  {
    CollectHas(lines, LineEntries, Nameless);
    forall i | 0 <= i < |lines|
      ensures LosesPublisher(lines[i]) <==> exists e :: e in LineEntries(lines[i]) && Nameless(e)
    {
      LosesPublisherIff(lines[i]);
    }
  }

  lemma PrintedWithoutPublisherIsMalformed(e: Entry)
    requires EntryOk(e) && e.publisherID == ""
    ensures Line.ScanLine(PrintEntry(e)) == Line.NoMatch
  {
    DomainChars(e.exchangeDomain);
    var account := " " + (e.accountType + Line.Tail(e.certificationAuth, " ", ""));
    Line.AfterComma(account);
    assert "" + ("," + account) == "," + account;
    Line.NoPublisherNoMatch(e.exchangeDomain, " ", "," + account);
  }

  /** How many of the entries name a publisher. */
  function Named(entries: seq<Entry>): nat {
    if entries == [] then 0 else (if entries[0].publisherID != "" then 1 else 0) + Named(entries[1..])
  }

  lemma {:induction false} AllNamed(entries: seq<Entry>)
    ensures Named(entries) <= |entries|
    ensures Named(entries) == |entries| <==> forall e :: e in entries ==> e.publisherID != ""
  {
    if entries != [] {
      AllNamed(entries[1..]);
      assert entries == [entries[0]] + entries[1..];
    }
  }

  lemma PrintedLineParses(e: Entry)
    requires EntryOk(e)
    ensures LineEntries(PrintEntry(e)) == if e.publisherID != "" then [e] else []
  {
    if e.publisherID != "" {
      PrintedParses(e);
      TightIsTrimmed(e.publisherID);
    } else {
      PrintedIsALine(e);
      PrintedWithoutPublisherIsMalformed(e);
    }
  }

  lemma {:induction false} CollectNamed(lines: seq<string>, entries: seq<Entry>, read: string -> seq<Entry>)
    requires |lines| == |entries|
    requires forall i :: 0 <= i < |lines| ==> read(lines[i]) == if entries[i].publisherID != "" then [entries[i]] else []
    ensures |Collect(lines, read)| == Named(entries)
    ensures Named(entries) == |entries| ==> Collect(lines, read) == entries
  {
    if entries != [] {
      CollectNamed(lines[1..], entries[1..], read);
      assert entries == [entries[0]] + entries[1..];
      AllNamed(entries[1..]);
    }
  }

  lemma PrintedLinesParse(entries: seq<Entry>)
    requires forall e :: e in entries ==> EntryOk(e)
    ensures |EntriesOfLines(PrintLines(entries))| == Named(entries)
    ensures Named(entries) == |entries| ==> EntriesOfLines(PrintLines(entries)) == entries
  {
    var lines := PrintLines(entries);
    forall i | 0 <= i < |lines|
      ensures LineEntries(lines[i]) == if entries[i].publisherID != "" then [entries[i]] else []
    {
      assert entries[i] in entries;
      PrintedLineParses(entries[i]);
    }
    CollectNamed(lines, entries, LineEntries);
  }

  lemma PrintedSplits(entries: seq<Entry>)
    requires entries != [] && forall e :: e in entries ==> EntryOk(e)
    ensures Split(Print(entries), '\n') == PrintLines(entries)
  {
    forall i | 0 <= i < |entries|
      ensures '\n' !in PrintLines(entries)[i]
    {
      assert entries[i] in entries;
      PrintedIsALine(entries[i]);
    }
    SplitJoin(PrintLines(entries), '\n');
  }

  /** Round trip: a list of entries is what parsing its printed form returns exactly when every domain is
      valid and in lower case, every account type is one of the two, no field contains a comma or white
      space (a vertical tab may stand inside one), and every entry names a publisher. */
  lemma RoundTripIff(entries: seq<Entry>)
    requires entries != []
    ensures Parsed(Print(entries)) == Ok(entries)
       <==> forall e :: e in entries ==> EntryOk(e) && e.publisherID != ""
  {
    if Parsed(Print(entries)) == Ok(entries) {
      ParsedEntriesOk(Split(Print(entries), '\n'));
    }
    if forall e :: e in entries ==> EntryOk(e) {
      PrintedSplits(entries);
      PrintedLinesParse(entries);
      AllNamed(entries);
    }
  }

  lemma ReparseEntriesIff(entries: seq<Entry>)
    requires entries != [] && forall e :: e in entries ==> EntryOk(e)
    ensures Parsed(Print(entries)) == Ok(entries) <==> !exists e :: e in entries && Nameless(e)
  {
    RoundTripIff(entries);
    if exists e :: e in entries && e.publisherID == "" {
      var e :| e in entries && e.publisherID == "";
      assert Nameless(e);
    }
  }

  lemma ReparseLinesIff(lines: seq<string>, entries: seq<Entry>)
    requires entries == EntriesOfLines(lines) && entries != []
    ensures Parsed(Print(entries)) == Ok(entries) <==> forall i :: 0 <= i < |lines| ==> !LosesPublisher(lines[i])
  {
    ParsedEntriesOk(lines);
    ReparseEntriesIff(entries);
    SomeNamelessIff(lines);
  }

  lemma ParsedIs(content: string, lines: seq<string>, entries: seq<Entry>)
    requires lines == Split(content, '\n') && Parsed(content) == Ok(entries)
    ensures entries != [] && entries == EntriesOfLines(lines)
  {
  }

  /** So parsing, printing and parsing again changes nothing exactly if no line of the file that fits has
      nothing but vertical tabs for its publisher. */
  lemma ReparseIff(content: string, lines: seq<string>, entries: seq<Entry>)
    requires lines == Split(content, '\n') && Parsed(content) == Ok(entries)
    ensures entries != []
    ensures Parsed(Print(entries)) == Ok(entries) <==> forall i :: 0 <= i < |lines| ==> !LosesPublisher(lines[i])
  {
    ParsedIs(content, lines, entries);
    ReparseLinesIff(lines, entries);
  }

  // ---- Counting ----

  function Counts(entries: seq<Entry>): map<string, int> {
    if entries == [] then map[]
    else Add(Counts(entries[..|entries| - 1]), entries[|entries| - 1].exchangeDomain, 1)
  }

  method CountAdvertisers(entries: seq<Entry>) returns (counts: map<string, int>)
    ensures counts == Counts(entries)
  {
    counts := map[];
    for i := 0 to |entries|
      invariant counts == Counts(entries[..i])
    {
      assert entries[..i + 1][..i] == entries[..i];
      var domain := entries[i].exchangeDomain;
      counts := counts[domain := (if domain in counts then counts[domain] else 0) + 1];
    }
    assert entries[..|entries|] == entries;
  }

  function Domains(entries: seq<Entry>): seq<string> {
    seq(|entries|, i requires 0 <= i < |entries| => entries[i].exchangeDomain)
  }

  /** A domain is counted as often as it occurs, and only domains that occur are listed. */
  lemma {:induction false} CountsMeans(entries: seq<Entry>, domain: string)
    ensures CountOf(Counts(entries), domain) == multiset(Domains(entries))[domain]
    ensures domain in Counts(entries) <==> domain in Domains(entries)
  {
    if entries != [] {
      var n := |entries| - 1;
      CountsMeans(entries[..n], domain);
      assert Domains(entries) == Domains(entries[..n]) + [entries[n].exchangeDomain];
    }
  }

  /** Where a domain occurs among the entries. */
  function OccurrencesOf(domain: string, entries: seq<Entry>): set<nat> {
    set i: nat | i < |entries| && entries[i].exchangeDomain == domain
  }

  lemma OccurrencesSnoc(domain: string, prior: seq<Entry>, e: Entry)
    ensures |OccurrencesOf(domain, prior + [e])|
         == |OccurrencesOf(domain, prior)| + if e.exchangeDomain == domain then 1 else 0
  {
    var all := prior + [e];
    assert forall i: nat :: i < |prior| ==> all[i] == prior[i];
    if e.exchangeDomain == domain {
      assert OccurrencesOf(domain, all) == OccurrencesOf(domain, prior) + {|prior|};
    } else {
      assert OccurrencesOf(domain, all) == OccurrencesOf(domain, prior);
    }
  }

  lemma {:induction false} CountsAreOccurrences(entries: seq<Entry>, domain: string)
    ensures CountOf(Counts(entries), domain) == |OccurrencesOf(domain, entries)|
    ensures domain in Counts(entries) ==> |OccurrencesOf(domain, entries)| >= 1
  {
    if entries == [] {
      assert OccurrencesOf(domain, entries) == {};
    } else {
      var prior, e := entries[..|entries| - 1], entries[|entries| - 1];
      assert entries == prior + [e];
      CountsAreOccurrences(prior, domain);
      OccurrencesSnoc(domain, prior, e);
    }
  }

  lemma {:induction false} CountsTotal(entries: seq<Entry>)
    ensures Total(Counts(entries)) == |entries|
  {
    if entries != [] {
      var n := |entries| - 1;
      CountsTotal(entries[..n]);
      TotalAdd(Counts(entries[..n]), entries[n].exchangeDomain, 1);
    }
  }

  lemma DomainsConcat(a: seq<Entry>, b: seq<Entry>)
    ensures multiset(Domains(a + b)) == multiset(Domains(a)) + multiset(Domains(b))
  {
    assert Domains(a + b) == Domains(a) + Domains(b);
  }

  lemma CountsConcat(a: seq<Entry>, b: seq<Entry>, domain: string)
    ensures CountOf(Counts(a + b), domain) == CountOf(Counts(a), domain) + CountOf(Counts(b), domain)
  {
    CountsMeans(a + b, domain);
    CountsMeans(a, domain);
    CountsMeans(b, domain);
    DomainsConcat(a, b);
  }

  /** Counting two texts put one below the other adds up their counts. */
  lemma CountsAddUp(a: string, b: string, domain: string)
    ensures CountOf(Counts(EntriesOf(a + "\n" + b)), domain)
         == CountOf(Counts(EntriesOf(a)), domain) + CountOf(Counts(EntriesOf(b)), domain)
  {
    ParsingIsLinewise(a, b);
    CountsConcat(EntriesOf(a), EntriesOf(b), domain);
  }
}
