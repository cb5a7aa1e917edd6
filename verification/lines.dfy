/** What parse_config_file (daemon.c lines 365-537) makes of one line of
    configuration text at the cursor: an assignment with a plain or a
    quoted value, a comment, trailing whitespace, and each error of its
    taxonomy. The surrounding buffer is arbitrary; the line is `Placed`
    at position a and lies before the terminator. */
module ConfigLines {
  import opened Common
  import opened CharClass
  import opened Settings
  import opened Dispatch
  import opened Parser
  import opened ScanShapes
  import opened Placement

  /** `id = value` ended by a newline: the identifier and the value are
      stored exactly, the pair is dispatched and the scan resumes on the
      next line. Either allocation failing returns -1 at once. The value
      lies in [v, e) and the newline is at e. */
  lemma {:induction false} AssignmentLine(data: string, a: nat, h: Header, value: string, v: nat, e: nat,
                       o: Options, alloc: Allocator, allocs: nat, rev: Revision)
    requires WellFormedHeader(h) && IsPlainValue(value)
    requires Placed(data, a, HeaderText(h) + value + "\n")
    requires v == a + |HeaderText(h)| && e == v + |value| && e + 1 <= NulIndex(data)
    ensures '\0' !in h.id && '\0' !in value
    ensures Fails(alloc, allocs) || Fails(alloc, allocs + 1) ==>
              ParseFrom(data, a, o, alloc, allocs, rev) == Outcome(OutOfMemory, o)
    ensures !Fails(alloc, allocs) && !Fails(alloc, allocs + 1) ==>
              ParseFrom(data, a, o, alloc, allocs, rev) == AfterPair(data, h.id, value, e + 1, o, alloc, allocs, rev)
  {
    PlacedSplit(data, a, HeaderText(h) + value, "\n", e);
    PlacedSplit(data, a, HeaderText(h), value, v);
    PlacedFirst(data, e, "\n");
    PlacedFirst(data, v, value);
    HeaderNoNul(h);
    PlainValueNoNul(value);
    if Fails(alloc, allocs) || Fails(alloc, allocs + 1) {
      AssignmentOutOfMemoryAt(data, a, h, value, v, e, o, alloc, allocs, rev);
    } else {
      AssignmentStoredAt(data, a, h, value, v, e, o, alloc, allocs, rev);
    }
  }

  /** Either allocation of an assignment line failing returns -1. */
  lemma {:induction false} AssignmentOutOfMemoryAt(data: string, a: nat, h: Header, value: string, v: nat, e: nat,
                                o: Options, alloc: Allocator, allocs: nat, rev: Revision)
    requires WellFormedHeader(h) && IsPlainValue(value)
    requires Placed(data, a, HeaderText(h)) && Placed(data, v, value)
    requires v == a + |HeaderText(h)| && e == v + |value| && e + 1 <= NulIndex(data)
    requires At(data, v) == value[0] && At(data, e) == '\n'
    requires Fails(alloc, allocs) || Fails(alloc, allocs + 1)
    ensures ParseFrom(data, a, o, alloc, allocs, rev) == Outcome(OutOfMemory, o)
  {
    if Fails(alloc, allocs) {
      HeaderOutOfMemory(data, a, h, o, alloc, allocs, rev);
    } else {
      HeaderPositions(data, a, h, a + |h.lead|, a + |h.lead| + |h.id|, v, o, alloc, allocs, rev);
      PlainValueOutOfMemory(data, h.id, v, value, e, o, alloc, allocs, rev);
    }
  }

  /** Both allocations of an assignment line succeeding: the pair is
      dispatched and the scan resumes after the newline. */
  lemma {:induction false} AssignmentStoredAt(data: string, a: nat, h: Header, value: string, v: nat, e: nat,
                           o: Options, alloc: Allocator, allocs: nat, rev: Revision)
    requires WellFormedHeader(h) && IsPlainValue(value)
    requires '\0' !in h.id && '\0' !in value
    requires Placed(data, a, HeaderText(h)) && Placed(data, v, value)
    requires v == a + |HeaderText(h)| && e == v + |value| && e + 1 <= NulIndex(data)
    requires At(data, v) == value[0] && At(data, e) == '\n'
    requires !Fails(alloc, allocs) && !Fails(alloc, allocs + 1)
    ensures ParseFrom(data, a, o, alloc, allocs, rev) == AfterPair(data, h.id, value, e + 1, o, alloc, allocs, rev)
  {
    HeaderPositions(data, a, h, a + |h.lead|, a + |h.lead| + |h.id|, v, o, alloc, allocs, rev);
    PlainValueAt(data, h.id, v, value, e, o, alloc, allocs, rev);
  }

  /** The identifier's allocation failing returns -1 before anything else
      of the line is looked at. */
  lemma {:induction false} HeaderOutOfMemory(data: string, a: nat, h: Header,
                          o: Options, alloc: Allocator, allocs: nat, rev: Revision)
    requires WellFormedHeader(h) && Placed(data, a, HeaderText(h))
    requires a + |HeaderText(h)| <= NulIndex(data)
    requires Fails(alloc, allocs)
    ensures ParseFrom(data, a, o, alloc, allocs, rev) == Outcome(OutOfMemory, o)
  {
    var b := a + |h.lead|;
    var c := a + |h.lead| + |h.id|;
    assert ParseFrom(data, a, o, alloc, allocs, rev) == Outcome(OutOfMemory, o) by {
      IdentifierAt(data, a, h, b, c);
      HeaderReachesStatement(data, a, h, b, o, alloc, allocs, rev);
      StatementOutOfMemory(data, b, c, o, alloc, allocs, rev);
    }
  }

  /** `id = "content"`: the value is stored without its quotes, and the
      scan resumes right after the closing quote, not after the line. The
      opening quote is at v and the closing one at j. */
  lemma {:induction false} QuotedAssignmentLine(data: string, a: nat, h: Header, content: string, v: nat, j: nat,
                             o: Options, alloc: Allocator, allocs: nat, rev: Revision)
    requires WellFormedHeader(h) && IsQuotedContent(content)
    requires Placed(data, a, HeaderText(h) + Quoted(content))
    requires v == a + |HeaderText(h)| && j == v + 1 + |content| && j + 1 <= NulIndex(data)
    requires !Fails(alloc, allocs) && !Fails(alloc, allocs + 1)
    ensures '\0' !in h.id && '\0' !in content
    ensures ParseFrom(data, a, o, alloc, allocs, rev) == AfterPair(data, h.id, content, j + 1, o, alloc, allocs, rev)
  {
    PlacedSplit(data, a, HeaderText(h), Quoted(content), v);
    PlacedFirst(data, v, Quoted(content));
    HeaderNoNul(h);
    QuotedStoredAt(data, a, h, content, v, j, o, alloc, allocs, rev);
  }

  /** The quoted pair, its header placed at a and its value at v, is
      dispatched and the scan resumes after the closing quote at j. */
  lemma {:induction false} QuotedStoredAt(data: string, a: nat, h: Header, content: string, v: nat, j: nat,
                                          o: Options, alloc: Allocator, allocs: nat, rev: Revision)
    requires WellFormedHeader(h) && IsQuotedContent(content) && '\0' !in h.id
    requires Placed(data, a, HeaderText(h)) && Placed(data, v, Quoted(content))
    requires v == a + |HeaderText(h)| && j == v + 1 + |content| && j + 1 <= NulIndex(data)
    requires At(data, v) == '"'
    requires !Fails(alloc, allocs) && !Fails(alloc, allocs + 1)
    ensures '\0' !in content
    ensures ParseFrom(data, a, o, alloc, allocs, rev) == AfterPair(data, h.id, content, j + 1, o, alloc, allocs, rev)
  {
    QuotedValueAt(data, h.id, v, content, j, o, alloc, allocs, rev);
    HeaderPositions(data, a, h, a + |h.lead|, a + |h.lead| + |h.id|, v, o, alloc, allocs, rev);
  }

  /** `id = value` ended by '#' or by the end of the input: the code as
      written stores the value without its last character, the intended
      length keeps it whole; the scan resumes at that '#'. */
  lemma {:induction false} FinalAssignmentLine(data: string, a: nat, h: Header, value: string,
                            o: Options, alloc: Allocator, allocs: nat, rev: Revision)
    requires WellFormedHeader(h) && IsPlainValue(value)
    requires Placed(data, a, HeaderText(h) + value)
    requires a + |HeaderText(h)| + |value| <= NulIndex(data)
    requires At(data, a + |HeaderText(h)| + |value|) == '\0' || At(data, a + |HeaderText(h)| + |value|) == '#'
    requires !Fails(alloc, allocs) && !Fails(alloc, allocs + 1)
    ensures '\0' !in h.id && '\0' !in KeptAtEnd(value, rev)
    ensures ParseFrom(data, a, o, alloc, allocs, rev)
            == AfterPair(data, h.id, KeptAtEnd(value, rev), a + |HeaderText(h)| + |value|, o, alloc, allocs, rev)
  {
    FinalAt(data, a, h, value, a + |HeaderText(h)|, a + |HeaderText(h)| + |value|, o, alloc, allocs, rev);
  }

  /** FinalAssignmentLine with the value in [v, e). */
  lemma {:induction false} FinalAt(data: string, a: nat, h: Header, value: string, v: nat, e: nat,
                o: Options, alloc: Allocator, allocs: nat, rev: Revision)
    requires WellFormedHeader(h) && IsPlainValue(value)
    requires Placed(data, a, HeaderText(h) + value)
    requires v == a + |HeaderText(h)| && e == v + |value| && e <= NulIndex(data)
    requires At(data, e) == '\0' || At(data, e) == '#'
    requires !Fails(alloc, allocs) && !Fails(alloc, allocs + 1)
    ensures '\0' !in h.id && '\0' !in KeptAtEnd(value, rev)
    ensures ParseFrom(data, a, o, alloc, allocs, rev) == AfterPair(data, h.id, KeptAtEnd(value, rev), e, o, alloc, allocs, rev)
  {
    PlacedSplit(data, a, HeaderText(h), value, v);
    PlacedFirst(data, v, value);
    HeaderPositions(data, a, h, a + |h.lead|, a + |h.lead| + |h.id|, v, o, alloc, allocs, rev);
    FinalValueAt(data, h.id, v, value, e, o, alloc, allocs, rev);
  }

  /** `id = #`, the '#' at v: an empty unquoted value cut short by a
      comment. The code as written has no defined result; with the
      intended length the value is the empty string and the comment is
      skipped afterwards. */
  lemma {:induction false} EmptyValueBeforeComment(data: string, a: nat, h: Header, v: nat,
                                o: Options, alloc: Allocator, allocs: nat, rev: Revision)
    requires WellFormedHeader(h)
    requires Placed(data, a, HeaderText(h) + "#")
    requires v == a + |HeaderText(h)| && v + 1 <= NulIndex(data)
    requires !Fails(alloc, allocs) && !Fails(alloc, allocs + 1)
    ensures '\0' !in h.id
    ensures rev.AsWritten? ==> ParseFrom(data, a, o, alloc, allocs, rev) == Outcome(Undefined, o)
    ensures rev.Corrected? ==> ParseFrom(data, a, o, alloc, allocs, rev) == AfterPair(data, h.id, "", v, o, alloc, allocs, rev)
  {
    PlacedSplit(data, a, HeaderText(h), "#", v);
    PlacedFirst(data, v, "#");
    HeaderPositions(data, a, h, a + |h.lead|, a + |h.lead| + |h.id|, v, o, alloc, allocs, rev);
    EmptyValueAt(data, h.id, v, o, alloc, allocs, rev);
  }

  /** An opening quote that nothing closes before the end of the input. */
  lemma {:induction false} UnterminatedQuoteLine(data: string, a: nat, h: Header, content: string,
                              o: Options, alloc: Allocator, allocs: nat, rev: Revision)
    requires WellFormedHeader(h) && NoClosingQuote(content)
    requires Placed(data, a, HeaderText(h) + "\"" + content)
    requires a + |HeaderText(h)| + 1 + |content| == NulIndex(data)
    requires !Fails(alloc, allocs)
    ensures ParseFrom(data, a, o, alloc, allocs, rev) == Outcome(Malformed(UnterminatedQuote), o)
  {
    UnterminatedAtLine(data, a, h, content, a + |HeaderText(h)|, o, alloc, allocs, rev);
  }

  /** UnterminatedQuoteLine with the opening quote at v. */
  lemma {:induction false} UnterminatedAtLine(data: string, a: nat, h: Header, content: string, v: nat,
                           o: Options, alloc: Allocator, allocs: nat, rev: Revision)
    requires WellFormedHeader(h) && NoClosingQuote(content)
    requires Placed(data, a, HeaderText(h) + "\"" + content)
    requires v == a + |HeaderText(h)| && v + 1 + |content| == NulIndex(data)
    requires !Fails(alloc, allocs)
    ensures ParseFrom(data, a, o, alloc, allocs, rev) == Outcome(Malformed(UnterminatedQuote), o)
  {
    assert HeaderText(h) + "\"" + content == HeaderText(h) + ("\"" + content);
    PlacedSplit(data, a, HeaderText(h), "\"" + content, v);
    PlacedFirst(data, v, "\"" + content);
    HeaderPositions(data, a, h, a + |h.lead|, a + |h.lead| + |h.id|, v, o, alloc, allocs, rev);
    UnterminatedAt(data, h.id, v, content, o, alloc, allocs, rev);
  }

  /** `id =` followed, at v, by the end of the line or of the input. */
  lemma {:induction false} MissingValueLine(data: string, a: nat, h: Header, v: nat,
                         o: Options, alloc: Allocator, allocs: nat, rev: Revision)
    requires WellFormedHeader(h) && Placed(data, a, HeaderText(h))
    requires v == a + |HeaderText(h)| && v <= NulIndex(data)
    requires At(data, v) == '\0' || IsEol(At(data, v))
    requires !Fails(alloc, allocs)
    ensures ParseFrom(data, a, o, alloc, allocs, rev) == Outcome(Malformed(MissingValue(h.id)), o)
  {
    MissingValueAt(data, a, h, a + |h.lead|, a + |h.lead| + |h.id|, v, o, alloc, allocs, rev);
  }

  /** MissingValueLine with the identifier in [b, c). */
  lemma {:induction false} MissingValueAt(data: string, a: nat, h: Header, b: nat, c: nat, v: nat,
                       o: Options, alloc: Allocator, allocs: nat, rev: Revision)
    requires WellFormedHeader(h) && Placed(data, a, HeaderText(h))
    requires b == a + |h.lead| && c == b + |h.id| && v == a + |HeaderText(h)| && v <= NulIndex(data)
    requires At(data, v) == '\0' || IsEol(At(data, v))
    requires !Fails(alloc, allocs)
    ensures ParseFrom(data, a, o, alloc, allocs, rev) == Outcome(Malformed(MissingValue(h.id)), o)
  {
    var out := Outcome(Malformed(MissingValue(h.id)), o);
    assert Statement(data, b, o, alloc, allocs, rev) == out by {
      IdentifierAt(data, a, h, b, c);
      ValueStartAt(data, a, h, c, v);
      IdentifierStored(data, b, c, o, alloc, allocs, rev);
    }
    assert ParseFrom(data, a, o, alloc, allocs, rev) == out by {
      HeaderReachesStatement(data, a, h, b, o, alloc, allocs, rev);
    }
  }

  /** An identifier followed by blanks and then something other than '='
      (a newline directly after the identifier counts as its end). */
  lemma {:induction false} ExpectedEqualsLine(data: string, a: nat, lead: string, id: string, ws: string,
                           o: Options, alloc: Allocator, allocs: nat, rev: Revision)
    requires AllSpace(lead) && IsIdentifier(id) && AllBlank(ws)
    requires Placed(data, a, lead + id + ws)
    requires a + |lead| + |id| + |ws| <= NulIndex(data)
    requires At(data, a + |lead| + |id| + |ws|) != '=' && !IsBlank(At(data, a + |lead| + |id| + |ws|))
    requires |ws| > 0 || IsSpace(At(data, a + |lead| + |id| + |ws|))
    requires !Fails(alloc, allocs)
    ensures ParseFrom(data, a, o, alloc, allocs, rev) == Outcome(Malformed(ExpectedEquals(id)), o)
  {
    ExpectedEqualsAt(data, a, lead, id, ws, a + |lead|, a + |lead| + |id|, a + |lead| + |id| + |ws|,
                     o, alloc, allocs, rev);
  }

  /** ExpectedEqualsLine with the identifier in [b, c) and the blanks in
      [c, d). */
  lemma {:induction false} ExpectedEqualsAt(data: string, a: nat, lead: string, id: string, ws: string, b: nat, c: nat, d: nat,
                         o: Options, alloc: Allocator, allocs: nat, rev: Revision)
    requires AllSpace(lead) && IsIdentifier(id) && AllBlank(ws)
    requires Placed(data, a, lead + id + ws)
    requires b == a + |lead| && c == b + |id| && d == c + |ws| && d <= NulIndex(data)
    requires At(data, d) != '=' && !IsBlank(At(data, d))
    requires |ws| > 0 || IsSpace(At(data, d))
    requires !Fails(alloc, allocs)
    ensures ParseFrom(data, a, o, alloc, allocs, rev) == Outcome(Malformed(ExpectedEquals(id)), o)
  {
    var out := Outcome(Malformed(ExpectedEquals(id)), o);
    IdentifierPlaced(data, a, lead, id, ws, b, c);
    PlacedAt(data, c, ws);
    AllChars(ws, IsBlank);
    forall k | c <= k < d ensures IsBlank(At(data, k)) {
      assert At(data, k) == ws[k - c];
    }
    SkipRun(data, c, d, IsBlank);
    if |ws| > 0 {
      PlacedFirst(data, c, ws);
    }
    assert ParseFrom(data, a, o, alloc, allocs, rev) == out by {
      ParseReachesStatement(data, a, b, o, alloc, allocs, rev);
      assert Statement(data, b, o, alloc, allocs, rev) == out by {
        assert SkipToValue(data, c) == None;
        IdentifierStored(data, b, c, o, alloc, allocs, rev);
      }
    }
  }

  /** Where the leading whitespace and the identifier of lead + id + ws
      lie: the identifier in [b, c), ws placed at c. */
  lemma {:induction false} IdentifierPlaced(data: string, a: nat, lead: string, id: string, ws: string, b: nat, c: nat)
    requires AllSpace(lead) && IsIdentifier(id)
    requires Placed(data, a, lead + id + ws)
    requires b == a + |lead| && c == b + |id| && c + |ws| <= NulIndex(data)
    ensures b < c
    ensures forall k :: a <= k < b ==> IsSpace(At(data, k))
    ensures IsIdentStart(At(data, b))
    ensures forall k :: b <= k < c ==> IsIdentChar(At(data, k))
    ensures data[b..c] == id
    ensures Placed(data, c, ws)
  {
    PlacedSplit(data, a, lead + id, ws, c);
    PlacedSplit(data, a, lead, id, b);
    PlacedAt(data, a, lead);
    PlacedAt(data, b, id);
    AllChars(lead, IsSpace);
    AllChars(id, IsIdentChar);
    forall k | a <= k < b ensures IsSpace(At(data, k)) {
      assert At(data, k) == lead[k - a];
    }
    forall k | b <= k < c ensures At(data, k) == id[k - b] && data[k] == id[k - b] {
    }
    assert |data[b..c]| == |id|;
  }

  /** An identifier ended by a character that is neither an identifier
      character, whitespace nor '=' (the terminator included). */
  lemma {:induction false} BadIdentifierEndLine(data: string, a: nat, lead: string, id: string,
                             o: Options, alloc: Allocator, allocs: nat, rev: Revision)
    requires AllSpace(lead) && IsIdentifier(id)
    requires Placed(data, a, lead + id)
    requires a + |lead| + |id| <= NulIndex(data)
    requires !IsIdentChar(At(data, a + |lead| + |id|)) && !IsSpace(At(data, a + |lead| + |id|))
    requires At(data, a + |lead| + |id|) != '='
    ensures ParseFrom(data, a, o, alloc, allocs, rev)
            == Outcome(Malformed(BadIdentifierEnd(At(data, a + |lead| + |id|))), o)
  {
    BadIdentifierEndAt(data, a, lead, id, a + |lead|, a + |lead| + |id|, o, alloc, allocs, rev);
  }

  /** BadIdentifierEndLine with the identifier in [b, c). */
  lemma {:induction false} BadIdentifierEndAt(data: string, a: nat, lead: string, id: string, b: nat, c: nat,
                           o: Options, alloc: Allocator, allocs: nat, rev: Revision)
    requires AllSpace(lead) && IsIdentifier(id)
    requires Placed(data, a, lead + id)
    requires b == a + |lead| && c == b + |id| && c <= NulIndex(data)
    requires !IsIdentChar(At(data, c)) && !IsSpace(At(data, c)) && At(data, c) != '='
    ensures ParseFrom(data, a, o, alloc, allocs, rev) == Outcome(Malformed(BadIdentifierEnd(At(data, c))), o)
  {
    var out := Outcome(Malformed(BadIdentifierEnd(At(data, c))), o);
    assert lead + id + [] == lead + id;
    IdentifierPlaced(data, a, lead, id, [], b, c);
    assert ParseFrom(data, a, o, alloc, allocs, rev) == out by {
      ParseReachesStatement(data, a, b, o, alloc, allocs, rev);
      SkipRun(data, b + 1, c, IsIdentChar);
    }
  }

  /** After leading whitespace, a character that can start neither a
      comment nor an identifier. */
  lemma {:induction false} InvalidIdentifierStartLine(data: string, a: nat, lead: string,
                                   o: Options, alloc: Allocator, allocs: nat, rev: Revision)
    requires AllSpace(lead) && Placed(data, a, lead)
    requires a + |lead| <= NulIndex(data)
    requires At(data, a + |lead|) != '\0' && !IsSpace(At(data, a + |lead|))
    requires At(data, a + |lead|) != '#' && !IsIdentStart(At(data, a + |lead|))
    ensures ParseFrom(data, a, o, alloc, allocs, rev)
            == Outcome(Malformed(InvalidIdentifierStart(At(data, a + |lead|))), o)
  {
    InvalidIdentifierStartAt(data, a, lead, a + |lead|, o, alloc, allocs, rev);
  }

  /** InvalidIdentifierStartLine with the offending character at p. */
  lemma {:induction false} InvalidIdentifierStartAt(data: string, a: nat, lead: string, p: nat,
                                 o: Options, alloc: Allocator, allocs: nat, rev: Revision)
    requires AllSpace(lead) && Placed(data, a, lead)
    requires p == a + |lead| && p <= NulIndex(data)
    requires At(data, p) != '\0' && !IsSpace(At(data, p)) && At(data, p) != '#' && !IsIdentStart(At(data, p))
    ensures ParseFrom(data, a, o, alloc, allocs, rev) == Outcome(Malformed(InvalidIdentifierStart(At(data, p))), o)
  {
    var out := Outcome(Malformed(InvalidIdentifierStart(At(data, p))), o);
    PlacedAt(data, a, lead);
    AllChars(lead, IsSpace);
    forall k | a <= k < p ensures IsSpace(At(data, k)) {
      assert At(data, k) == lead[k - a];
    }
    assert ParseFrom(data, a, o, alloc, allocs, rev) == out by {
      SkipRun(data, a, p, IsSpace);
    }
  }

  /** A comment line, its '#' at p and its newline at q, is skipped
      whole: the parse goes on after the newline with nothing changed. */
  lemma {:induction false} CommentLine(data: string, a: nat, lead: string, text: string, p: nat, q: nat,
                    o: Options, alloc: Allocator, allocs: nat, rev: Revision)
    requires AllSpace(lead) && All(text, InLine)
    requires Placed(data, a, lead + "#" + text + "\n")
    requires p == a + |lead| && q == p + 1 + |text| && q + 1 <= NulIndex(data)
    ensures ParseFrom(data, a, o, alloc, allocs, rev) == ParseFrom(data, q + 1, o, alloc, allocs, rev)
  {
    PlacedSplit(data, a, lead + "#" + text, "\n", q);
    PlacedFirst(data, q, "\n");
    assert ParseFrom(data, a, o, alloc, allocs, rev) == ParseFrom(data, q + 1, o, alloc, allocs, rev) by {
      CommentBody(data, a, lead, text, p, q);
      SkipRun(data, p + 1, q, InLine);
    }
  }

  /** Where the pieces of lead + "#" + text lie: the '#' at p, the text
      in (p, q). */
  lemma {:induction false} CommentBody(data: string, a: nat, lead: string, text: string, p: nat, q: nat)
    requires AllSpace(lead) && All(text, InLine)
    requires Placed(data, a, lead + "#" + text)
    requires p == a + |lead| && q == p + 1 + |text| && q <= NulIndex(data)
    ensures SkipWhile(data, a, IsSpace) == p
    ensures At(data, p) == '#'
    ensures forall k :: p + 1 <= k < q ==> InLine(At(data, k))
  {
    PlacedSplit(data, a, lead + "#", text, p + 1);
    PlacedSplit(data, a, lead, "#", p);
    PlacedAt(data, a, lead);
    PlacedFirst(data, p, "#");
    PlacedAt(data, p + 1, text);
    AllChars(lead, IsSpace);
    AllChars(text, InLine);
    forall k | a <= k < p ensures IsSpace(At(data, k)) {
      assert At(data, k) == lead[k - a];
    }
    SkipRun(data, a, p, IsSpace);
    forall k | p + 1 <= k < q ensures InLine(At(data, k)) {
      assert At(data, k) == text[k - p - 1];
    }
  }

  /** A comment running to the end of the input ends the parse with
      success. */
  lemma {:induction false} FinalComment(data: string, a: nat, lead: string, text: string,
                     o: Options, alloc: Allocator, allocs: nat, rev: Revision)
    requires AllSpace(lead) && All(text, InLine)
    requires Placed(data, a, lead + "#" + text)
    requires a + |lead| + 1 + |text| == NulIndex(data)
    ensures ParseFrom(data, a, o, alloc, allocs, rev) == Outcome(Success, o)
  {
    var p := a + |lead|;
    var q := a + |lead| + 1 + |text|;
    assert ParseFrom(data, a, o, alloc, allocs, rev) == Outcome(Success, o) by {
      CommentBody(data, a, lead, text, p, q);
      SkipRun(data, p + 1, q, InLine);
    }
  }

  /** Whitespace running to the end of the input ends the parse with
      success. */
  lemma {:induction false} TrailingSpace(data: string, a: nat, ws: string,
                      o: Options, alloc: Allocator, allocs: nat, rev: Revision)
    requires AllSpace(ws) && Placed(data, a, ws)
    requires a + |ws| == NulIndex(data)
    ensures ParseFrom(data, a, o, alloc, allocs, rev) == Outcome(Success, o)
  {
    PlacedAt(data, a, ws);
    AllChars(ws, IsSpace);
    forall k | a <= k < a + |ws| ensures IsSpace(At(data, k)) {
      assert At(data, k) == ws[k - a];
    }
    assert ParseFrom(data, a, o, alloc, allocs, rev) == Outcome(Success, o) by {
      SkipRun(data, a, a + |ws|, IsSpace);
    }
  }

  /** Whitespace between two cursors makes no difference to the rest of
      the parse: blank lines and the newline after a quoted value are
      skipped with nothing changed. */
  lemma {:induction false} SpaceSkipped(data: string, x: nat, y: nat,
                     o: Options, alloc: Allocator, allocs: nat, rev: Revision)
    requires x <= y <= NulIndex(data)
    requires forall k :: x <= k < y ==> IsSpace(At(data, k))
    ensures ParseFrom(data, x, o, alloc, allocs, rev) == ParseFrom(data, y, o, alloc, allocs, rev)
  {
    if x < y {
      SkipCompose(data, x, y, IsSpace);
    }
  }
}
