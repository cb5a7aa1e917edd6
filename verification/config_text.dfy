/** Whole configuration files built from well-formed lines, and the
    meaning parse_config_file (daemon.c lines 365-537) gives them: the
    record after applying every pair in order, or the first pair's
    error. */
module ConfigText {
  import opened Common
  import opened CharClass
  import opened Settings
  import opened Dispatch
  import opened Parser
  import opened ScanShapes
  import opened Placement
  import opened ConfigLines

  /** One line of a configuration file, newline included. A pair's
      value may be followed on its line by a comment: an unquoted value
      runs up to the '#', a quoted one may have blanks after its closing
      quote before the '#' or the newline. */
  datatype Line =
    | Assignment(h: Header, value: string)
    | RemarkedAssignment(h: Header, value: string, text: string)
    | QuotedAssignment(h: Header, content: string, ws: string, remark: Option<string>)
    | Comment(lead: string, text: string)
    | Blank(ws: string)

  predicate WellFormedLine(l: Line)
    decreases if l.QuotedAssignment? then 1 else 0
  {
    match l
    case Assignment(h, value) => WellFormedHeader(h) && IsPlainValue(value)
    case RemarkedAssignment(h, value, text) => WellFormedHeader(h) && IsPlainValue(value) && All(text, InLine)
    case QuotedAssignment(h, content, ws, remark) => WellFormedHeader(h) && IsQuotedContent(content) && WellFormedLine(Rest(ws, remark))
    case Comment(lead, text) => AllSpace(lead) && All(text, InLine)
    case Blank(ws) => AllSpace(ws)
  }

  /** What follows a quoted value's closing quote on its line, read as
      a line of its own: blanks, or blanks and a comment. */
  function Rest(ws: string, remark: Option<string>): (r: Line)
    ensures r.Comment? || r.Blank?
  {
    match remark
    case None => Blank(ws)
    case Some(text) => Comment(ws, text)
  }

  predicate WellFormedLines(lines: seq<Line>)
  {
    forall i :: 0 <= i < |lines| ==> WellFormedLine(lines[i])
  }

  function LineText(l: Line): string
    decreases if l.QuotedAssignment? then 1 else 0
  {
    match l
    case Assignment(h, value) => HeaderText(h) + value + "\n"
    case RemarkedAssignment(h, value, text) => HeaderText(h) + value + "#" + text + "\n"
    case QuotedAssignment(h, content, ws, remark) => HeaderText(h) + Quoted(content) + LineText(Rest(ws, remark))
    case Comment(lead, text) => lead + "#" + text + "\n"
    case Blank(ws) => ws + "\n"
  }

  /** The text of a file made of the given lines. */
  function Render(lines: seq<Line>): string
  {
    if |lines| == 0 then "" else LineText(lines[0]) + Render(lines[1..])
  }

  /** What may follow the last line: whitespace, or a comment that the
      end of the input cuts off before any newline. */
  datatype Ending =
    | Trailing(ws: string)
    | FinalRemark(lead: string, text: string)

  predicate WellFormedEnding(e: Ending)
  {
    match e
    case Trailing(ws) => AllSpace(ws)
    case FinalRemark(lead, text) => AllSpace(lead) && All(text, InLine)
  }

  function EndingText(e: Ending): string
  {
    match e
    case Trailing(ws) => ws
    case FinalRemark(lead, text) => lead + "#" + text
  }

  /** The dispatch's demand on a line: the identifier and the value of a
      pair hold no NUL. */
  predicate Dispatchable(l: Line)
  {
    match l
    case Assignment(h, value) => '\0' !in h.id && '\0' !in value
    case RemarkedAssignment(h, value, _) => '\0' !in h.id && '\0' !in value && |value| > 0
    case QuotedAssignment(h, content, _, _) => '\0' !in h.id && '\0' !in content
    case Comment(_, _) => true
    case Blank(_) => true
  }

  /** Well-formed lines meet the dispatch's demand. */
  lemma {:induction false} PairNoNul(l: Line)
    requires WellFormedLine(l)
    ensures Dispatchable(l)
  {
    match l
    case Assignment(h, _) => HeaderNoNul(h);
    case RemarkedAssignment(h, _, _) => HeaderNoNul(h);
    case QuotedAssignment(h, _, _, _) => HeaderNoNul(h);
    case Comment(_, _) =>
    case Blank(_) =>
  }

  /** What one line does to the record: a pair goes through the
      dispatch, with an unquoted value that a comment ends kept as the
      revision keeps it; a comment or a blank line leaves the record as
      it is. */
  function LineEffect(l: Line, o: Options, rev: Revision): (r: ApplyResult)
    requires Dispatchable(l)
    ensures r.Applied? ==> r.opts.configFile == o.configFile
    ensures (l.Comment? || l.Blank?) ==> r == Applied(o)
  {
    match l
    case Assignment(h, value) => Apply(h.id, value, o, rev)
    case RemarkedAssignment(h, value, _) =>
      Apply(h.id, KeptAtEnd(value, rev), o, rev)
    case QuotedAssignment(h, content, _, _) => Apply(h.id, content, o, rev)
    case Comment(_, _) => Applied(o)
    case Blank(_) => Applied(o)
  }

  /** Allocations the parser makes for a line: the identifier and the
      value of a pair. */
  function LineAllocs(l: Line): nat
  {
    if l.Comment? || l.Blank? then 0 else 2
  }

  /** Allocations the parser makes for all the lines. */
  function LinesAllocs(lines: seq<Line>): nat
  {
    if |lines| == 0 then 0 else LineAllocs(lines[0]) + LinesAllocs(lines[1..])
  }

  /** The allocator grants the `count` allocations numbered from `first`. */
  predicate Grants(alloc: Allocator, first: nat, count: nat)
  {
    !(alloc.FailsOnCall? && first <= alloc.n < first + count)
  }

  /** What the lines mean, read one at a time: each line's effect is
      applied to the record in turn, and the first pair the dispatch
      rejects ends the reading with its error and the record as it was
      before that pair. */
  function Interpret(lines: seq<Line>, o: Options, rev: Revision): (r: Outcome)
    requires WellFormedLines(lines)
    ensures r.opts.configFile == o.configFile
    ensures r.status.Success? || r.status.Malformed?
  {
    if |lines| == 0 then Outcome(Success, o)
    else
      PairNoNul(lines[0]);
      match LineEffect(lines[0], o, rev)
      case Rejected(e) => Outcome(Malformed(e), o)
      case Applied(o') => Interpret(lines[1..], o', rev)
  }

  /** How the parse goes on once the line l, ending at n, is read: the
      line's error, or the parse from n with its effect applied. */
  function AfterLine(data: string, l: Line, n: nat, o: Options, alloc: Allocator, allocs: nat, rev: Revision): Outcome
    requires Dispatchable(l) && n <= NulIndex(data)
  {
    match LineEffect(l, o, rev)
    case Rejected(e) => Outcome(Malformed(e), o)
    case Applied(o') => ParseFrom(data, n, o', alloc, allocs + LineAllocs(l), rev)
  }

  /** Rendered well-formed lines contain no NUL. */
  lemma {:induction false} RenderNoNul(lines: seq<Line>)
    requires WellFormedLines(lines)
    ensures '\0' !in Render(lines)
    decreases |lines|
  {
    if |lines| > 0 {
      assert WellFormedLines(lines[1..]) by {
        forall i | 0 <= i < |lines| - 1 ensures WellFormedLine(lines[1..][i]) {
          assert lines[1..][i] == lines[i + 1];
        }
      }
      RenderNoNul(lines[1..]);
      LineNoNul(lines[0]);
    }
  }

  lemma {:induction false} LineNoNul(l: Line)
    requires WellFormedLine(l)
    ensures '\0' !in LineText(l)
    decreases if l.QuotedAssignment? then 1 else 0
  {
    match l
    case Assignment(h, value) =>
      HeaderNoNul(h);
    case RemarkedAssignment(h, value, text) =>
      HeaderNoNul(h);
      AllChars(text, InLine);
    case QuotedAssignment(h, content, ws, remark) =>
      HeaderNoNul(h);
      LineNoNul(Rest(ws, remark));
    case Comment(lead, text) =>
      AllChars(lead, IsSpace);
      AllChars(text, InLine);
    case Blank(ws) =>
      AllChars(ws, IsSpace);
  }

  lemma {:induction false} EndingNoNul(e: Ending)
    requires WellFormedEnding(e)
    ensures '\0' !in EndingText(e)
  {
    match e
    case Trailing(ws) =>
      AllChars(ws, IsSpace);
    case FinalRemark(lead, text) =>
      AllChars(lead, IsSpace);
      AllChars(text, InLine);
  }

  /** The value a pair line hands to the dispatch. */
  function Dispatched(l: Line, rev: Revision): string
    requires Dispatchable(l) && !(l.Comment? || l.Blank?)
  {
    match l
    case Assignment(_, value) => value
    case RemarkedAssignment(_, value, _) => KeptAtEnd(value, rev)
    case QuotedAssignment(_, content, _, _) => content
  }

  /** After a pair line, the parse goes on as after its pair. */
  lemma {:induction false} PairAfterLine(data: string, l: Line, n: nat,
                                         o: Options, alloc: Allocator, allocs: nat, rev: Revision)
    requires Dispatchable(l) && !(l.Comment? || l.Blank?) && n <= NulIndex(data)
    ensures '\0' !in l.h.id && '\0' !in Dispatched(l, rev)
    ensures AfterLine(data, l, n, o, alloc, allocs, rev) == AfterPair(data, l.h.id, Dispatched(l, rev), n, o, alloc, allocs, rev)
  {
  }

  /** After a comment or a blank line, the parse goes on unchanged. */
  lemma {:induction false} SkippedAfterLine(data: string, l: Line, n: nat, o: Options, alloc: Allocator, allocs: nat, rev: Revision)
    requires n <= NulIndex(data)
    requires l.Comment? || l.Blank?
    ensures AfterLine(data, l, n, o, alloc, allocs, rev) == ParseFrom(data, n, o, alloc, allocs, rev)
  {
  }

  /** One well-formed line placed at a with the next line at n, whose
      allocations the allocator grants: the parse from a reads the line
      and goes on as AfterLine says. */
  lemma {:induction false} LineParsed(data: string, a: nat, l: Line, n: nat,
                                      o: Options, alloc: Allocator, allocs: nat, rev: Revision)
    requires WellFormedLine(l) && Dispatchable(l) && Placed(data, a, LineText(l))
    requires n == a + |LineText(l)| && n <= NulIndex(data)
    requires Grants(alloc, allocs, LineAllocs(l))
    ensures ParseFrom(data, a, o, alloc, allocs, rev) == AfterLine(data, l, n, o, alloc, allocs, rev)
  {
    match l
    case Assignment(h, value) =>
      AssignmentLineParsed(data, a, h, value, a + |HeaderText(h)|, a + |HeaderText(h)| + |value|, n, o, alloc, allocs, rev);
    case RemarkedAssignment(h, value, text) =>
      RemarkedLineParsed(data, a, h, value, text, a + |HeaderText(h)| + |value|, n, o, alloc, allocs, rev);
    case QuotedAssignment(h, content, ws, remark) =>
      QuotedLineParsed(data, a, h, content, ws, remark, a + |HeaderText(h)| + 1 + |content|, n, o, alloc, allocs, rev);
    case Comment(lead, text) =>
      CommentLineParsed(data, a, lead, text, a + |lead|, n - 1, n, o, alloc, allocs, rev);
    case Blank(ws) =>
      BlankLineParsed(data, a, ws, n, o, alloc, allocs, rev);
  }

  lemma {:induction false} AssignmentLineParsed(data: string, a: nat, h: Header, value: string, v: nat, e: nat, n: nat,
                             o: Options, alloc: Allocator, allocs: nat, rev: Revision)
    requires WellFormedHeader(h) && IsPlainValue(value) && '\0' !in h.id
    requires Placed(data, a, HeaderText(h) + value + "\n")
    requires v == a + |HeaderText(h)| && e == v + |value| && n == e + 1 && n <= NulIndex(data)
    requires !Fails(alloc, allocs) && !Fails(alloc, allocs + 1)
    ensures ParseFrom(data, a, o, alloc, allocs, rev) == AfterLine(data, Assignment(h, value), n, o, alloc, allocs, rev)
  {
    AssignmentLine(data, a, h, value, v, e, o, alloc, allocs, rev);
    PairAfterLine(data, Assignment(h, value), n, o, alloc, allocs, rev);
  }

  /** An unquoted value that a comment ends, the '#' at e: the value is
      kept as the revision keeps it, and the comment after it is skipped
      up to the newline. */
  lemma {:induction false} RemarkedLineParsed(data: string, a: nat, h: Header, value: string, text: string, e: nat, n: nat,
                           o: Options, alloc: Allocator, allocs: nat, rev: Revision)
    requires WellFormedHeader(h) && IsPlainValue(value) && All(text, InLine) && '\0' !in h.id
    requires Placed(data, a, HeaderText(h) + value + "#" + text + "\n")
    requires e == a + |HeaderText(h)| + |value| && n == e + |text| + 2 && n <= NulIndex(data)
    requires !Fails(alloc, allocs) && !Fails(alloc, allocs + 1)
    ensures ParseFrom(data, a, o, alloc, allocs, rev) == AfterLine(data, RemarkedAssignment(h, value, text), n, o, alloc, allocs, rev)
  {
    var r := Comment("", text);
    assert HeaderText(h) + value + "#" + text + "\n" == (HeaderText(h) + value) + LineText(r);
    PlacedSplit(data, a, HeaderText(h) + value, LineText(r), e);
    PlacedFirst(data, e, LineText(r));
    FinalAssignmentLine(data, a, h, value, o, alloc, allocs, rev);
    PairSkipsLine(data, h.id, KeptAtEnd(value, rev), e, r, n, o, alloc, allocs, rev);
    PairAfterLine(data, RemarkedAssignment(h, value, text), n, o, alloc, allocs, rev);
  }

  /** A quoted assignment line, its closing quote at j: after the quote
      the scan resumes on what follows it, which the parse skips as it
      would skip a blank or comment line. */
  lemma {:induction false} QuotedLineParsed(data: string, a: nat, h: Header, content: string, ws: string, remark: Option<string>,
                         j: nat, n: nat, o: Options, alloc: Allocator, allocs: nat, rev: Revision)
    requires WellFormedHeader(h) && IsQuotedContent(content) && WellFormedLine(Rest(ws, remark)) && '\0' !in h.id
    requires Placed(data, a, HeaderText(h) + Quoted(content) + LineText(Rest(ws, remark)))
    requires j == a + |HeaderText(h)| + 1 + |content| && n == j + 1 + |LineText(Rest(ws, remark))| && n <= NulIndex(data)
    requires !Fails(alloc, allocs) && !Fails(alloc, allocs + 1)
    ensures ParseFrom(data, a, o, alloc, allocs, rev) == AfterLine(data, QuotedAssignment(h, content, ws, remark), n, o, alloc, allocs, rev)
  {
    var r := Rest(ws, remark);
    PlacedSplit(data, a, HeaderText(h) + Quoted(content), LineText(r), j + 1);
    QuotedAssignmentLine(data, a, h, content, a + |HeaderText(h)|, j, o, alloc, allocs, rev);
    PairSkipsLine(data, h.id, content, j + 1, r, n, o, alloc, allocs, rev);
    PairAfterLine(data, QuotedAssignment(h, content, ws, remark), n, o, alloc, allocs, rev);
  }

  lemma {:induction false} CommentLineParsed(data: string, a: nat, lead: string, text: string, p: nat, q: nat, n: nat,
                          o: Options, alloc: Allocator, allocs: nat, rev: Revision)
    requires AllSpace(lead) && All(text, InLine)
    requires Placed(data, a, lead + "#" + text + "\n")
    requires p == a + |lead| && q == p + 1 + |text| && n == q + 1 && n <= NulIndex(data)
    ensures ParseFrom(data, a, o, alloc, allocs, rev) == AfterLine(data, Comment(lead, text), n, o, alloc, allocs, rev)
  {
    CommentLine(data, a, lead, text, p, q, o, alloc, allocs, rev);
    SkippedAfterLine(data, Comment(lead, text), n, o, alloc, allocs, rev);
  }

  lemma {:induction false} BlankLineParsed(data: string, a: nat, ws: string, n: nat,
                                           o: Options, alloc: Allocator, allocs: nat, rev: Revision)
    requires AllSpace(ws) && Placed(data, a, ws + "\n")
    requires n == a + |ws| + 1 && n <= NulIndex(data)
    ensures ParseFrom(data, a, o, alloc, allocs, rev) == AfterLine(data, Blank(ws), n, o, alloc, allocs, rev)
  {
    PlacedAt(data, a, ws + "\n");
    AllChars(ws, IsSpace);
    forall k | a <= k < n ensures IsSpace(At(data, k)) {
      assert At(data, k) == (ws + "\n")[k - a];
    }
    SpaceSkipped(data, a, n, o, alloc, allocs, rev);
    SkippedAfterLine(data, Blank(ws), n, o, alloc, allocs, rev);
  }

  /** A blank or comment line placed at a is skipped whole. */
  lemma {:induction false} SkippedLineParsed(data: string, a: nat, r: Line, n: nat,
                                             o: Options, alloc: Allocator, allocs: nat, rev: Revision)
    requires (r.Comment? || r.Blank?) && WellFormedLine(r) && Placed(data, a, LineText(r))
    requires n == a + |LineText(r)| && n <= NulIndex(data)
    ensures ParseFrom(data, a, o, alloc, allocs, rev) == ParseFrom(data, n, o, alloc, allocs, rev)
  {
    match r
    case Comment(lead, text) =>
      CommentLineParsed(data, a, lead, text, a + |lead|, n - 1, n, o, alloc, allocs, rev);
    case Blank(ws) =>
      BlankLineParsed(data, a, ws, n, o, alloc, allocs, rev);
  }

  /** The rest of a pair's line, a blank or comment line placed at m,
      changes nothing of how the parse goes on after the pair. */
  lemma {:induction false} PairSkipsLine(data: string, id: string, value: string, m: nat, r: Line, n: nat,
                                         o: Options, alloc: Allocator, allocs: nat, rev: Revision)
    requires '\0' !in id && '\0' !in value
    requires (r.Comment? || r.Blank?) && WellFormedLine(r) && Placed(data, m, LineText(r))
    requires n == m + |LineText(r)| && n <= NulIndex(data)
    ensures AfterPair(data, id, value, m, o, alloc, allocs, rev) == AfterPair(data, id, value, n, o, alloc, allocs, rev)
  {
    match Apply(id, value, o, rev)
    case Rejected(_) =>
    case Applied(o') =>
      SkippedLineParsed(data, m, r, n, o', alloc, allocs + 2, rev);
  }

  /** The first of the placed lines, and the rest after it at n. */
  lemma {:induction false} FirstLinePlaced(data: string, a: nat, lines: seq<Line>, n: nat)
    requires |lines| > 0 && WellFormedLines(lines)
    requires Placed(data, a, Render(lines))
    requires n == a + |LineText(lines[0])|
    ensures WellFormedLine(lines[0]) && WellFormedLines(lines[1..])
    ensures Placed(data, a, LineText(lines[0])) && Placed(data, n, Render(lines[1..]))
    ensures n + |Render(lines[1..])| == a + |Render(lines)|
    ensures LinesAllocs(lines) == LineAllocs(lines[0]) + LinesAllocs(lines[1..])
  {
    assert WellFormedLines(lines[1..]) by {
      forall i | 0 <= i < |lines| - 1 ensures WellFormedLine(lines[1..][i]) {
        assert lines[1..][i] == lines[i + 1];
      }
    }
    assert Render(lines) == LineText(lines[0]) + Render(lines[1..]);
    PlacedSplit(data, a, LineText(lines[0]), Render(lines[1..]), n);
  }

  /* The induction that follows the parse through a sequence of lines
     works on two function values rather than on the scanner and the
     dispatch: P, the parse from a position with a record and an
     allocation count, and E, a line's effect on a record. Each is tied to
     the function it stands for by a quantifier that fires only where that
     function is already in view, so the induction sees the steps the
     lines make and not the workings of either. */

  /** P is the parse of data from every position up to the C string's end. */
  ghost predicate IsParseOf(P: (nat, Options, nat) -> Outcome, data: string, alloc: Allocator, rev: Revision)
  {
    forall p: nat, o: Options, k: nat {:trigger ParseFrom(data, p, o, alloc, k, rev)} ::
      p <= NulIndex(data) ==> P(p, o, k) == ParseFrom(data, p, o, alloc, k, rev)
  }

  /** E is the effect of every dispatchable line under rev. */
  ghost predicate IsEffectOf(E: (Line, Options) -> ApplyResult, rev: Revision)
  {
    forall l: Line, o: Options {:trigger LineEffect(l, o, rev)} ::
      Dispatchable(l) ==> E(l, o) == LineEffect(l, o, rev)
  }

  /** What the effect E makes of the lines, read one at a time as
      Interpret reads them. */
  function Fold(E: (Line, Options) -> ApplyResult, lines: seq<Line>, o: Options): Outcome
  {
    if |lines| == 0 then Outcome(Success, o)
    else
      match E(lines[0], o)
      case Rejected(e) => Outcome(Malformed(e), o)
      case Applied(o') => Fold(E, lines[1..], o')
  }

  /** P, from a with record o and allocs allocations made, takes the step
      E says each line makes: a rejected pair ends it with the error and
      the record as it was; otherwise it goes on after the line with the
      effect applied and the line's allocations made, and after the last
      line it is at n. */
  ghost predicate Steps(P: (nat, Options, nat) -> Outcome, E: (Line, Options) -> ApplyResult,
                        a: nat, lines: seq<Line>, n: nat, o: Options, allocs: nat)
    decreases |lines|
  {
    if |lines| == 0 then a == n
    else
      var m := a + |LineText(lines[0])|;
      match E(lines[0], o)
      case Rejected(e) => P(a, o, allocs) == Outcome(Malformed(e), o)
      case Applied(o') =>
        P(a, o, allocs) == P(m, o', allocs + LineAllocs(lines[0]))
        && Steps(P, E, m, lines[1..], n, o', allocs + LineAllocs(lines[0]))
  }

  /** The step the parse makes over one well-formed line at a, with the
      next line at m. */
  lemma {:induction false} LineStep(P: (nat, Options, nat) -> Outcome, E: (Line, Options) -> ApplyResult,
                                    data: string, a: nat, l: Line, m: nat,
                                    o: Options, alloc: Allocator, allocs: nat, rev: Revision)
    requires IsParseOf(P, data, alloc, rev) && IsEffectOf(E, rev)
    requires WellFormedLine(l) && Dispatchable(l) && Placed(data, a, LineText(l))
    requires m == a + |LineText(l)| && m <= NulIndex(data)
    requires Grants(alloc, allocs, LineAllocs(l))
    ensures E(l, o).Rejected? ==> P(a, o, allocs) == Outcome(Malformed(E(l, o).error), o)
    ensures E(l, o).Applied? ==> P(a, o, allocs) == P(m, E(l, o).opts, allocs + LineAllocs(l))
  {
    LineParsed(data, a, l, m, o, alloc, allocs, rev);
  }

  /** LineStep for the first of several lines, with what the rest of the
      induction needs about the lines after it. */
  lemma {:induction false} FirstLineStep(P: (nat, Options, nat) -> Outcome, E: (Line, Options) -> ApplyResult,
                                         data: string, a: nat, lines: seq<Line>, m: nat, n: nat,
                                         o: Options, alloc: Allocator, allocs: nat, rev: Revision)
    requires IsParseOf(P, data, alloc, rev) && IsEffectOf(E, rev)
    requires |lines| > 0 && WellFormedLines(lines) && Placed(data, a, Render(lines))
    requires m == a + |LineText(lines[0])| && n == a + |Render(lines)| && n <= NulIndex(data)
    requires Grants(alloc, allocs, LinesAllocs(lines))
    ensures WellFormedLines(lines[1..]) && Placed(data, m, Render(lines[1..]))
    ensures n == m + |Render(lines[1..])| && m <= NulIndex(data)
    ensures Grants(alloc, allocs + LineAllocs(lines[0]), LinesAllocs(lines[1..]))
    ensures E(lines[0], o).Rejected? ==> P(a, o, allocs) == Outcome(Malformed(E(lines[0], o).error), o)
    ensures E(lines[0], o).Applied? ==> P(a, o, allocs) == P(m, E(lines[0], o).opts, allocs + LineAllocs(lines[0]))
  {
    FirstLinePlaced(data, a, lines, m);
    PairNoNul(lines[0]);
    LineStep(P, E, data, a, lines[0], m, o, alloc, allocs, rev);
  }

  /** The parse takes those steps over well-formed lines placed at a and
      running to n, whose allocations the allocator grants. */
  lemma {:induction false} ParseSteps(P: (nat, Options, nat) -> Outcome, E: (Line, Options) -> ApplyResult,
                                      data: string, a: nat, lines: seq<Line>, n: nat,
                                      o: Options, alloc: Allocator, allocs: nat, rev: Revision)
    requires IsParseOf(P, data, alloc, rev) && IsEffectOf(E, rev)
    requires WellFormedLines(lines) && Placed(data, a, Render(lines))
    requires n == a + |Render(lines)| && n <= NulIndex(data)
    requires Grants(alloc, allocs, LinesAllocs(lines))
    ensures Steps(P, E, a, lines, n, o, allocs)
    decreases |lines|
  {
    if |lines| > 0 {
      var m := a + |LineText(lines[0])|;
      FirstLineStep(P, E, data, a, lines, m, n, o, alloc, allocs, rev);
      if E(lines[0], o).Applied? {
        ParseSteps(P, E, data, m, lines[1..], n, E(lines[0], o).opts, alloc, allocs + LineAllocs(lines[0]), rev);
      }
    }
  }

  /** Steps over the lines end where the fold says: after the last line
      when every pair is accepted, at the first rejected pair otherwise. */
  lemma {:induction false} StepsEnd(P: (nat, Options, nat) -> Outcome, E: (Line, Options) -> ApplyResult,
                                    a: nat, lines: seq<Line>, n: nat, o: Options, allocs: nat)
    requires Steps(P, E, a, lines, n, o, allocs)
    ensures P(a, o, allocs)
            == if Fold(E, lines, o).status.Success?
               then P(n, Fold(E, lines, o).opts, allocs + LinesAllocs(lines))
               else Fold(E, lines, o)
    decreases |lines|
  {
    if |lines| > 0 && E(lines[0], o).Applied? {
      StepsEnd(P, E, a + |LineText(lines[0])|, lines[1..], n, E(lines[0], o).opts, allocs + LineAllocs(lines[0]));
    }
  }

  /** Interpret is the fold of any function value that agrees with the
      lines' effects. */
  lemma {:induction false} InterpretFold(E: (Line, Options) -> ApplyResult, lines: seq<Line>, o: Options, rev: Revision)
    requires IsEffectOf(E, rev) && WellFormedLines(lines)
    ensures Interpret(lines, o, rev) == Fold(E, lines, o)
    decreases |lines|
  {
    if |lines| > 0 {
      assert WellFormedLines(lines[1..]) by {
        forall i | 0 <= i < |lines| - 1 ensures WellFormedLine(lines[1..][i]) {
          assert lines[1..][i] == lines[i + 1];
        }
      }
      PairNoNul(lines[0]);
      if LineEffect(lines[0], o, rev).Applied? {
        InterpretFold(E, lines[1..], LineEffect(lines[0], o, rev).opts, rev);
      }
    }
  }

  /** Well-formed lines placed at a and running to n, whatever follows
      them, with their allocations granted: if every pair is accepted,
      the parse goes on at n with the record the lines leave and their
      allocations made; otherwise it ends as the lines' meaning says, at
      the first rejected pair. */
  lemma {:induction false} ParsePrefix(data: string, a: nat, lines: seq<Line>, n: nat,
                                       o: Options, alloc: Allocator, allocs: nat, rev: Revision)
    requires WellFormedLines(lines) && Placed(data, a, Render(lines))
    requires n == a + |Render(lines)| && n <= NulIndex(data)
    requires Grants(alloc, allocs, LinesAllocs(lines))
    ensures ParseFrom(data, a, o, alloc, allocs, rev)
            == if Interpret(lines, o, rev).status.Success?
               then ParseFrom(data, n, Interpret(lines, o, rev).opts, alloc, allocs + LinesAllocs(lines), rev)
               else Interpret(lines, o, rev)
  {
    var P := (p: nat, o': Options, k: nat) =>
      if p <= NulIndex(data) then ParseFrom(data, p, o', alloc, k, rev) else Outcome(Success, o');
    var E := (l: Line, o': Options) => if Dispatchable(l) then LineEffect(l, o', rev) else Applied(o');
    ParseSteps(P, E, data, a, lines, n, o, alloc, allocs, rev);
    StepsEnd(P, E, a, lines, n, o, allocs);
    InterpretFold(E, lines, o, rev);
  }

  /** The ending of a file ends the parse with success and the record as
      it finds it, whatever the allocator does. */
  lemma {:induction false} EndingParsed(data: string, n: nat, e: Ending,
                                        o: Options, alloc: Allocator, allocs: nat, rev: Revision)
    requires WellFormedEnding(e) && Placed(data, n, EndingText(e))
    requires n + |EndingText(e)| == NulIndex(data)
    ensures ParseFrom(data, n, o, alloc, allocs, rev) == Outcome(Success, o)
  {
    match e
    case Trailing(ws) =>
      TrailingSpace(data, n, ws, o, alloc, allocs, rev);
    case FinalRemark(lead, text) =>
      FinalComment(data, n, lead, text, o, alloc, allocs, rev);
  }

  /** Well-formed lines and an ending, placed at a and running to the end
      of the C string: the parse from a means what the lines mean. */
  lemma {:induction false} ParseLines(data: string, a: nat, lines: seq<Line>, e: Ending,
                                      o: Options, alloc: Allocator, allocs: nat, rev: Revision)
    requires WellFormedLines(lines) && WellFormedEnding(e)
    requires Placed(data, a, Render(lines) + EndingText(e))
    requires a + |Render(lines) + EndingText(e)| == NulIndex(data)
    requires Grants(alloc, allocs, LinesAllocs(lines))
    ensures ParseFrom(data, a, o, alloc, allocs, rev) == Interpret(lines, o, rev)
  {
    var n := a + |Render(lines)|;
    PlacedSplit(data, a, Render(lines), EndingText(e), n);
    assert Placed(data, n, EndingText(e)) && n + |EndingText(e)| == NulIndex(data);
    forall o': Options
      ensures ParseFrom(data, n, o', alloc, allocs + LinesAllocs(lines), rev) == Outcome(Success, o')
    {
      EndingParsed(data, n, e, o', alloc, allocs + LinesAllocs(lines), rev);
    }
    PrefixThenStops(data, a, lines, n, Success, o, alloc, allocs, rev);
  }

  /** parse_config_file on a file of well-formed lines and an ending,
      with every allocation the lines need granted, returns what reading
      the lines one at a time gives: success with every pair applied in
      order, or the first rejected pair's error. */
  lemma {:induction false} ParseConfigMeaning(lines: seq<Line>, e: Ending, o: Options, alloc: Allocator, rev: Revision)
    requires WellFormedLines(lines) && WellFormedEnding(e)
    requires Grants(alloc, 0, LinesAllocs(lines))
    ensures ParseConfig(Render(lines) + EndingText(e), o, alloc, rev) == Interpret(lines, o, rev)
  {
    var doc := Render(lines) + EndingText(e);
    RenderNoNul(lines);
    EndingNoNul(e);
    assert '\0' !in doc;
    PlacedIntro(doc, 0, doc);
    ParseLines(doc, 0, lines, e, o, alloc, 0, rev);
  }

  /** Reading lines one after another: the lines after the first error are
      never looked at, and that error keeps the record as the lines
      before it left it. */
  lemma {:induction false} InterpretAppend(ls1: seq<Line>, ls2: seq<Line>, o: Options, rev: Revision)
    requires WellFormedLines(ls1) && WellFormedLines(ls2)
    ensures WellFormedLines(ls1 + ls2)
    ensures Interpret(ls1 + ls2, o, rev)
            == if Interpret(ls1, o, rev).status.Success?
               then Interpret(ls2, Interpret(ls1, o, rev).opts, rev)
               else Interpret(ls1, o, rev)
    decreases |ls1|
  {
    assert WellFormedLines(ls1 + ls2) by {
      forall i | 0 <= i < |ls1 + ls2| ensures WellFormedLine((ls1 + ls2)[i]) {
        if i < |ls1| {
          assert (ls1 + ls2)[i] == ls1[i];
        } else {
          assert (ls1 + ls2)[i] == ls2[i - |ls1|];
        }
      }
    }
    if |ls1| == 0 {
      assert ls1 + ls2 == ls2;
    } else {
      var rest := ls1[1..];
      assert WellFormedLines(rest) by {
        forall i | 0 <= i < |rest| ensures WellFormedLine(rest[i]) {
          assert rest[i] == ls1[i + 1];
        }
      }
      assert (ls1 + ls2)[0] == ls1[0];
      assert (ls1 + ls2)[1..] == rest + ls2;
      PairNoNul(ls1[0]);
      match LineEffect(ls1[0], o, rev)
      case Rejected(e) =>
      case Applied(o') =>
        InterpretAppend(rest, ls2, o', rev);
    }
  }

  /** A pair the dispatch rejects, after lines that were all accepted:
      the parse fails with that pair's error, every earlier pair stays
      applied, and nothing after it has any effect. */
  lemma {:induction false} FirstErrorStops(before: seq<Line>, l: Line, after: seq<Line>, o: Options, rev: Revision)
    requires WellFormedLines(before) && WellFormedLine(l) && Dispatchable(l) && WellFormedLines(after)
    requires Interpret(before, o, rev).status.Success?
    requires LineEffect(l, Interpret(before, o, rev).opts, rev).Rejected?
    ensures WellFormedLines(before + [l] + after)
    ensures Interpret(before + [l] + after, o, rev)
            == Outcome(Malformed(LineEffect(l, Interpret(before, o, rev).opts, rev).error), Interpret(before, o, rev).opts)
  {
    assert WellFormedLines([l]);
    InterpretAppend(before, [l], o, rev);
    InterpretAppend(before + [l], after, o, rev);
    assert [l][1..] == [];
  }

  /** A file without pairs: only comment and blank lines. */
  predicate NoPairs(lines: seq<Line>)
  {
    forall i :: 0 <= i < |lines| ==> lines[i].Comment? || lines[i].Blank?
  }

  /** Comment and blank lines allocate nothing and leave the record as
      it is. */
  lemma {:induction false} NoPairsMeaning(lines: seq<Line>, o: Options, rev: Revision)
    requires WellFormedLines(lines) && NoPairs(lines)
    ensures Interpret(lines, o, rev) == Outcome(Success, o)
    ensures LinesAllocs(lines) == 0
    decreases |lines|
  {
    if |lines| > 0 {
      var rest := lines[1..];
      assert WellFormedLines(rest) && NoPairs(rest) by {
        forall i | 0 <= i < |rest| ensures WellFormedLine(rest[i]) && (rest[i].Comment? || rest[i].Blank?) {
          assert rest[i] == lines[i + 1];
        }
      }
      PairNoNul(lines[0]);
      NoPairsMeaning(rest, o, rev);
    }
  }

  /** An empty file, a file of whitespace, or one of comment lines only,
      the last comment possibly cut off by the end of the input, parses
      with return code 0 and leaves the record as it was, whatever the
      allocator does. */
  lemma {:induction false} NoPairsLeaveRecord(lines: seq<Line>, e: Ending, o: Options, alloc: Allocator, rev: Revision)
    requires WellFormedLines(lines) && NoPairs(lines) && WellFormedEnding(e)
    ensures ParseConfig(Render(lines) + EndingText(e), o, alloc, rev) == Outcome(Success, o)
    ensures ReturnCode(ParseConfig(Render(lines) + EndingText(e), o, alloc, rev).status) == 0
  {
    NoPairsMeaning(lines, o, rev);
    ParseConfigMeaning(lines, e, o, alloc, rev);
  }

  /** A line with its comment removed: a pair keeps its value, a comment
      line becomes the blank line of its leading whitespace. */
  function Uncommented(l: Line): Line
  {
    match l
    case RemarkedAssignment(h, value, _) => Assignment(h, value)
    case QuotedAssignment(h, content, ws, _) => QuotedAssignment(h, content, ws, None)
    case Comment(lead, _) => Blank(lead)
    case _ => l
  }

  function UncommentedLines(lines: seq<Line>): seq<Line>
  {
    if |lines| == 0 then [] else [Uncommented(lines[0])] + UncommentedLines(lines[1..])
  }

  function UncommentedEnding(e: Ending): Ending
  {
    match e
    case FinalRemark(lead, _) => Trailing(lead)
    case Trailing(_) => e
  }

  /** In the repaired code a line without its comment has the effect the
      line has, and makes the same allocations. */
  lemma {:induction false} UncommentedLine(l: Line, o: Options)
    requires WellFormedLine(l)
    ensures WellFormedLine(Uncommented(l)) && Dispatchable(l) && Dispatchable(Uncommented(l))
    ensures LineAllocs(Uncommented(l)) == LineAllocs(l)
    ensures LineEffect(Uncommented(l), o, Corrected) == LineEffect(l, o, Corrected)
  {
    PairNoNul(l);
    PairNoNul(Uncommented(l));
  }

  /** In the repaired code the lines mean the same with every comment
      removed. */
  lemma {:induction false} UncommentedMeaning(lines: seq<Line>, o: Options)
    requires WellFormedLines(lines)
    ensures WellFormedLines(UncommentedLines(lines))
    ensures LinesAllocs(UncommentedLines(lines)) == LinesAllocs(lines)
    ensures Interpret(UncommentedLines(lines), o, Corrected) == Interpret(lines, o, Corrected)
    decreases |lines|
  {
    if |lines| > 0 {
      var rest := lines[1..];
      assert WellFormedLines(rest) by {
        forall i | 0 <= i < |rest| ensures WellFormedLine(rest[i]) {
          assert rest[i] == lines[i + 1];
        }
      }
      var u := UncommentedLines(lines);
      assert u[0] == Uncommented(lines[0]) && u[1..] == UncommentedLines(rest);
      UncommentedLine(lines[0], o);
      match LineEffect(lines[0], o, Corrected) {
        case Rejected(_) =>
          UncommentedMeaning(rest, o);
        case Applied(o') =>
          UncommentedMeaning(rest, o');
      }
      assert WellFormedLines(u) by {
        forall i | 0 <= i < |u| ensures WellFormedLine(u[i]) {
          if i > 0 {
            assert u[i] == u[1..][i - 1];
          }
        }
      }
    }
  }

  /** What the format's description promises of comments, that
      everything after a '#' outside quotes is ignored, holds of the
      repaired code: a file of well-formed lines parses exactly as the
      same file with every comment removed. */
  lemma {:induction false} CommentsIgnored(lines: seq<Line>, e: Ending, o: Options, alloc: Allocator)
    requires WellFormedLines(lines) && WellFormedEnding(e)
    requires Grants(alloc, 0, LinesAllocs(lines))
    ensures ParseConfig(Render(lines) + EndingText(e), o, alloc, Corrected)
            == ParseConfig(Render(UncommentedLines(lines)) + EndingText(UncommentedEnding(e)), o, alloc, Corrected)
  {
    UncommentedMeaning(lines, o);
    assert WellFormedEnding(UncommentedEnding(e));
    ParseConfigMeaning(lines, e, o, alloc, Corrected);
    ParseConfigMeaning(UncommentedLines(lines), UncommentedEnding(e), o, alloc, Corrected);
  }

  /** The outcome of a file whose well-formed lines are followed by a
      statement that ends the parse with status s: the lines' first error
      if they have one, otherwise s with the record the lines left. */
  function StopsAfter(lines: seq<Line>, s: Status, o: Options, rev: Revision): Outcome
    requires WellFormedLines(lines)
  {
    if Interpret(lines, o, rev).status.Success?
    then Outcome(s, Interpret(lines, o, rev).opts)
    else Interpret(lines, o, rev)
  }

  /** Lines placed at a, then at n a statement that ends the parse with
      status s whatever the record is by then: the parse from a ends with
      s and the record the lines leave, or at the first rejected pair
      among the lines. */
  lemma {:induction false} PrefixThenStops(data: string, a: nat, lines: seq<Line>, n: nat, s: Status,
                                           o: Options, alloc: Allocator, allocs: nat, rev: Revision)
    requires WellFormedLines(lines) && Placed(data, a, Render(lines))
    requires n == a + |Render(lines)| && n <= NulIndex(data)
    requires Grants(alloc, allocs, LinesAllocs(lines))
    requires forall o': Options :: ParseFrom(data, n, o', alloc, allocs + LinesAllocs(lines), rev) == Outcome(s, o')
    ensures ParseFrom(data, a, o, alloc, allocs, rev) == StopsAfter(lines, s, o, rev)
  {
    var i := Interpret(lines, o, rev);
    assert ParseFrom(data, n, i.opts, alloc, allocs + LinesAllocs(lines), rev) == Outcome(s, i.opts);
    ParsePrefix(data, a, lines, n, o, alloc, allocs, rev);
  }

  /** Accepted lines, then a quote that nothing closes: the unterminated
      quote error, with every earlier pair applied. */
  lemma {:induction false} UnterminatedAfterLines(data: string, lines: seq<Line>, h: Header, content: string,
                                                  o: Options, alloc: Allocator, rev: Revision)
    requires WellFormedLines(lines) && WellFormedHeader(h) && NoClosingQuote(content)
    requires Placed(data, 0, Render(lines)) && Placed(data, |Render(lines)|, HeaderText(h) + "\"" + content)
    requires |Render(lines)| + |HeaderText(h)| + 1 + |content| == NulIndex(data)
    requires Grants(alloc, 0, LinesAllocs(lines) + 1)
    ensures ParseConfig(data, o, alloc, rev) == StopsAfter(lines, Malformed(UnterminatedQuote), o, rev)
  {
    var n := |Render(lines)|;
    forall o': Options
      ensures ParseFrom(data, n, o', alloc, 0 + LinesAllocs(lines), rev) == Outcome(Malformed(UnterminatedQuote), o')
    {
      UnterminatedQuoteLine(data, n, h, content, o', alloc, 0 + LinesAllocs(lines), rev);
    }
    PrefixThenStops(data, 0, lines, n, Malformed(UnterminatedQuote), o, alloc, 0, rev);
  }

  /** Accepted lines, then an identifier followed by something other
      than '=': the expected-equals error, with every earlier pair
      applied. */
  lemma {:induction false} ExpectedEqualsAfterLines(data: string, lines: seq<Line>, lead: string, id: string, ws: string,
                                                    o: Options, alloc: Allocator, rev: Revision)
    requires WellFormedLines(lines) && AllSpace(lead) && IsIdentifier(id) && AllBlank(ws)
    requires Placed(data, 0, Render(lines)) && Placed(data, |Render(lines)|, lead + id + ws)
    requires |Render(lines)| + |lead| + |id| + |ws| <= NulIndex(data)
    requires At(data, |Render(lines)| + |lead| + |id| + |ws|) != '='
    requires !IsBlank(At(data, |Render(lines)| + |lead| + |id| + |ws|))
    requires |ws| > 0 || IsSpace(At(data, |Render(lines)| + |lead| + |id| + |ws|))
    requires Grants(alloc, 0, LinesAllocs(lines) + 1)
    ensures ParseConfig(data, o, alloc, rev) == StopsAfter(lines, Malformed(ExpectedEquals(id)), o, rev)
  {
    var n := |Render(lines)|;
    forall o': Options
      ensures ParseFrom(data, n, o', alloc, 0 + LinesAllocs(lines), rev) == Outcome(Malformed(ExpectedEquals(id)), o')
    {
      ExpectedEqualsLine(data, n, lead, id, ws, o', alloc, 0 + LinesAllocs(lines), rev);
    }
    PrefixThenStops(data, 0, lines, n, Malformed(ExpectedEquals(id)), o, alloc, 0, rev);
  }

  /** Accepted lines, then a pair whose identifier cannot be allocated:
      the system error, with every earlier pair applied. */
  lemma {:induction false} OutOfMemoryAfterLines(data: string, lines: seq<Line>, h: Header, o: Options, rev: Revision)
    requires WellFormedLines(lines) && WellFormedHeader(h)
    requires Placed(data, 0, Render(lines)) && Placed(data, |Render(lines)|, HeaderText(h))
    requires |Render(lines)| + |HeaderText(h)| <= NulIndex(data)
    ensures ParseConfig(data, o, FailsOnCall(LinesAllocs(lines)), rev) == StopsAfter(lines, OutOfMemory, o, rev)
  {
    var n, alloc := |Render(lines)|, FailsOnCall(LinesAllocs(lines));
    forall o': Options
      ensures ParseFrom(data, n, o', alloc, 0 + LinesAllocs(lines), rev) == Outcome(OutOfMemory, o')
    {
      HeaderOutOfMemory(data, n, h, o', alloc, 0 + LinesAllocs(lines), rev);
    }
    PrefixThenStops(data, 0, lines, n, OutOfMemory, o, alloc, 0, rev);
  }

  /** Accepted lines, then a pair whose empty value a comment cuts off:
      the code as written reaches undefined behaviour, with every earlier
      pair applied. */
  lemma {:induction false} UndefinedAfterLines(data: string, lines: seq<Line>, h: Header, o: Options, alloc: Allocator)
    requires WellFormedLines(lines) && WellFormedHeader(h)
    requires Placed(data, 0, Render(lines)) && Placed(data, |Render(lines)|, HeaderText(h) + "#")
    requires |Render(lines)| + |HeaderText(h)| + 1 <= NulIndex(data)
    requires Grants(alloc, 0, LinesAllocs(lines) + 2)
    ensures ParseConfig(data, o, alloc, AsWritten) == StopsAfter(lines, Undefined, o, AsWritten)
  {
    var n := |Render(lines)|;
    forall o': Options
      ensures ParseFrom(data, n, o', alloc, 0 + LinesAllocs(lines), AsWritten) == Outcome(Undefined, o')
    {
      EmptyValueBeforeComment(data, n, h, n + |HeaderText(h)|, o', alloc, 0 + LinesAllocs(lines), AsWritten);
    }
    PrefixThenStops(data, 0, lines, n, Undefined, o, alloc, 0, AsWritten);
  }

  /** Accepted lines, then an identifier with nothing but blanks after
      its '=' before the end of the line or of the input: the
      missing-value error, with every earlier pair applied. */
  lemma {:induction false} MissingValueAfterLines(data: string, lines: seq<Line>, h: Header,
                                                  o: Options, alloc: Allocator, rev: Revision)
    requires WellFormedLines(lines) && WellFormedHeader(h)
    requires Placed(data, 0, Render(lines)) && Placed(data, |Render(lines)|, HeaderText(h))
    requires |Render(lines)| + |HeaderText(h)| <= NulIndex(data)
    requires !InLine(At(data, |Render(lines)| + |HeaderText(h)|))
    requires Grants(alloc, 0, LinesAllocs(lines) + 1)
    ensures ParseConfig(data, o, alloc, rev) == StopsAfter(lines, Malformed(MissingValue(h.id)), o, rev)
  {
    var n := |Render(lines)|;
    MissingValueAnyRecord(data, n, h, alloc, 0 + LinesAllocs(lines), rev);
    PrefixThenStops(data, 0, lines, n, Malformed(MissingValue(h.id)), o, alloc, 0, rev);
  }

  /** MissingValueLine for every record the parse may have reached. */
  lemma {:induction false} MissingValueAnyRecord(data: string, n: nat, h: Header, alloc: Allocator, allocs: nat, rev: Revision)
    requires WellFormedHeader(h) && Placed(data, n, HeaderText(h)) && n + |HeaderText(h)| <= NulIndex(data)
    requires !InLine(At(data, n + |HeaderText(h)|))
    requires !Fails(alloc, allocs)
    ensures forall o': Options :: ParseFrom(data, n, o', alloc, allocs, rev) == Outcome(Malformed(MissingValue(h.id)), o')
  {
    forall o': Options
      ensures ParseFrom(data, n, o', alloc, allocs, rev) == Outcome(Malformed(MissingValue(h.id)), o')
    {
      MissingValueLine(data, n, h, n + |HeaderText(h)|, o', alloc, allocs, rev);
    }
  }

  /** Accepted lines, then an identifier ended by a character that is
      neither whitespace nor '=': the bad-identifier-end error, with every
      earlier pair applied, whatever the allocator does next. */
  lemma {:induction false} BadIdentifierEndAfterLines(data: string, lines: seq<Line>, lead: string, id: string,
                                                      o: Options, alloc: Allocator, rev: Revision)
    requires WellFormedLines(lines) && AllSpace(lead) && IsIdentifier(id)
    requires Placed(data, 0, Render(lines)) && Placed(data, |Render(lines)|, lead + id)
    requires |Render(lines)| + |lead| + |id| <= NulIndex(data)
    requires !IsIdentChar(At(data, |Render(lines)| + |lead| + |id|))
    requires !IsSpace(At(data, |Render(lines)| + |lead| + |id|)) && At(data, |Render(lines)| + |lead| + |id|) != '='
    requires Grants(alloc, 0, LinesAllocs(lines))
    ensures ParseConfig(data, o, alloc, rev)
            == StopsAfter(lines, Malformed(BadIdentifierEnd(At(data, |Render(lines)| + |lead| + |id|))), o, rev)
  {
    var n := |Render(lines)|;
    var s := Malformed(BadIdentifierEnd(At(data, n + |lead| + |id|)));
    forall o': Options
      ensures ParseFrom(data, n, o', alloc, 0 + LinesAllocs(lines), rev) == Outcome(s, o')
    {
      BadIdentifierEndLine(data, n, lead, id, o', alloc, 0 + LinesAllocs(lines), rev);
    }
    PrefixThenStops(data, 0, lines, n, s, o, alloc, 0, rev);
  }

  /** Accepted lines, then a character that starts neither a comment nor
      an identifier: the invalid-start error, with every earlier pair
      applied. */
  lemma {:induction false} InvalidStartAfterLines(data: string, lines: seq<Line>, lead: string,
                                                  o: Options, alloc: Allocator, rev: Revision)
    requires WellFormedLines(lines) && AllSpace(lead)
    requires Placed(data, 0, Render(lines)) && Placed(data, |Render(lines)|, lead)
    requires |Render(lines)| + |lead| <= NulIndex(data)
    requires At(data, |Render(lines)| + |lead|) != '\0' && !IsSpace(At(data, |Render(lines)| + |lead|))
    requires At(data, |Render(lines)| + |lead|) != '#' && !IsIdentStart(At(data, |Render(lines)| + |lead|))
    requires Grants(alloc, 0, LinesAllocs(lines))
    ensures ParseConfig(data, o, alloc, rev)
            == StopsAfter(lines, Malformed(InvalidIdentifierStart(At(data, |Render(lines)| + |lead|))), o, rev)
  {
    var n := |Render(lines)|;
    var s := Malformed(InvalidIdentifierStart(At(data, n + |lead|)));
    forall o': Options
      ensures ParseFrom(data, n, o', alloc, 0 + LinesAllocs(lines), rev) == Outcome(s, o')
    {
      InvalidIdentifierStartLine(data, n, lead, o', alloc, 0 + LinesAllocs(lines), rev);
    }
    PrefixThenStops(data, 0, lines, n, s, o, alloc, 0, rev);
  }

  /** A quoted pair needs no newline after it: the scan resumes right
      after the closing quote, so the lines that follow on the same line
      are read as if a new line began there. */
  lemma {:induction false} QuotedPairThenLines(h: Header, content: string, lines: seq<Line>, e: Ending,
                                               o: Options, rev: Revision)
    requires WellFormedHeader(h) && IsQuotedContent(content) && WellFormedLines(lines) && WellFormedEnding(e)
    ensures WellFormedLines([QuotedAssignment(h, content, "", None)] + lines)
    ensures ParseConfig(HeaderText(h) + Quoted(content) + Render(lines) + EndingText(e), o, Reliable, rev)
            == Interpret([QuotedAssignment(h, content, "", None)] + lines, o, rev)
  {
    QuotedPairLayout(h, content, lines, e);
    var x := HeaderText(h) + Quoted(content);
    QuotedPairThenLinesAt(x + Render(lines) + EndingText(e), 0, |x|, h, content, lines, e, o, 0, rev);
  }

  /** QuotedPairThenLines for a buffer holding the quoted pair at a and
      the lines at n. */
  lemma {:induction false} QuotedPairThenLinesAt(data: string, a: nat, n: nat, h: Header, content: string,
                                                 lines: seq<Line>, e: Ending, o: Options, allocs: nat, rev: Revision)
    requires WellFormedHeader(h) && IsQuotedContent(content) && WellFormedLines(lines) && WellFormedEnding(e)
    requires Placed(data, a, HeaderText(h) + Quoted(content)) && n == a + |HeaderText(h) + Quoted(content)|
    requires Placed(data, n, Render(lines) + EndingText(e)) && NulIndex(data) == n + |Render(lines) + EndingText(e)|
    ensures WellFormedLines([QuotedAssignment(h, content, "", None)] + lines)
    ensures ParseFrom(data, a, o, Reliable, allocs, rev) == Interpret([QuotedAssignment(h, content, "", None)] + lines, o, rev)
  {
    var j := n - 1;
    QuotedAssignmentLine(data, a, h, content, a + |HeaderText(h)|, j, o, Reliable, allocs, rev);
    assert j + 1 == n;
    PairThenLines(data, h, content, n, lines, e, o, allocs, rev);
  }

  /** Once a quoted pair is read with the lines after it placed at n, the
      parse goes on as reading the pair and then the lines. */
  lemma {:induction false} PairThenLines(data: string, h: Header, content: string, n: nat, lines: seq<Line>, e: Ending,
                                         o: Options, allocs: nat, rev: Revision)
    requires WellFormedHeader(h) && IsQuotedContent(content) && WellFormedLines(lines) && WellFormedEnding(e)
    requires '\0' !in h.id && '\0' !in content
    requires Placed(data, n, Render(lines) + EndingText(e)) && NulIndex(data) == n + |Render(lines) + EndingText(e)|
    ensures WellFormedLines([QuotedAssignment(h, content, "", None)] + lines)
    ensures AfterPair(data, h.id, content, n, o, Reliable, allocs, rev) == Interpret([QuotedAssignment(h, content, "", None)] + lines, o, rev)
  {
    InterpretFirst(QuotedAssignment(h, content, "", None), lines, o, rev);
    match Apply(h.id, content, o, rev)
    case Rejected(_) =>
    case Applied(o1) =>
      ParseLines(data, n, lines, e, o1, Reliable, allocs + 2, rev);
  }

  /** Where the pieces of a quoted pair followed by lines lie. */
  lemma {:induction false} QuotedPairLayout(h: Header, content: string, lines: seq<Line>, e: Ending)
    requires WellFormedHeader(h) && IsQuotedContent(content) && WellFormedLines(lines) && WellFormedEnding(e)
    ensures var doc := HeaderText(h) + Quoted(content) + Render(lines) + EndingText(e);
            var x := HeaderText(h) + Quoted(content);
            '\0' !in doc && NulIndex(doc) == |x| + |Render(lines) + EndingText(e)|
            && Placed(doc, 0, x) && Placed(doc, |x|, Render(lines) + EndingText(e))
  {
    var x, y := HeaderText(h) + Quoted(content), Render(lines) + EndingText(e);
    var doc := x + y;
    assert HeaderText(h) + Quoted(content) + Render(lines) + EndingText(e) == doc;
    HeaderNoNul(h);
    RenderNoNul(lines);
    EndingNoNul(e);
    assert '\0' !in doc;
    PlacedIntro(doc, 0, doc);
    PlacedSplit(doc, 0, x, y, |x|);
  }

  /** Reading a line in front of others: its effect, then the rest. */
  lemma {:induction false} InterpretFirst(l: Line, lines: seq<Line>, o: Options, rev: Revision)
    requires WellFormedLine(l) && WellFormedLines(lines)
    ensures Dispatchable(l) && WellFormedLines([l] + lines)
    ensures Interpret([l] + lines, o, rev)
            == match LineEffect(l, o, rev)
               case Rejected(e) => Outcome(Malformed(e), o)
               case Applied(o') => Interpret(lines, o', rev)
  {
    PairNoNul(l);
    var all := [l] + lines;
    assert WellFormedLines(all) by {
      forall i | 0 <= i < |all| ensures WellFormedLine(all[i]) {
        if i > 0 {
          assert all[i] == lines[i - 1];
        }
      }
    }
    assert all[0] == l && all[1..] == lines;
  }
}
