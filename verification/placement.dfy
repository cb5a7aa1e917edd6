/** Pieces of configuration text placed at a position of the buffer, and
    what each phase of parse_config_file (daemon.c lines 383-525) does
    with them. */
module Placement {
  import opened Common
  import opened CharClass
  import opened Settings
  import opened Dispatch
  import opened Parser
  import opened ScanShapes

  /** The part of an assignment line before its value: leading
      whitespace, the identifier, blanks, '=', blanks. */
  datatype Header = Header(lead: string, id: string, ws1: string, ws2: string)

  function HeaderText(h: Header): string
  {
    h.lead + h.id + h.ws1 + "=" + h.ws2
  }

  predicate WellFormedHeader(h: Header)
  {
    AllSpace(h.lead) && IsIdentifier(h.id) && AllBlank(h.ws1) && AllBlank(h.ws2)
  }

  /** Text of an unquoted value: no NUL, newline or '#', and not starting
      with a blank (which would belong to the header) or a quote. */
  predicate IsPlainValue(s: string)
  {
    |s| > 0 && !IsBlank(s[0]) && s[0] != '"' && forall i :: 0 <= i < |s| ==> InUnquotedValue(s[i])
  }

  /** The pieces of a well-formed header, character by character. */
  lemma {:induction false} HeaderPieces(h: Header)
    requires WellFormedHeader(h)
    ensures forall i :: 0 <= i < |h.lead| ==> IsSpace(h.lead[i])
    ensures |h.id| > 0 && IsIdentStart(h.id[0])
    ensures forall i :: 0 <= i < |h.id| ==> IsIdentChar(h.id[i])
    ensures forall i :: 0 <= i < |h.ws1| ==> IsBlank(h.ws1[i])
    ensures forall i :: 0 <= i < |h.ws2| ==> IsBlank(h.ws2[i])
  {
    AllChars(h.lead, IsSpace);
    AllChars(h.id, IsIdentChar);
    AllChars(h.ws1, IsBlank);
    AllChars(h.ws2, IsBlank);
  }

  /** Header text holds no NUL, so neither does the identifier. */
  lemma {:induction false} HeaderNoNul(h: Header)
    requires WellFormedHeader(h)
    ensures '\0' !in h.id && '\0' !in HeaderText(h)
  {
    HeaderPieces(h);
  }

  lemma {:induction false} PlainValueNoNul(s: string)
    requires IsPlainValue(s)
    ensures '\0' !in s
  {
  }

  /** The character at i is preceded by a backslash. */
  predicate Escaped(s: string, i: int)
  {
    0 < i <= |s| && s[i - 1] == '\\'
  }

  /** Text between two quotes that the first of them does not close
      early: every '"' in it is preceded by a backslash. */
  predicate NoClosingQuote(s: string)
  {
    '\0' !in s && forall i :: 0 <= i < |s| && s[i] == '"' ==> Escaped(s, i)
  }

  /** Text of a quoted value: no unescaped quote inside, and no trailing
      backslash (which would escape the closing quote). */
  predicate IsQuotedContent(s: string)
  {
    NoClosingQuote(s) && !Escaped(s, |s|)
  }

  /** A value written between double quotes. */
  function Quoted(s: string): string
  {
    "\"" + s + "\""
  }

  /** How the parse continues once the pair (id, value) is dispatched
      and both allocations succeeded: from `next` with the pair applied, or
      it stops with the dispatch's error and the record unchanged.
      `allocs` is the index of the identifier's allocation. */
  function AfterPair(data: string, id: string, value: string, next: nat,
                     o: Options, alloc: Allocator, allocs: nat, rev: Revision): Outcome
    requires '\0' !in id && '\0' !in value
    requires next <= NulIndex(data)
  {
    match Apply(id, value, o, rev)
    case Rejected(e) => Outcome(Malformed(e), o)
    case Applied(o') => ParseFrom(data, next, o', alloc, allocs + 2, rev)
  }

  /** The characters of a header's text, piece by piece. */
  lemma {:induction false} HeaderTextChars(h: Header)
    ensures |HeaderText(h)| == |h.lead| + |h.id| + |h.ws1| + 1 + |h.ws2|
    ensures forall k :: 0 <= k < |h.lead| ==> HeaderText(h)[k] == h.lead[k]
    ensures forall k :: |h.lead| <= k < |h.lead| + |h.id| ==> HeaderText(h)[k] == h.id[k - |h.lead|]
    ensures forall k :: |h.lead| + |h.id| <= k < |h.lead| + |h.id| + |h.ws1| ==>
              HeaderText(h)[k] == h.ws1[k - |h.lead| - |h.id|]
    ensures HeaderText(h)[|h.lead| + |h.id| + |h.ws1|] == '='
    ensures forall k :: |h.lead| + |h.id| + |h.ws1| < k < |HeaderText(h)| ==>
              HeaderText(h)[k] == h.ws2[k - |h.lead| - |h.id| - |h.ws1| - 1]
  {
  }

  /** A piece of text placed at position a of the buffer: its characters
      from the k-th on are in place. Stated by recursion on k, so that a
      proof sees one character at a time and asks for the rest through
      PlacedAt. */
  predicate PlacedFrom(data: string, a: nat, t: string, k: nat)
    requires k <= |t|
    decreases |t| - k
  {
    if k == |t| then a + |t| <= |data|
    else At(data, a + k) == t[k] && PlacedFrom(data, a, t, k + 1)
  }

  predicate Placed(data: string, a: nat, t: string)
  {
    PlacedFrom(data, a, t, 0)
  }

  lemma {:induction false} PlacedFromAt(data: string, a: nat, t: string, k: nat)
    requires k <= |t| && PlacedFrom(data, a, t, k)
    ensures a + |t| <= |data|
    ensures forall j :: a + k <= j < a + |t| ==> At(data, j) == t[j - a]
    decreases |t| - k
  {
    if k < |t| {
      PlacedFromAt(data, a, t, k + 1);
    }
  }

  lemma {:induction false} PlacedFromIntro(data: string, a: nat, t: string, k: nat)
    requires k <= |t| && a + |t| <= |data|
    requires forall j :: a + k <= j < a + |t| ==> At(data, j) == t[j - a]
    ensures PlacedFrom(data, a, t, k)
    decreases |t| - k
  {
    if k < |t| {
      PlacedFromIntro(data, a, t, k + 1);
    }
  }

  /** The characters of a placed piece, by buffer position. */
  lemma {:induction false} PlacedAt(data: string, a: nat, t: string)
    requires Placed(data, a, t)
    ensures a + |t| <= |data|
    ensures forall k :: a <= k < a + |t| ==> At(data, k) == t[k - a]
  {
    PlacedFromAt(data, a, t, 0);
  }

  /** A piece whose every character is in place is placed. */
  lemma {:induction false} PlacedIntro(data: string, a: nat, t: string)
    requires a + |t| <= |data|
    requires forall k :: a <= k < a + |t| ==> At(data, k) == t[k - a]
    ensures Placed(data, a, t)
  {
    PlacedFromIntro(data, a, t, 0);
  }

  /** A placed concatenation places both of its parts. */
  lemma {:induction false} PlacedSplit(data: string, a: nat, x: string, y: string, m: nat)
    requires Placed(data, a, x + y) && m == a + |x|
    ensures Placed(data, a, x) && Placed(data, m, y)
  {
    PlacedAt(data, a, x + y);
    forall k | a <= k < a + |x| ensures At(data, k) == x[k - a] {
      assert (x + y)[k - a] == x[k - a];
    }
    PlacedIntro(data, a, x);
    forall k | m <= k < m + |y| ensures At(data, k) == y[k - m] {
      assert (x + y)[k - a] == y[k - m];
    }
    PlacedIntro(data, m, y);
  }

  /** A well-formed header placed at a, followed at v by a value
      character: the parse from a reaches the value phase at v. */
  lemma {:induction false} HeaderReachesValue(data: string, a: nat, h: Header, o: Options, alloc: Allocator, allocs: nat, rev: Revision)
    requires Placed(data, a, HeaderText(h)) && WellFormedHeader(h)
    requires a + |HeaderText(h)| < NulIndex(data)
    requires !IsBlank(At(data, a + |HeaderText(h)|)) && !IsEol(At(data, a + |HeaderText(h)|))
    requires !Fails(alloc, allocs)
    ensures '\0' !in h.id
    ensures ParseFrom(data, a, o, alloc, allocs, rev) == Value(data, h.id, a + |HeaderText(h)|, o, alloc, allocs + 1, rev)
  {
    HeaderPositions(data, a, h, a + |h.lead|, a + |h.lead| + |h.id|, a + |HeaderText(h)|, o, alloc, allocs, rev);
  }

  /** HeaderReachesValue with the identifier in [b, c) and the value at v. */
  lemma {:induction false} HeaderPositions(data: string, a: nat, h: Header, b: nat, c: nat, v: nat,
                        o: Options, alloc: Allocator, allocs: nat, rev: Revision)
    requires Placed(data, a, HeaderText(h)) && WellFormedHeader(h)
    requires b == a + |h.lead| && c == b + |h.id| && v == a + |HeaderText(h)|
    requires v < NulIndex(data) && !IsBlank(At(data, v)) && !IsEol(At(data, v))
    requires !Fails(alloc, allocs)
    ensures '\0' !in h.id
    ensures ParseFrom(data, a, o, alloc, allocs, rev) == Value(data, h.id, v, o, alloc, allocs + 1, rev)
  {
    assert ParseFrom(data, a, o, alloc, allocs, rev) == Statement(data, b, o, alloc, allocs, rev) by {
      HeaderReachesStatement(data, a, h, b, o, alloc, allocs, rev);
    }
    assert Statement(data, b, o, alloc, allocs, rev) == Value(data, h.id, v, o, alloc, allocs + 1, rev) by {
      IdentifierAt(data, a, h, b, c);
      ValueStartAt(data, a, h, c, v);
      StatementReachesValue(data, b, c, v, h.id, o, alloc, allocs, rev);
    }
  }

  /** Where the identifier of a placed header lies: in [b, c). */
  lemma {:induction false} IdentifierAt(data: string, a: nat, h: Header, b: nat, c: nat)
    requires Placed(data, a, HeaderText(h)) && WellFormedHeader(h)
    requires b == a + |h.lead| && c == b + |h.id|
    requires a + |HeaderText(h)| <= NulIndex(data)
    ensures b < c < a + |HeaderText(h)|
    ensures forall k :: b <= k < c ==> IsIdentChar(At(data, k))
    ensures data[b..c] == h.id
    ensures IsBlank(At(data, c)) || At(data, c) == '='
  {
    HeaderPieces(h);
    HeaderTextChars(h);
    PlacedAt(data, a, HeaderText(h));
    if |h.ws1| > 0 {
      assert At(data, c) == HeaderText(h)[c - a] == h.ws1[0];
    } else {
      assert At(data, c) == HeaderText(h)[c - a] == '=';
    }
    forall k | b <= k < c ensures At(data, k) == h.id[k - b] && data[k] == h.id[k - b] {
      assert At(data, k) == HeaderText(h)[k - a];
    }
    assert |data[b..c]| == |h.id|;
  }

  /** The leading whitespace of a placed header is skipped to its
      identifier at b. */
  lemma {:induction false} HeaderReachesStatement(data: string, a: nat, h: Header, b: nat, o: Options, alloc: Allocator, allocs: nat, rev: Revision)
    requires Placed(data, a, HeaderText(h)) && WellFormedHeader(h)
    requires b == a + |h.lead|
    requires a + |HeaderText(h)| <= NulIndex(data)
    ensures ParseFrom(data, a, o, alloc, allocs, rev) == Statement(data, b, o, alloc, allocs, rev)
  {
    HeaderPieces(h);
    HeaderTextChars(h);
    PlacedAt(data, a, HeaderText(h));
    forall k | a <= k < b ensures IsSpace(At(data, k)) {
      assert At(data, k) == h.lead[k - a];
    }
    assert At(data, b) == h.id[0];
    ParseReachesStatement(data, a, b, o, alloc, allocs, rev);
  }

  /** The blanks and '=' after the identifier of a placed header, which
      ends at c, lead to the value's first character at v. */
  lemma {:induction false} ValueStartAt(data: string, a: nat, h: Header, c: nat, v: nat)
    requires Placed(data, a, HeaderText(h)) && WellFormedHeader(h)
    requires c == a + |h.lead| + |h.id| && v == a + |HeaderText(h)|
    requires v <= NulIndex(data) && !IsBlank(At(data, v))
    ensures SkipToValue(data, c) == Some(v)
  {
    HeaderPieces(h);
    HeaderTextChars(h);
    PlacedAt(data, a, HeaderText(h));
    var d := c + |h.ws1|;
    forall k | c <= k < d ensures IsBlank(At(data, k)) {
      assert At(data, k) == h.ws1[k - c];
    }
    assert At(data, d) == '=';
    forall k | d < k < v ensures IsBlank(At(data, k)) {
      assert At(data, k) == h.ws2[k - d - 1];
    }
    SkipToValueAt(data, c, d, v);
  }

  /** The first character of a placed piece. */
  lemma {:induction false} PlacedFirst(data: string, m: nat, t: string)
    requires Placed(data, m, t) && |t| > 0
    ensures At(data, m) == t[0]
  {
  }

  /** The copy of val_len - 1 characters from start, which end at e, is
      exactly the placed value. Here and below `allocs` indexes the
      identifier's allocation, as in AfterPair; the value's is the next. */
  lemma {:induction false} AssignStores(data: string, id: string, start: nat, value: string, e: nat, next: nat,
                     o: Options, alloc: Allocator, allocs: nat, rev: Revision)
    requires '\0' !in id
    requires Placed(data, start, value) && e == start + |value| && e <= NulIndex(data)
    requires next <= NulIndex(data)
    requires !Fails(alloc, allocs + 1)
    ensures '\0' !in value
    ensures Assign(data, id, start, e - start + 1, next, o, alloc, allocs + 1, rev)
            == AfterPair(data, id, value, next, o, alloc, allocs, rev)
  {
    PlacedAt(data, start, value);
    forall k | start <= k < e ensures data[k] == value[k - start] {
      assert At(data, k) == value[k - start];
    }
    assert data[start..e] == value;
    NoNulBelow(data, start, e);
  }

  /** The unquoted scan from v runs over exactly the placed value and stops
      at e. */
  lemma {:induction false} UnquotedRun(data: string, v: nat, value: string, e: nat)
    requires IsPlainValue(value) && Placed(data, v, value) && e == v + |value|
    requires e <= NulIndex(data) && !InUnquotedValue(At(data, e))
    ensures SkipWhile(data, v, InUnquotedValue) == e
    ensures At(data, v) != '"'
  {
    PlacedAt(data, v, value);
    forall k | v <= k < e ensures InUnquotedValue(At(data, k)) {
      assert At(data, k) == value[k - v];
    }
    SkipExactly(data, v, |value|, InUnquotedValue);
    assert At(data, v) == value[0];
  }

  /** An unquoted value ended by a newline at e is stored whole, and the
      scan resumes after the newline. */
  lemma {:induction false} PlainValueAt(data: string, id: string, v: nat, value: string, e: nat,
                     o: Options, alloc: Allocator, allocs: nat, rev: Revision)
    requires '\0' !in id
    requires IsPlainValue(value) && Placed(data, v, value) && e == v + |value|
    requires e < NulIndex(data) && IsEol(At(data, e))
    requires !Fails(alloc, allocs + 1)
    ensures '\0' !in value
    ensures Value(data, id, v, o, alloc, allocs + 1, rev) == AfterPair(data, id, value, e + 1, o, alloc, allocs, rev)
  {
    UnquotedRun(data, v, value, e);
    AssignStores(data, id, v, value, e, e + 1, o, alloc, allocs, rev);
  }

  /** With the value's allocation failing, an unquoted value returns -1. */
  lemma {:induction false} PlainValueOutOfMemory(data: string, id: string, v: nat, value: string, e: nat,
                              o: Options, alloc: Allocator, allocs: nat, rev: Revision)
    requires '\0' !in id
    requires IsPlainValue(value) && Placed(data, v, value) && e == v + |value|
    requires e <= NulIndex(data) && !InUnquotedValue(At(data, e))
    requires Fails(alloc, allocs + 1)
    ensures Value(data, id, v, o, alloc, allocs + 1, rev) == Outcome(OutOfMemory, o)
  {
    UnquotedRun(data, v, value, e);
  }

  /** The value the code keeps of an unquoted value that ends at '#' or at
      the end of the input: the code as written loses its last character. */
  function KeptAtEnd(value: string, rev: Revision): string
    requires |value| > 0
  {
    if rev.AsWritten? then value[..|value| - 1] else value
  }

  /** An unquoted value ended at e by '#' or by the end of the input; the
      scan resumes at e. */
  lemma {:induction false} FinalValueAt(data: string, id: string, v: nat, value: string, e: nat,
                     o: Options, alloc: Allocator, allocs: nat, rev: Revision)
    requires '\0' !in id
    requires IsPlainValue(value) && Placed(data, v, value) && e == v + |value|
    requires e <= NulIndex(data) && (At(data, e) == '\0' || At(data, e) == '#')
    requires !Fails(alloc, allocs + 1)
    ensures '\0' !in KeptAtEnd(value, rev)
    ensures Value(data, id, v, o, alloc, allocs + 1, rev) == AfterPair(data, id, KeptAtEnd(value, rev), e, o, alloc, allocs, rev)
  {
    UnquotedRun(data, v, value, e);
    if rev.AsWritten? {
      assert value == value[..|value| - 1] + value[|value| - 1..];
      PlacedSplit(data, v, value[..|value| - 1], value[|value| - 1..], e - 1);
      assert Value(data, id, v, o, alloc, allocs + 1, rev) == Assign(data, id, v, e - v, e, o, alloc, allocs + 1, rev);
      AssignStores(data, id, v, value[..|value| - 1], e - 1, e, o, alloc, allocs, rev);
    } else {
      assert Value(data, id, v, o, alloc, allocs + 1, rev) == Assign(data, id, v, e - v + 1, e, o, alloc, allocs + 1, rev);
      AssignStores(data, id, v, value, e, e, o, alloc, allocs, rev);
    }
  }

  /** An empty unquoted value directly followed by '#': val_len is 0 and
      the code as written writes before the block it allocated; with the
      length computed as intended the value is the empty string. */
  lemma {:induction false} EmptyValueAt(data: string, id: string, v: nat,
                     o: Options, alloc: Allocator, allocs: nat, rev: Revision)
    requires '\0' !in id
    requires v < NulIndex(data) && At(data, v) == '#'
    requires !Fails(alloc, allocs + 1)
    ensures rev.AsWritten? ==> Value(data, id, v, o, alloc, allocs + 1, rev) == Outcome(Undefined, o)
    ensures rev.Corrected? ==> Value(data, id, v, o, alloc, allocs + 1, rev) == AfterPair(data, id, "", v, o, alloc, allocs, rev)
  {
    assert SkipWhile(data, v, InUnquotedValue) == v;
    if rev.Corrected? {
      AssignStores(data, id, v, "", v, v, o, alloc, allocs, rev);
    }
  }

  /** The first unescaped quote after the opening one, at j, closes the
      value. */
  lemma {:induction false} ClosingQuoteAt(data: string, v: nat, content: string, j: nat)
    requires Placed(data, v, Quoted(content)) && IsQuotedContent(content)
    requires j == v + 1 + |content| && j < NulIndex(data)
    ensures FindClosingQuote(data, v + 1) == Some(j)
  {
    var q := Quoted(content);
    PlacedAt(data, v, q);
    forall k | v + 1 <= k < j ensures !ClosesQuote(data, k) {
      assert At(data, k) == q[k - v] == content[k - v - 1];
      if content[k - v - 1] == '"' {
        assert Escaped(content, k - v - 1);
        assert At(data, k - 1) == q[k - 1 - v];
      }
    }
    assert At(data, j) == q[j - v] == '"';
    assert At(data, j - 1) == q[j - 1 - v];
    if |content| > 0 {
      assert q[j - 1 - v] == content[|content| - 1];
    } else {
      assert q[j - 1 - v] == '"';
    }
    assert ClosesQuote(data, j);
    FindClosingQuoteFirst(data, v + 1);
  }

  /** A quoted value, whose closing quote is at j, is stored without its
      quotes, and the scan resumes right after the closing quote. */
  lemma {:induction false} QuotedValueAt(data: string, id: string, v: nat, content: string, j: nat,
                      o: Options, alloc: Allocator, allocs: nat, rev: Revision)
    requires '\0' !in id
    requires Placed(data, v, Quoted(content)) && IsQuotedContent(content)
    requires j == v + 1 + |content| && j < NulIndex(data)
    requires !Fails(alloc, allocs + 1)
    ensures '\0' !in content
    ensures Value(data, id, v, o, alloc, allocs + 1, rev) == AfterPair(data, id, content, j + 1, o, alloc, allocs, rev)
  {
    ClosingQuoteAt(data, v, content, j);
    PlacedSplit(data, v, "\"" + content, "\"", j);
    PlacedSplit(data, v, "\"", content, v + 1);
    PlacedFirst(data, v, Quoted(content));
    assert Value(data, id, v, o, alloc, allocs + 1, rev) == Assign(data, id, v + 1, j - (v + 1) + 1, j + 1, o, alloc, allocs + 1, rev);
    AssignStores(data, id, v + 1, content, j, j + 1, o, alloc, allocs, rev);
  }

  /** A quote that nothing closes before the end of the input. */
  lemma {:induction false} UnterminatedAt(data: string, id: string, v: nat, content: string,
                       o: Options, alloc: Allocator, allocs: nat, rev: Revision)
    requires '\0' !in id
    requires Placed(data, v, "\"" + content) && NoClosingQuote(content)
    requires v + 1 + |content| == NulIndex(data)
    ensures Value(data, id, v, o, alloc, allocs + 1, rev) == Outcome(Malformed(UnterminatedQuote), o)
  {
    var q := "\"" + content;
    PlacedAt(data, v, q);
    assert At(data, v) == q[0];
    forall k | v + 1 <= k < NulIndex(data) ensures !ClosesQuote(data, k) {
      assert At(data, k) == q[k - v] == content[k - v - 1];
      if content[k - v - 1] == '"' {
        assert Escaped(content, k - v - 1);
        assert At(data, k - 1) == q[k - 1 - v];
      }
    }
    FindClosingQuoteFirst(data, v + 1);
  }
}
