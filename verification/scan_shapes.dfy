/** Shapes of configuration text, and how the scanner walks over them.
    These lemmas relate the cursor-level scan of daemon.c lines 383-506 to
    the textual pieces of a line. */
module ScanShapes {
  import opened Common
  import opened CharClass
  import opened Settings
  import opened Dispatch
  import opened Parser

  /** Every character of s from index k on satisfies p. */
  predicate AllFrom(s: string, k: nat, p: char -> bool)
    decreases |s| - k
  {
    k >= |s| || (p(s[k]) && AllFrom(s, k + 1, p))
  }

  predicate All(s: string, p: char -> bool)
  {
    AllFrom(s, 0, p)
  }

  /** All, character by character. */
  lemma {:induction false} AllChars(s: string, p: char -> bool)
    requires All(s, p)
    ensures forall i :: 0 <= i < |s| ==> p(s[i])
  {
    AllFromChars(s, 0, p);
  }

  lemma {:induction false} AllFromChars(s: string, k: nat, p: char -> bool)
    requires AllFrom(s, k, p)
    ensures forall i :: k <= i < |s| ==> p(s[i])
    decreases |s| - k
  {
    if k < |s| {
      AllFromChars(s, k + 1, p);
    }
  }

  /** All, from its characters. */
  lemma {:induction false} AllIntro(s: string, p: char -> bool)
    requires forall i :: 0 <= i < |s| ==> p(s[i])
    ensures All(s, p)
  {
    AllFromIntro(s, 0, p);
  }

  lemma {:induction false} AllFromIntro(s: string, k: nat, p: char -> bool)
    requires forall i :: k <= i < |s| ==> p(s[i])
    ensures AllFrom(s, k, p)
    decreases |s| - k
  {
    if k < |s| {
      AllFromIntro(s, k + 1, p);
    }
  }

  predicate AllSpace(s: string)
  {
    All(s, IsSpace)
  }

  predicate AllBlank(s: string)
  {
    All(s, IsBlank)
  }

  /** [A-Za-z_][A-Za-z0-9_-]* */
  predicate IsIdentifier(s: string)
  {
    |s| > 0 && IsIdentStart(s[0]) && All(s, IsIdentChar)
  }

  /** A skip macro started at i stops exactly after n characters when they
      all satisfy its condition and the next does not. */
  lemma {:induction false} SkipExactly(data: string, i: nat, n: nat, p: char -> bool)
    requires i + n <= NulIndex(data)
    requires !p('\0')
    requires forall k :: i <= k < i + n ==> p(At(data, k))
    requires !p(At(data, i + n))
    ensures SkipWhile(data, i, p) == i + n
    decreases n
  {
    if n > 0 {
      SkipExactly(data, i + 1, n - 1, p);
    }
  }

  /** SkipExactly, with the stopping position named. */
  lemma {:induction false} SkipRun(data: string, i: nat, j: nat, p: char -> bool)
    requires i <= j <= NulIndex(data)
    requires !p('\0')
    requires forall k :: i <= k < j ==> p(At(data, k))
    requires !p(At(data, j))
    ensures SkipWhile(data, i, p) == j
  {
    SkipExactly(data, i, j - i, p);
  }

  /** A skip macro started inside a run of its own characters ends where
      it would have ended when started at the end of that run. */
  lemma {:induction false} SkipCompose(data: string, i: nat, j: nat, p: char -> bool)
    requires i <= j <= NulIndex(data)
    requires !p('\0')
    requires forall k :: i <= k < j ==> p(At(data, k))
    ensures SkipWhile(data, i, p) == SkipWhile(data, j, p)
  {
    var r := SkipWhile(data, j, p);
    SkipWhileRun(data, j, p);
    SkipExactly(data, i, r - i, p);
  }

  /** Leading whitespace in [a, b) and an identifier start at b: the
      iteration from a hands over to the statement at b. */
  lemma {:induction false} ParseReachesStatement(data: string, a: nat, b: nat,
                             o: Options, alloc: Allocator, allocs: nat, rev: Revision)
    requires a <= b < NulIndex(data)
    requires forall k :: a <= k < b ==> IsSpace(At(data, k))
    requires IsIdentStart(At(data, b))
    ensures ParseFrom(data, a, o, alloc, allocs, rev) == Statement(data, b, o, alloc, allocs, rev)
  {
    SkipExactly(data, a, b - a, IsSpace);
  }

  /** An identifier in [b, c) properly terminated at c: when its
      allocation fails the statement returns -1. */
  lemma {:induction false} StatementOutOfMemory(data: string, b: nat, c: nat,
                             o: Options, alloc: Allocator, allocs: nat, rev: Revision)
    requires b < c < NulIndex(data)
    requires forall k :: b <= k < c ==> IsIdentChar(At(data, k))
    requires IsSpace(At(data, c)) || At(data, c) == '='
    requires Fails(alloc, allocs)
    ensures Statement(data, b, o, alloc, allocs, rev) == Outcome(OutOfMemory, o)
  {
    SkipExactly(data, b + 1, c - b - 1, IsIdentChar);
  }

  /** Blanks in [c, d), '=' at d, blanks in (d, v): the value starts at v. */
  lemma {:induction false} SkipToValueAt(data: string, c: nat, d: nat, v: nat)
    requires c <= d < v <= NulIndex(data)
    requires forall k :: c <= k < d ==> IsBlank(At(data, k))
    requires At(data, d) == '='
    requires forall k :: d < k < v ==> IsBlank(At(data, k))
    requires !IsBlank(At(data, v))
    ensures SkipToValue(data, c) == Some(v)
  {
    if c < d {
      SkipExactly(data, c, d - c, IsBlank);
    }
    SkipExactly(data, d + 1, v - d - 1, IsBlank);
  }

  /** An identifier in [b, c) followed by the '=' part that puts the value
      at v: with the identifier's allocation available, the statement
      reaches the value phase with the identifier stored exactly. */
  lemma {:induction false} StatementReachesValue(data: string, b: nat, c: nat, v: nat, id: string,
                              o: Options, alloc: Allocator, allocs: nat, rev: Revision)
    requires b < c < v < NulIndex(data)
    requires forall k :: b <= k < c ==> IsIdentChar(At(data, k))
    requires data[b..c] == id
    requires IsBlank(At(data, c)) || At(data, c) == '='
    requires SkipToValue(data, c) == Some(v)
    requires !IsEol(At(data, v))
    requires !Fails(alloc, allocs)
    ensures '\0' !in id
    ensures Statement(data, b, o, alloc, allocs, rev) == Value(data, id, v, o, alloc, allocs + 1, rev)
  {
    NoNulBelow(data, b, c);
    IdentifierStored(data, b, c, o, alloc, allocs, rev);
  }

  /** The identifier scan of Statement stops at c and stores data[b..c]. */
  lemma {:induction false} IdentifierStored(data: string, b: nat, c: nat, o: Options, alloc: Allocator, allocs: nat, rev: Revision)
    requires b < c <= NulIndex(data)
    requires forall k :: b <= k < c ==> IsIdentChar(At(data, k))
    requires IsSpace(At(data, c)) || At(data, c) == '='
    requires !Fails(alloc, allocs)
    ensures '\0' !in data[b..c]
    ensures Statement(data, b, o, alloc, allocs, rev) ==
      (match SkipToValue(data, c)
       case None => Outcome(Malformed(ExpectedEquals(data[b..c])), o)
       case Some(v) =>
         if At(data, v) == '\0' || IsEol(At(data, v)) then Outcome(Malformed(MissingValue(data[b..c])), o)
         else Value(data, data[b..c], v, o, alloc, allocs + 1, rev))
  {
    SkipExactly(data, b + 1, c - b - 1, IsIdentChar);
    NoNulBelow(data, b, c);
  }
}
