/** The C-locale character classes and the cursor macros that
    parse_config_file is written with (daemon.c lines 86-96). A buffer is a
    `string`; reading at or past its end, or at an embedded NUL, yields the
    terminating '\0' of the C buffer. */
module CharClass {

  /** The character under a cursor: `*cur` in the source. */
  function At(data: string, i: nat): char
  {
    if i < |data| then data[i] else '\0'
  }

  /** The index of the first NUL at or after i. */
  function NulFrom(data: string, i: nat): (n: nat)
    requires i <= |data|
    ensures i <= n <= |data|
    ensures At(data, n) == '\0'
    ensures forall k :: i <= k < n ==> data[k] != '\0'
    decreases |data| - i
  {
    if i == |data| || data[i] == '\0' then i else NulFrom(data, i + 1)
  }

  /** The index of the first NUL, i.e. the length of the C string. */
  function NulIndex(data: string): (n: nat)
    ensures n <= |data|
    ensures At(data, n) == '\0'
    ensures forall k :: 0 <= k < n ==> data[k] != '\0'
    ensures n == |data| <==> '\0' !in data
  {
    NulFrom(data, 0)
  }

  /** The contents of a C string stored in `buf`: everything before its first NUL. */
  function CString(buf: string): string
  {
    buf[..NulIndex(buf)]
  }

  /** No NUL occurs below the first NUL. */
  lemma {:induction false} NoNulBelow(data: string, a: nat, b: nat)
    requires a <= b <= NulIndex(data)
    ensures '\0' !in data[a..b]
  {
    forall k | 0 <= k < b - a
      ensures data[a..b][k] != '\0'
    {
      assert data[a..b][k] == data[a + k];
    }
  }

  // isspace in the C locale: space, \t, \n, \v, \f and \r.
  predicate IsSpace(c: char)
  {
    c == ' ' || c == '\t' || c == '\n' || c == '\U{0B}' || c == '\U{0C}' || c == '\r'
  }

  predicate IsAlpha(c: char)
  {
    ('a' <= c <= 'z') || ('A' <= c <= 'Z')
  }

  predicate IsDigit(c: char)
  {
    '0' <= c <= '9'
  }

  predicate IsAlnum(c: char)
  {
    IsAlpha(c) || IsDigit(c)
  }

  /** `iseol` */
  predicate IsEol(c: char)
  {
    c == '\n'
  }

  /** `isvalididentifier`: the characters an identifier continues with. */
  predicate IsIdentChar(c: char)
  {
    IsAlnum(c) || c == '_' || c == '-'
  }

  /** `isvalididentifierstart` */
  predicate IsIdentStart(c: char)
  {
    IsAlpha(c) || c == '_'
  }

  /** The loop condition of `skip_whitespace_not_eol`. */
  predicate IsBlank(c: char)
  {
    IsSpace(c) && !IsEol(c)
  }

  /** The loop condition of `skip_until_eol`. */
  predicate InLine(c: char)
  {
    c != '\0' && !IsEol(c)
  }

  /** The loop condition of `skip_until_eol_or_comment`. */
  predicate InUnquotedValue(c: char)
  {
    c != '\0' && !IsEol(c) && c != '#'
  }

  /** `tolower` in the C locale. */
  function ToLower(c: char): char
  {
    if 'A' <= c <= 'Z' then (c as int - 'A' as int + 'a' as int) as char else c
  }

  function Lower(s: string): (r: string)
    ensures |r| == |s|
  {
    seq(|s|, i requires 0 <= i < |s| => ToLower(s[i]))
  }

  /** Lower-casing a string lower-cases each of its characters. */
  lemma {:induction false} LowerChars(s: string)
    ensures forall i :: 0 <= i < |s| ==> Lower(s)[i] == ToLower(s[i])
  {
  }

  /** Every skip macro: `while (p(c)) { c = *cur++; }`, started with the
      cursor at `i`. The result is the end of the maximal run of `p`
      characters starting at `i`; since no macro condition holds of '\0',
      the run never crosses the terminator. */
  function SkipWhile(data: string, i: nat, p: char -> bool): (r: nat)
    requires i <= NulIndex(data)
    requires !p('\0')
    ensures i <= r <= NulIndex(data)
    ensures !p(At(data, r))
    decreases |data| - i
  {
    if p(At(data, i)) then SkipWhile(data, i + 1, p) else i
  }

  /** Everything a skip macro passes over satisfies its condition. */
  lemma {:induction false} SkipWhileRun(data: string, i: nat, p: char -> bool)
    requires i <= NulIndex(data)
    requires !p('\0')
    ensures forall k :: i <= k < SkipWhile(data, i, p) ==> p(At(data, k))
    decreases |data| - i
  {
    if p(At(data, i)) {
      SkipWhileRun(data, i + 1, p);
    }
  }
}
