/** `parse_config_file` (daemon.c lines 365-537): a single forward pass of
    a cursor over a NUL-terminated buffer. The phases of one iteration of
    the source's outer `for (;;)` are functions of their own; each either
    returns the parse's outcome or goes on with the next iteration. */
module Parser {
  import opened Common
  import opened CharClass
  import opened Settings
  import opened Dispatch

  /** The outcome of each malloc. Only the first failing allocation matters
      (it ends the parse), so an allocator is either reliable or fails on
      its n-th call, counting from 0 within one parse. */
  datatype Allocator = Reliable | FailsOnCall(n: nat)

  predicate Fails(alloc: Allocator, k: nat)
  {
    alloc.FailsOnCall? && alloc.n == k
  }

  /** What parse_config_file returns. `Undefined` stands for the
      out-of-bounds write the source performs on an empty unquoted value
      that ends at '#'; the C program has no defined result then. */
  datatype Status = Success | Malformed(error: ErrorKind) | OutOfMemory | Undefined

  /** The C return value: 0 on success, > 0 on invalid format, < 0 on a
      system error. */
  function ReturnCode(s: Status): (r: int)
    requires !s.Undefined?
    ensures r == 0 <==> s.Success?
    ensures r > 0 <==> s.Malformed?
    ensures r < 0 <==> s.OutOfMemory?
  {
    match s
    case Success => 0
    case Malformed(_) => 1
    case OutOfMemory => -1
  }

  /** The status together with the record as the caller finds it. */
  datatype Outcome = Outcome(status: Status, opts: Options)

  /** Scans a quoted value whose first character is at i (just after the
      opening quote). A '"' closes the value unless the character before it
      is a backslash; that character is the opening quote for the first
      position, so i must be positive. */
  predicate ClosesQuote(data: string, j: nat)
  {
    j > 0 && At(data, j) == '"' && At(data, j - 1) != '\\'
  }

  /** The position of the closing quote, or None when the terminator comes
      first (lines 462-478). */
  function FindClosingQuote(data: string, i: nat): (r: Option<nat>)
    requires 0 < i <= NulIndex(data)
    ensures r.Some? ==> i <= r.value < NulIndex(data) && ClosesQuote(data, r.value)
    decreases |data| - i
  {
    if At(data, i) == '\0' then None
    else if ClosesQuote(data, i) then Some(i)
    else FindClosingQuote(data, i + 1)
  }

  /** The scan finds the first closing quote: none comes before the one it
      reports, and none at all when it reports None. */
  lemma {:induction false} FindClosingQuoteFirst(data: string, i: nat)
    requires 0 < i <= NulIndex(data)
    ensures FindClosingQuote(data, i).Some? ==>
              forall k :: i <= k < FindClosingQuote(data, i).value ==> !ClosesQuote(data, k)
    ensures FindClosingQuote(data, i).None? ==> forall k :: i <= k < NulIndex(data) ==> !ClosesQuote(data, k)
    decreases |data| - i
  {
    if At(data, i) != '\0' && !ClosesQuote(data, i) {
      FindClosingQuoteFirst(data, i + 1);
    }
  }

  /** Lines 499-525: allocate the value (val_len bytes), copy val_len - 1
      characters from `start`, terminate, and dispatch the pair; an
      accepted pair ends the iteration and the loop goes on at `next`. A
      val_len of 0 makes the terminating write land before the allocated
      block. `allocs` is the index of the value's allocation. */
  function Assign(data: string, id: string, start: nat, valLen: nat, next: nat,
                  o: Options, alloc: Allocator, allocs: nat, rev: Revision): (r: Outcome)
    requires '\0' !in id
    requires start + valLen <= NulIndex(data) + 1
    requires next <= NulIndex(data)
    ensures r.opts.configFile == o.configFile
    ensures r.status.OutOfMemory? ==> alloc.FailsOnCall? && allocs <= alloc.n
    ensures r.status.Undefined? ==>
              valLen == 0 || (rev.AsWritten? && exists k :: next <= k < NulIndex(data) && data[k] == '#')
    decreases NulIndex(data) - next, 2
  {
    if Fails(alloc, allocs) then Outcome(OutOfMemory, o)
    else if valLen == 0 then Outcome(Undefined, o)
    else
      var value := data[start..start + valLen - 1];
      NoNulBelow(data, start, start + valLen - 1);
      match Apply(id, value, o, rev)
      case Rejected(e) => Outcome(Malformed(e), o)
      case Applied(o') => ParseFrom(data, next, o', alloc, allocs + 1, rev)
  }

  /** Lines 456-506: the value starts at v, a character that is neither
      the terminator nor an end of line. `allocs` is the index of the
      value's allocation. */
  function Value(data: string, id: string, v: nat, o: Options, alloc: Allocator, allocs: nat,
                 rev: Revision): (r: Outcome)
    requires '\0' !in id
    requires v < NulIndex(data)
    ensures r.opts.configFile == o.configFile
    ensures r.status.OutOfMemory? ==> alloc.FailsOnCall? && allocs <= alloc.n
    ensures r.status.Undefined? ==>
              rev.AsWritten? && exists k :: v <= k < NulIndex(data) && data[k] == '#'
    decreases NulIndex(data) - v, 3
  {
    if At(data, v) == '"' then
      match FindClosingQuote(data, v + 1)
      case None => Outcome(Malformed(UnterminatedQuote), o)
      case Some(j) =>
        // val_start = v + 1, val_end = j
        Assign(data, id, v + 1, j - v, j + 1, o, alloc, allocs, rev)
    else
      var e := SkipWhile(data, v, InUnquotedValue);
      if IsEol(At(data, e)) then
        // val_end is the newline itself, so exactly data[v..e] is kept
        Assign(data, id, v, e - v + 1, e + 1, o, alloc, allocs, rev)
      else if rev.AsWritten? then
        // cur-- and then val_end = cur - 1: the last character is dropped
        Assign(data, id, v, e - v, e, o, alloc, allocs, rev)
      else
        Assign(data, id, v, e - v + 1, e, o, alloc, allocs, rev)
  }

  /** Lines 430-447: from the character t that ended the identifier,
      skip blanks to the '=' and then the blanks after it. The result is the
      position of the value's first character, or None when something other
      than '=' follows the blanks. */
  function SkipToValue(data: string, t: nat): (r: Option<nat>)
    requires t <= NulIndex(data)
    ensures r.Some? <==> At(data, SkipWhile(data, t, IsBlank)) == '='
    ensures r.Some? ==> t < r.value <= NulIndex(data)
    ensures r.Some? ==> !IsBlank(At(data, r.value))
    ensures r.Some? ==> forall k :: SkipWhile(data, t, IsBlank) < k < r.value ==> IsBlank(At(data, k))
  {
    var e := if At(data, t) != '=' then SkipWhile(data, t, IsBlank) else t;
    if At(data, e) != '=' then None
    else
      SkipWhileRun(data, e + 1, IsBlank);
      Some(SkipWhile(data, e + 1, IsBlank))
  }

  /** Lines 406-455: an identifier starts at p. `allocs` is the index of
      the identifier's allocation. */
  function Statement(data: string, p: nat, o: Options, alloc: Allocator, allocs: nat,
                     rev: Revision): (r: Outcome)
    requires p < NulIndex(data)
    ensures r.opts.configFile == o.configFile
    ensures r.status.OutOfMemory? ==> alloc.FailsOnCall? && allocs <= alloc.n
    ensures r.status.Undefined? ==>
              rev.AsWritten? && exists k :: p < k < NulIndex(data) && data[k] == '#'
    decreases NulIndex(data) - p, 0
  {
    var t := SkipWhile(data, p + 1, IsIdentChar);
    var term := At(data, t);
    if term == '\0' || (!IsSpace(term) && term != '=') then
      Outcome(Malformed(BadIdentifierEnd(term)), o)
    else if Fails(alloc, allocs) then
      Outcome(OutOfMemory, o)
    else
      var id := data[p..t];
      NoNulBelow(data, p, t);
      match SkipToValue(data, t)
      case None => Outcome(Malformed(ExpectedEquals(id)), o)
      case Some(v) =>
        if At(data, v) == '\0' || IsEol(At(data, v)) then
          Outcome(Malformed(MissingValue(id)), o)
        else
          Value(data, id, v, o, alloc, allocs + 1, rev)
  }

  /** The outer `for (;;)` of lines 383-404 from cursor `cur`, with
      `allocs` allocations made: `c = *cur++`, the whitespace skip, and the
      choice between the end, a comment, an invalid character and a
      statement. Each place where the source starts its next iteration
      calls ParseFrom again. */
  function ParseFrom(data: string, cur: nat, o: Options, alloc: Allocator, allocs: nat,
                     rev: Revision): (r: Outcome)
    requires cur <= NulIndex(data)
    ensures r.opts.configFile == o.configFile
    ensures r.status.OutOfMemory? ==> alloc.FailsOnCall? && allocs <= alloc.n
    ensures r.status.Undefined? ==>
              rev.AsWritten? && exists k :: cur <= k < NulIndex(data) && data[k] == '#'
    decreases NulIndex(data) - cur, 1
  {
    if At(data, cur) == '\0' then Outcome(Success, o)
    else
      var p := SkipWhile(data, cur, IsSpace);
      var c := At(data, p);
      if c == '\0' then Outcome(Success, o)
      else if c == '#' then
        var q := SkipWhile(data, p + 1, InLine);
        if At(data, q) == '\0' then Outcome(Success, o) else ParseFrom(data, q + 1, o, alloc, allocs, rev)
      else if !IsIdentStart(c) then
        Outcome(Malformed(InvalidIdentifierStart(c)), o)
      else
        Statement(data, p, o, alloc, allocs, rev)
  }

  /** parse_config_file(data, opts). */
  function ParseConfig(data: string, o: Options, alloc: Allocator, rev: Revision): (r: Outcome)
    ensures r.opts.configFile == o.configFile
    ensures alloc.Reliable? ==> !r.status.OutOfMemory?
    ensures rev.Corrected? ==> !r.status.Undefined?
    ensures r.status.Undefined? ==> '#' in data
  {
    ParseFrom(data, 0, o, alloc, 0, rev)
  }
}
