/** The dispatch of one identifier/value pair onto the options record:
    `identifier_matched`, `try_validate_boolean` (daemon.c lines 97-112) and
    the if-chain at lines 511-525. */
module Dispatch {
  import opened Common
  import opened CharClass
  import opened Booleans
  import opened Settings

  /** `strncmp(a, b, n) == 0`, comparing from position i on. */
  function StrNCmpZero(a: string, b: string, i: nat, n: nat): bool
    decreases n - i
  {
    if i >= n then true
    else if At(a, i) != At(b, i) then false
    else if At(a, i) == '\0' then true
    else StrNCmpZero(a, b, i + 1, n)
  }

  /** `identifier_matched(name)`: strncmp over sizeof the literal, which
      counts the terminator. */
  function IdentifierMatched(name: string, id: string): bool
  {
    StrNCmpZero(name, id, 0, |name| + 1)
  }

  lemma {:induction false} StrNCmpZeroFrom(a: string, b: string, i: nat)
    requires '\0' !in a && '\0' !in b
    requires i <= |a| && i <= |b| && a[..i] == b[..i]
    ensures StrNCmpZero(a, b, i, |a| + 1) <==> a == b
    decreases |a| - i
  {
    if i == |a| {
      if i == |b| {
        assert a == a[..i] && b == b[..i];
      } else {
        assert b[i] in b;
        assert |a| != |b|;
      }
    } else if i == |b| {
      assert a[i] in a;
      assert |a| != |b|;
    } else if a[i] != b[i] {
      assert a[i] in a;
    } else {
      assert a[..i + 1] == a[..i] + [a[i]];
      assert b[..i + 1] == b[..i] + [b[i]];
      StrNCmpZeroFrom(a, b, i + 1);
    }
  }

  /** Because the compared length includes the literal's terminator, a
      match is whole-string, case-sensitive equality: neither a prefix nor
      an extension of the name matches. */
  lemma {:induction false} IdentifierMatchedIsEquality(name: string, id: string)
    requires '\0' !in name && '\0' !in id
    ensures IdentifierMatched(name, id) <==> id == name
  {
    StrNCmpZeroFrom(name, id, 0);
  }

  /** The boolean classifier the given revision uses. */
  function ClassifyBoolean(value: string, rev: Revision): int
  {
    if rev.AsWritten? then ValidateBoolean(value) else CorrectedValidateBoolean(value)
  }

  /** `try_validate_boolean`: the flag a value sets, or None if it is not a
      boolean literal. */
  function BooleanValue(value: string, rev: Revision): (r: Option<bool>)
    ensures r == Some(true) <==> ClassifyBoolean(value, rev) == 1
    ensures r == Some(false) <==> ClassifyBoolean(value, rev) == 0
  {
    var b := ClassifyBoolean(value, rev);
    if b == 1 then Some(true) else if b == 0 then Some(false) else None
  }

  datatype ApplyResult = Applied(opts: Options) | Rejected(error: ErrorKind)

  const KnownIdentifiers: set<string> := {"daemonize", "verbose", "syslog_ident"}

  /** Applies one identifier/value pair to the record, in the source's
      order: daemonize, verbose, syslog_ident, anything else rejected. */
  function Apply(id: string, value: string, o: Options, rev: Revision): (r: ApplyResult)
    requires '\0' !in id && '\0' !in value
    ensures r.Applied? ==> r.opts.configFile == o.configFile
    ensures r.Rejected? <==>
              id !in KnownIdentifiers || (id != "syslog_ident" && BooleanValue(value, rev).None?)
    ensures id !in KnownIdentifiers ==> r == Rejected(UnknownIdentifier(id))
    ensures id == "daemonize" ==>
              r == (if BooleanValue(value, rev).Some?
                    then Applied(o.(background := BooleanValue(value, rev).value))
                    else Rejected(InvalidBoolean(value)))
    ensures id == "verbose" ==>
              r == (if BooleanValue(value, rev).Some?
                    then Applied(o.(verbose := BooleanValue(value, rev).value))
                    else Rejected(InvalidBoolean(value)))
    ensures id == "syslog_ident" ==> r == Applied(o.(syslogIdent := StrNCopy(value, IdentCapacity)))
  {
    IdentifierMatchedIsEquality("daemonize", id);
    IdentifierMatchedIsEquality("verbose", id);
    IdentifierMatchedIsEquality("syslog_ident", id);
    if IdentifierMatched("daemonize", id) then
      match BooleanValue(value, rev)
      case Some(b) => Applied(o.(background := b))
      case None => Rejected(InvalidBoolean(value))
    else if IdentifierMatched("verbose", id) then
      match BooleanValue(value, rev)
      case Some(b) => Applied(o.(verbose := b))
      case None => Rejected(InvalidBoolean(value))
    else if IdentifierMatched("syslog_ident", id) then
      Applied(o.(syslogIdent := StrNCopy(value, IdentCapacity)))
    else
      Rejected(UnknownIdentifier(id))
  }

  /** A later assignment to the same identifier overrides an earlier one
      completely: applying v1 and then v2 is applying v2 alone. */
  lemma {:induction false} LastAssignmentWins(id: string, v1: string, v2: string, o: Options, rev: Revision)
    requires '\0' !in id && '\0' !in v1 && '\0' !in v2
    requires Apply(id, v1, o, rev).Applied?
    ensures Apply(id, v2, Apply(id, v1, o, rev).opts, rev) == Apply(id, v2, o, rev)
  {
  }

  /** Assignments to different identifiers touch different fields, so
      their order does not matter. */
  lemma {:induction false} DistinctAssignmentsCommute(id1: string, v1: string, id2: string, v2: string, o: Options, rev: Revision)
    requires '\0' !in id1 && '\0' !in v1 && '\0' !in id2 && '\0' !in v2
    requires id1 != id2
    requires Apply(id1, v1, o, rev).Applied? && Apply(id2, v2, o, rev).Applied?
    ensures Apply(id2, v2, Apply(id1, v1, o, rev).opts, rev).Applied?
    ensures Apply(id1, v1, Apply(id2, v2, o, rev).opts, rev).Applied?
    ensures Apply(id2, v2, Apply(id1, v1, o, rev).opts, rev).opts
         == Apply(id1, v1, Apply(id2, v2, o, rev).opts, rev).opts
  {
  }

  /** A syslog_ident value reads back unchanged when it fits the 256-byte
      array with room for the terminator; a longer one is cut to 256 bytes
      and left unterminated. */
  lemma {:induction false} SyslogIdentReadBack(value: string, o: Options, rev: Revision)
    requires '\0' !in value
    ensures Apply("syslog_ident", value, o, rev).Applied?
    ensures |value| < IdentCapacity ==>
              CString(Apply("syslog_ident", value, o, rev).opts.syslogIdent) == value
    ensures |value| >= IdentCapacity ==>
              '\0' !in Apply("syslog_ident", value, o, rev).opts.syslogIdent
              && Apply("syslog_ident", value, o, rev).opts.syslogIdent == value[..IdentCapacity]
  {
    StrNCopyReadBack(value, IdentCapacity);
  }
}
