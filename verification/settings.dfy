/** The `options_t` record (daemon.c lines 122-131) and `init_options`
    (lines 335-338). */
module Settings {
  import opened Common
  import opened CharClass

  /** sizeof(options_t.syslog_ident) */
  const IdentCapacity: nat := 256

  /** DAEMON_NAME, the default syslog ident. */
  const DaemonName: string := "mydaemon"

  /** The fixed 256-byte syslog_ident array. */
  type IdentBuffer = s: string | |s| == 256 witness seq(256, i => '\0')

  /** options_t. The two `char` flags are only ever set to 0 or 1, so they
      are booleans here; `configFile` is the path pointer, `None` for NULL. */
  datatype Options = Options(
    configFile: Option<string>,
    background: bool,
    verbose: bool,
    syslogIdent: IdentBuffer)

  /** strncpy(dest, src, n) for a source without embedded NUL: the first n
      characters of src, padded with NULs up to n. */
  function StrNCopy(src: string, n: nat): (r: string)
    requires '\0' !in src
    ensures |r| == n
  {
    if |src| >= n then src[..n] else src + seq(n - |src|, i => '\0')
  }

  /** What strncpy stores, position by position. */
  lemma {:induction false} StrNCopyChars(src: string, n: nat)
    requires '\0' !in src
    ensures forall i :: 0 <= i < n ==> StrNCopy(src, n)[i] == (if i < |src| then src[i] else '\0')
  {
  }

  /** Reading back what strncpy stored: a source shorter than the buffer
      comes back unchanged, and a longer one is cut to the buffer's size and
      left without a terminator. */
  lemma {:induction false} StrNCopyReadBack(src: string, n: nat)
    requires '\0' !in src
    ensures |src| < n ==> CString(StrNCopy(src, n)) == src
    ensures |src| >= n ==> '\0' !in StrNCopy(src, n) && CString(StrNCopy(src, n)) == src[..n]
  {
    var r := StrNCopy(src, n);
    StrNCopyChars(src, n);
    if |src| < n {
      assert r[|src|] == '\0';
      assert forall k :: 0 <= k < |src| ==> r[k] == src[k];
      assert At(r, |src|) == '\0';
      assert NulIndex(r) == |src|;
    } else {
      assert forall k :: 0 <= k < n ==> r[k] == src[k];
      assert r == src[..n];
    }
  }

  /** init_options: everything zero, then DAEMON_NAME copied into the ident. */
  function InitOptions(): (o: Options)
    ensures o.configFile == None && !o.background && !o.verbose
    ensures CString(o.syslogIdent) == DaemonName
    ensures forall i :: |DaemonName| <= i < IdentCapacity ==> o.syslogIdent[i] == '\0'
  {
    StrNCopyReadBack(DaemonName, IdentCapacity);
    StrNCopyChars(DaemonName, IdentCapacity);
    Options(None, false, false, StrNCopy(DaemonName, IdentCapacity))
  }
}
