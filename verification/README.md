# daemon.c configuration-file parser, modelled in Dafny

`daemon.c` is a small process-lifecycle template. Its one piece of real logic
is `parse_config_file`, a single-pass scanner over a NUL-terminated buffer.
It reads `IDENT = VALUE` lines, blank lines, `#` comments, and quoted values
that may contain `\"`. Each pair it reads is applied to the `options_t` record:
`daemonize` and `verbose` take boolean literals, checked by `validate_boolean`,
and `syslog_ident` takes any text. It returns 0 on success, 1 on a format error
and -1 when an allocation fails.

This project models that parser together with `validate_boolean`,
`init_options`, the `options_t` record and the helper macros. It then proves
what the parser does with each shape of input.

Modules, in dependency order:

- `Common`: `Option`, the `Revision` switch and the error kinds.
- `CharClass`: the C-locale character classes and the skip macros. The buffer
  is a `string`; reading at or past its end, or at an embedded NUL, gives the
  terminating `'\0'`.
- `Settings`: `options_t`, `strncpy` into the 256-byte ident, and
  `init_options`.
- `Booleans`: `validate_boolean` as written, the classification its doc
  comment promises, and the repaired classifier.
- `Dispatch`: `identifier_matched`, `try_validate_boolean`, and the dispatch
  of one pair onto the record.
- `Parser`: the scanner itself. Each phase of one loop iteration is a function
  of its own:
  - `ParseFrom`: the loop head, whitespace and comments;
  - `Statement`: the identifier and `=`;
  - `Value`: the quoted or unquoted value;
  - `Assign`: the two allocations, the copy and the dispatch.

  Each phase returns the outcome or goes on with the next iteration. The
  measure is the distance from the cursor to the first NUL, so every
  iteration strictly advances the cursor and never reads past the
  terminator.
- `ScanShapes`, `Placement`, `ConfigLines`: what each phase does with
  concrete text placed in the buffer: a header `lead id ws = ws`, a plain
  value, a quoted value, a comment, whitespace.
- `ConfigText`: whole files built from well-formed lines: unquoted pairs,
  with or without a comment after the value; quoted pairs, with or without
  blanks and a comment after the closing quote; comment lines; and blank
  lines. Its `Interpret` is an independent reference meaning: apply the lines
  one at a time and stop at the first error. `ParseConfigMeaning` proves the
  scanner computes it.
- `Findings`: concrete files on which the code as written and the evidently
  intended code disagree.

Three things the C code does are made explicit:

- **Allocation failure.** `malloc` is an `Allocator` parameter: `Reliable`,
  or `FailsOnCall(n)`, where the n-th allocation of the parse fails. A pair
  makes two allocations, the identifier's and then the value's.
- **Undefined behaviour.** The parse can end in a fourth status,
  `Undefined`, besides success, format error and out of memory. This is the
  case where the C code writes before its allocated block.
- **Two revisions.** Every scanner function takes a `Revision`. `AsWritten`
  follows the source exactly. `Corrected` repairs the defects listed under
  "Findings", and the proofs cover both.

Facts about the code that the model follows:

- `isspace` accepts space, `\t`, `\n`, `\v`, `\f` and `\r`. So blank lines
  vanish at the start of an iteration, and `\r` counts as whitespace before
  and after `=`.
- An unquoted value cut off by `#` or by the end of the input loses its last
  character: `k=v # c` stores `v`, and `k=ab` at the end of the input stores
  `a`.
- `syslog_ident` receives a plain `strncpy` of 256 bytes. A value of 256
  characters or more fills the array and is left without a terminator.
- The doc comment of `parse_config_file` says at line 355 that whitespace
  not inside two `"` characters is ignored. The code keeps the blanks inside
  an unquoted value, and before a newline its trailing blanks too
  (ConfigLines.AssignmentLine).
- `"yes"`, `"true"` and `"false"` do not classify as the doc comment of
  `validate_boolean` says.

## Model

| member | source | states |
|---|---|---|
| Settings.InitOptions | daemon.c:335-338 | The default record has no config-file path and background and verbose off. Its ident reads back as "mydaemon" and is NUL from there to the end of its 256 bytes. |
| Settings.StrNCopyReadBack | daemon.c:337 | A strncpy into an n-byte array reads back as the source when the source is shorter than n. A longer source is cut to n characters and left with no terminator. |
| Dispatch.SyslogIdentReadBack | daemon.c:516-518 | A `syslog_ident` pair is always accepted. The stored ident reads back as the value when it is under 256 characters; otherwise it is the value's first 256 characters, with no terminator. |
| Booleans.ValidateBoolean | daemon.c:269-304 | The answer is always -1, 0 or 1. It is 1 exactly for "y", "Y" and "1". It is 0 exactly for "n", "N" and "0", and for "no" or "yes" in any case. It is -1 for the empty string and for every string of 4 or more characters. |
| Booleans.ValidateBooleanDeviations | daemon.c:260-304 | The code and its doc comment disagree on exactly three words, in any case. On "yes" the code gives 0 where the comment promises 1. On "true" and "false" it gives -1 where the comment promises 1 and 0. |
| Booleans.CorrectedValidateBooleanIsDocumented | daemon.c:260-268 | The repaired classifier gives the doc comment's answer on every input. |
| Dispatch.IdentifierMatchedIsEquality | daemon.c:97-98 | The compared length counts the literal's terminator. So an identifier matches a name exactly when the two are equal, case included, with no prefix match. |
| Dispatch.BooleanValue | daemon.c:99-112 | A flag is set to true exactly when the classifier answers 1, and to false exactly when it answers 0. Any other answer is an invalid value. |
| Dispatch.Apply | daemon.c:511-525 | A pair is rejected exactly when its identifier is unknown, or when a flag's value is not a boolean literal. `daemonize` sets background, `verbose` sets verbose, and `syslog_ident` stores the strncpy of the value. The config-file path is never touched. |
| Dispatch.LastAssignmentWins | daemon.c:511-518 | Assigning an identifier twice leaves the same record as assigning only the later value. |
| Dispatch.DistinctAssignmentsCommute | daemon.c:511-518 | Two accepted pairs with different identifiers give the same record in either order. |
| CharClass.SkipWhile | daemon.c:89-96 | A skip macro stops at a character that fails its condition, and never passes the terminator. |
| CharClass.SkipWhileRun | daemon.c:89-96 | Every character a skip macro passes over meets its condition. |
| Parser.ReturnCode | daemon.c:362-363 | The return is 0 exactly on success, positive exactly on a format error, and negative exactly when an allocation fails. |
| Parser.FindClosingQuote | daemon.c:462-478 | A closing quote, when one is found, lies before the terminator and is a `"` not preceded by a backslash. |
| Parser.FindClosingQuoteFirst | daemon.c:462-478 | The quote found is the first such quote. When none is found, no quote before the terminator closes the value. |
| Parser.SkipToValue | daemon.c:430-447 | The value phase is reached only past an `=` and the blanks around it. Otherwise the character after the blanks that follow the identifier is not `=`. |
| Parser.Assign | daemon.c:499-525 | The copy and the dispatch never touch the config-file path. They report out-of-memory only under an allocator that fails by then. They are undefined only for a zero-length value, or, as written, with a `#` still ahead. |
| Parser.Value | daemon.c:449-497 | From the value onwards, out-of-memory is reported only under an allocator that fails by then. Undefined behaviour arises only in the as-written code, with a `#` at or after the value's start. |
| Parser.Statement | daemon.c:405-447 | From an identifier start onwards: the same three guarantees, with the `#` after the identifier's start. |
| Parser.ParseFrom | daemon.c:370-404 | From any cursor, the parse leaves the config-file path alone. It reports out-of-memory only under a failing allocator, and reaches undefined behaviour only as written with a `#` ahead. |
| Parser.ParseConfig | daemon.c:365-537 | The config-file path is never changed. A reliable allocator never yields -1. The repaired code is never undefined. Undefined behaviour needs a `#` in the input. |
| ScanShapes.IdentifierStored | daemon.c:405-455 | After an identifier run ended by whitespace or `=`, the identifier is stored exactly. If no `=` follows the blanks, the result is the expected-`=` error. If the value position holds the end of the line or of the input, the result is the missing-value error. Otherwise the value phase starts. |
| ConfigLines.HeaderOutOfMemory | daemon.c:417-424 | When the identifier's allocation fails, the result is -1 whatever follows on the line. |
| ConfigLines.AssignmentLine | daemon.c:485-506 | In an unquoted pair ended by a newline, the value is stored exactly, trailing blanks included, and the scan resumes after the newline. If either allocation fails the result is -1. |
| ConfigLines.QuotedAssignmentLine | daemon.c:456-484 | A quoted value is stored without its quotes, with `\"` and `#` kept literally. The scan resumes right after the closing quote. |
| ConfigLines.FinalAssignmentLine | daemon.c:489-492 | For an unquoted value ended by `#` or by the end of the input, the code as written stores all but its last character, and the repaired code stores it whole. In both, the scan resumes at the `#`. |
| ConfigLines.EmptyValueBeforeComment | daemon.c:499-506 | For `id = #`, the code as written reaches undefined behaviour. The repaired code stores the empty value and resumes at the `#`. |
| ConfigLines.UnterminatedQuoteLine | daemon.c:462-484 | An opening quote that nothing closes before the end of the input gives the unterminated-quote error. |
| ConfigLines.MissingValueLine | daemon.c:443-455 | When only blanks follow `=` before the end of the line or of the input, the result is the missing-value error for that identifier. |
| ConfigLines.ExpectedEqualsLine | daemon.c:430-439 | When an identifier is followed by blanks and then by something other than `=`, a newline included, the result is the expected-`=` error. |
| ConfigLines.BadIdentifierEndLine | daemon.c:409-416 | An identifier ended by a character that is neither whitespace nor `=`, the terminator included, gives the bad-identifier-end error. |
| ConfigLines.InvalidIdentifierStartLine | daemon.c:386-404 | When the first character after whitespace starts neither a comment nor an identifier, the result is the invalid-start error. |
| ConfigLines.CommentLine | daemon.c:392-397 | A comment line is skipped whole. The parse goes on after its newline with nothing changed. |
| ConfigLines.FinalComment | daemon.c:392-396 | A comment running to the end of the input ends the parse with success. |
| ConfigLines.TrailingSpace | daemon.c:383-391 | Whitespace running to the end of the input, newlines included, ends the parse with success. |
| ConfigLines.SpaceSkipped | daemon.c:386-387 | Whitespace between statements, newlines included, changes nothing of how the parse goes on. |
| ConfigText.LineParsed | daemon.c:383-527 | Parsing from the start of one well-formed line in the buffer, wherever it sits, with the line's allocations granted, either fails with that line's pair error or goes on from the start of the next line with the line's effect applied and its allocations counted. A comment after a pair's value is skipped, and a comment or blank line has no effect. |
| ConfigText.RemarkedLineParsed | daemon.c:487-506 | In `id = value#text` ended by a newline, the pair gets the value as the revision keeps it at a `#`, and the parse goes on after the newline. |
| ConfigText.QuotedLineParsed | daemon.c:456-484 | In a quoted pair followed by blanks, and possibly a comment, before the newline, the pair gets the quoted text and the parse goes on after the newline. |
| ConfigText.ParsePrefix | daemon.c:370-527 | Parsing from the start of well-formed lines, with the lines' allocations granted, depends only on what follows them once every pair is accepted: the parse goes on right after the last line with the record the lines leave. Otherwise it ends with the first rejected pair's error and the record the pairs before it left. |
| ConfigText.EndingParsed | daemon.c:383-397 | Whitespace running to the end of the input, or a comment with no final newline, ends the parse with success and the record as it is, whatever the allocator does. |
| ConfigText.ParseLines | daemon.c:370-527 | Parsing from the start of well-formed lines followed by such an ending, with the lines' allocations granted, gives what reading the lines one at a time gives. |
| ConfigText.ParseConfigMeaning | daemon.c:365-537 | On a file of well-formed lines and such an ending, with every allocation the lines need granted, parse_config_file returns the reference meaning. That is success with every pair applied in order, or else the first rejected pair's error. |
| ConfigText.PrefixThenStops | daemon.c:370-529 | When the text after accepted lines ends the parse with some status whatever the record is by then, the whole parse ends with that status and the record the lines leave. A rejected pair among the lines ends it first, with its own error. |
| ConfigText.UnterminatedAfterLines | daemon.c:462-484 | Well-formed lines, then a quote nothing closes: the unterminated-quote error with every earlier pair applied, unless an earlier pair is rejected first. |
| ConfigText.ExpectedEqualsAfterLines | daemon.c:430-439 | Well-formed lines, then an identifier followed by blanks and something other than `=`, whatever comes after: the expected-`=` error with every earlier pair applied, unless an earlier pair is rejected first. |
| ConfigText.MissingValueAfterLines | daemon.c:443-455 | Well-formed lines, then `id =` with only blanks before the end of the line or of the input: the missing-value error with every earlier pair applied, unless an earlier pair is rejected first. |
| ConfigText.BadIdentifierEndAfterLines | daemon.c:409-416 | Well-formed lines, then an identifier ended by neither whitespace nor `=`: the bad-identifier-end error naming that character, with every earlier pair applied, unless an earlier pair is rejected first. |
| ConfigText.InvalidStartAfterLines | daemon.c:389-404 | Well-formed lines, then a character that starts neither a comment nor an identifier: the invalid-start error naming that character, with every earlier pair applied, unless an earlier pair is rejected first. |
| ConfigText.OutOfMemoryAfterLines | daemon.c:417-424 | Well-formed lines, then an identifier whose allocation is the first to fail: -1 with every earlier pair applied, unless an earlier pair is rejected first. |
| ConfigText.UndefinedAfterLines | daemon.c:499-506 | In the code as written, well-formed lines, then `id = #`: undefined behaviour with every earlier pair applied, unless an earlier pair is rejected first. |
| ConfigText.InterpretAppend | daemon.c:519-536 | Lines after the first error are never looked at. That error keeps the record as the lines before it left it. |
| ConfigText.FirstErrorStops | daemon.c:519-536 | When a rejected pair follows accepted lines, the result is its error. Every earlier pair stays applied, with no rollback, and nothing after it has any effect. |
| ConfigText.NoPairsLeaveRecord | daemon.c:383-397 | An empty file, or one of only whitespace and comment lines, the last comment possibly without a final newline, returns 0 and leaves the record unchanged, whatever the allocator does. |
| ConfigText.CommentsIgnored | daemon.c:352-354 | In the repaired code, a file of well-formed lines parses exactly as the same file with every comment removed, whatever the allocator does within the lines' allocations. |
| ConfigText.QuotedPairThenLines | daemon.c:470-484 | The scan resumes right after a closing quote. So text after a quoted pair on the same line is read as if a new line began there. |
| Findings.SinglePairFile | daemon.c:365-537 | A one-line file `id=value` either succeeds with that single pair applied or fails with the dispatch's error. |
| Findings.YesReadsAsNo | daemon.c:286-290 | `daemonize=yes` turns backgrounding off as written, and on in the repaired code. |
| Findings.TrueRejected | daemon.c:291-295 | `verbose=true` is rejected as an invalid boolean as written, and turns verbose on in the repaired code. |
| Findings.FalseRejected | daemon.c:296-300 | `verbose=false` is rejected as written, and turns verbose off in the repaired code. |
| Findings.LastCharacterDropped | daemon.c:489-492 | `daemonize=1` with no final newline keeps only "" as written, which is rejected. The repaired code keeps "1" and turns backgrounding on. |
| Findings.CommentChangesMeaning | daemon.c:489-492 | As written, `daemonize=1# on` is rejected as an invalid boolean, while the same file without its comment turns backgrounding on. |
| Findings.EmptyValueUndefined | daemon.c:499-506 | `syslog_ident=#` reaches undefined behaviour as written. The repaired code stores the empty ident and succeeds. |
| Findings.TwoPairsOnOneLine | daemon.c:470-484 | `syslog_ident="a" verbose=1` applies both pairs from a single line. |

## Left out

- `main`, `read_entire_file`, `file_exists`, `parse_cmdline_opts`, `usage`, `version` and `vperror`: process setup, file and terminal I/O, and `getopt_long`, none of which is part of the parser. The model takes the loaded buffer as given. `read_entire_file` does not NUL-terminate its buffer; that is not part of this model.
- `fprintf` diagnostics and the `errno` values EINVAL, ENODATA and ENOTSUP: output and global state. Each format error carries an `ErrorKind` tag with what the diagnostic names.
- `free` of the identifier and value buffers: it has no effect the parser's caller can observe.
- `malloc` is modelled only as succeeding or failing, through the `Allocator` parameter. `malloc(0)` before the undefined write is treated like any other allocation.
- What happens after undefined behaviour: the parse stops with `Undefined` and the record it had.
- Locale-dependent `ctype` behaviour and negative `char` values: the C locale on ASCII is assumed.
- ConfigText.ParseConfigMeaning: states the whole result only for files of newline-terminated well-formed lines followed by whitespace or by a comment with no final newline, with every allocation the lines need granted. The `AfterLines` lemmas add well-formed lines followed by the start of a malformed or failing pair. These inputs are stated only one line at a time, by the ConfigLines lemmas, because the line shapes leave them out: a final unquoted pair with no newline, with or without a comment; an empty unquoted value before a comment in the repaired code; a value allocation that fails after earlier lines. A quoted pair followed on its line by another pair is stated for the whole file only at the file's start, with a reliable allocator (ConfigText.QuotedPairThenLines).
- Parser.ParseConfig: states what holds of every input, not the full result. The full result is stated only for the input shapes the ConfigLines and ConfigText lemmas describe.

## Findings

| source | as written | input that shows it | evidently intended | confidence | as-written member | corrected member |
|---|---|---|---|---|---|---|
| daemon.c:286-290 | `"yes"` in any case returns 0 | `daemonize=yes` | return 1, as the doc comment at lines 260-264 lists "yes" as true | not executed | Booleans.ValidateBoolean, shown by Findings.YesReadsAsNo | Booleans.CorrectedValidateBoolean, proved by Booleans.CorrectedValidateBooleanIsDocumented |
| daemon.c:291-295 | the length-4 branch compares `str[2]` with both 'u' and 'e', so "true" never matches | `verbose=true` | compare `str[3]` with 'e' and return 1 | not executed | Booleans.ValidateBoolean, shown by Findings.TrueRejected | Booleans.CorrectedValidateBoolean, proved by Booleans.CorrectedValidateBooleanIsDocumented |
| daemon.c:296-300 | the length-5 branch compares `str[2]` with 'l', 's' and 'e', so "false" never matches | `verbose=false` | compare `str[3]` and `str[4]` and return 0 | not executed | Booleans.ValidateBoolean, shown by Findings.FalseRejected | Booleans.CorrectedValidateBoolean, proved by Booleans.CorrectedValidateBooleanIsDocumented |
| daemon.c:489-492 | after `cur--`, `val_end = cur - 1` is the value's last character, and line 506 overwrites it with the terminator | `daemonize=1` with no final newline; `k=v # c` | keep the whole value, as for a value ended by a newline (lines 493-495) | not executed | Parser.Value with AsWritten, shown by Findings.LastCharacterDropped and Findings.CommentChangesMeaning | Parser.Value with Corrected, proved by ConfigLines.FinalAssignmentLine and ConfigText.CommentsIgnored |
| daemon.c:499-506 | for `id = #` the value length `val_len` is 0, so line 500 allocates a zero-byte block and line 506 writes the terminator at `val_tmp[val_len - 1]`, one byte before that block | `syslog_ident=#` | an empty value | not executed | Parser.Assign under Parser.Value with AsWritten, shown by Findings.EmptyValueUndefined | Parser.Value with Corrected, proved by ConfigLines.EmptyValueBeforeComment |
