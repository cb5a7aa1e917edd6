/** Vocabulary shared by the model of daemon.c's configuration-file parser. */
module Common {

  /** An optional value; `None` plays the part of a NULL pointer. */
  datatype Option<+T> = None | Some(value: T)

  /** Which revision of daemon.c a definition follows: the code as written,
      or the code with the defects listed under README "Findings" repaired. */
  datatype Revision = AsWritten | Corrected

  /** Why parse_config_file returned 1 ("invalid format"). The payload is
      what the source's diagnostic names, if anything. */
  datatype ErrorKind =
    | InvalidIdentifierStart(found: char)
    | BadIdentifierEnd(found: char)
    | ExpectedEquals(id: string)
    | MissingValue(id: string)
    | UnterminatedQuote
    | InvalidBoolean(value: string)
    | UnknownIdentifier(id: string)
}
