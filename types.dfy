/** The values the parser works with: its configuration, the field values it
    produces, the errors it reports, and the cursor positions it threads. */
module Types {
  import opened Wrappers

  /** The delimiters of one parse call. `escapeChar` is a string because the
      caller may pass any string; only a one-character one is accepted. */
  datatype Config = Config(
    rowPrefix: string,
    columnPrefix: string,
    columnSeparator: string,
    columnEnd: string,
    rowSeparator: string,
    rowEnd: string,
    mvsep: string,
    emptystr: string,
    escapeChar: string)

  /** The defaults of `SplunkFormatParser.parse`. */
  const DefaultConfig := Config("(", "(", "AND", ")", "OR", ")", "OR", "NOT()", "\\")

  predicate ValidEscape(cfg: Config) {
    |cfg.escapeChar| == 1
  }

  function Esc(cfg: Config): char
    requires ValidEscape(cfg)
  {
    cfg.escapeChar[0]
  }

  /** A field value: one string, or the strings of a multivalue group in source order. */
  datatype FieldVal = Single(value: string) | Multi(values: seq<string>)

  /** One column of the result: field name to value. */
  type Record = map<string, FieldVal>

  datatype ParseError =
    | InvalidEscapeChar(escapeChar: string)
    | UnexpectedKeyword(expected: string, found: Option<string>)
    | UnexpectedToken(expectedToken: Option<char>, foundToken: Option<char>)
    | MultivalueKeyMismatch(mainKey: string, key: string)
      /** A field starts at end of input (the source fails joining a list holding None). */
    | KeyAtEndOfInput
      /** Only produced by the as-written multivalue reader, see module Findings. */
    | MultivalueKeyUnbound

  /** What a character-level reader returns: its value and the cursor index after it. */
  datatype Read<T> = Read(val: T, pos: nat)

  /** What a grammar-level reader returns: its value, the cursor index and the
      current keyword after it. */
  datatype Step<T> = Step(val: T, pos: nat, keyword: Option<string>)
}
