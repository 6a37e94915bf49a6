# splunk-format-parser in Dafny

A model of `SplunkFormatParser`, the recursive-descent parser that reads the
text Splunk's `format` search command produces. An example:

    ( ( host="a" AND ( source="x" OR source="y" ) ) OR ( host="b" ) )

The parser turns this into a list with one record per column. A record maps
each field name either to one string or, for a multivalue group, to the list
of its values in source order. The row prefix, column prefix, column
separator, column end, row separator, row end, multivalue separator, empty
marker and escape character all come from the configuration.

The model has these layers:

- `Wrappers`: `Option`, `Result` and the pass/fail `Outcome` of a check.
- `Types`: the configuration `Config` with the defaults of `parse`.
  - `FieldVal` is `Single` or `Multi`; a record is `map<string, FieldVal>`.
  - `ParseError` replaces `SplunkFormatParserException`. Each kind carries
    what the message would show: the expected and found keyword, or the
    expected and found token.
- `Scanner`: the character-level readers as pure functions of the input and
  a cursor index. They are `ScanKeyword` (`_next_keyword`), `Key` with
  `StripQuotes` (`_get_key`), and `Decode`/`Value` (`_get_value` and its
  escape rule).
- `Positions`: where a piece of text lies in the input (`At`), where a
  keyword may end (`Boundary`), and how the scanner steps over them.
- `Grammar`: `_get_key_value`, `_get_key_multivalue`, `_parse_column`,
  `_parse_row`, `_parse_format` and `parse` as pure functions. Each `while`
  loop of the source is a function with an accumulator (`MultivalueLoop`,
  `FieldsLoop`, `RowLoop`).
- `Parser`: the parser itself, the class `FormatParser`.
  - Its fields are the input, the configuration, the cursor `pos`, the current
    `token` and the current `keyword`.
  - Each of its methods is the source's classmethod written as a loop that
    updates those fields.
  - Each method is proved to return, and to leave behind, exactly what the
    matching function of `Scanner` or `Grammar` gives for the state the method
    started from.
- `Properties`: facts about the whole parse and about the readers.
  - The escape check comes first.
  - Blank input and the empty marker give no records.
  - Key quote stripping and the escape law of values.
- `Render` and `RoundTrip`: a printer for the format, and the proof that
  parsing a printed row gives back one record per column.
  - Each record is the column's fields written into an empty map in order, so
    a repeated key keeps its last value.
  - A multivalue group with entries of differing keys is an error naming both
    keys.
- `Mismatch`: a printed row whose group, column or row is closed by the
  wrong keyword fails with the error naming the keyword expected and the one
  found.
- `Findings`: the multivalue reader as written, with its own loop, and the
  input on which it differs from the corrected reader the rest of the model
  uses.

The cursor is an index into the input. The state before the first
`_next_token` is `pos == -1`, and `token` is always the character at `pos`,
or None past the end.

Some tests expect error positions and a check for data after the row end.
`splunk_format_parser.py` does neither, and the model follows the code.

## Model

| member | source | states |
|---|---|---|
| Parser.Parse | splunk_format_parser/splunk_format_parser.py:62-81 | Rejects an escape character that is not one character long; otherwise parses with a fresh parser. The result is `ParseResult` of the input. |
| Parser.FormatParser.constructor | splunk_format_parser/splunk_format_parser.py:67-79 | The state `parse` sets up: the input and configuration stored, no token, no keyword, nothing read. |
| Parser.FormatParser.NextToken | splunk_format_parser/splunk_format_parser.py:221-222 | Moves the cursor one character on, or leaves it at end of input. The token becomes the character there, or None; the keyword is unchanged. |
| Parser.FormatParser.MatchKeyword | splunk_format_parser/splunk_format_parser.py:226-230 | Passes exactly when the current keyword equals the expected one. Otherwise the error carries the expected and the found keyword. |
| Parser.FormatParser.MatchToken | splunk_format_parser/splunk_format_parser.py:234-238 | Passes exactly when the current token equals the expected one. Otherwise the error carries the expected and the found token. |
| Parser.FormatParser.NextKeyword | splunk_format_parser/splunk_format_parser.py:204-217 | The new keyword and cursor are those `ScanKeyword` gives from the old cursor. |
| Parser.FormatParser.GetKey | splunk_format_parser/splunk_format_parser.py:169-177 | Returns the key that `Key` reads from the old cursor and leaves the cursor where `Key` ends, or fails as `Key` does. The keyword is unchanged. |
| Parser.FormatParser.GetValue | splunk_format_parser/splunk_format_parser.py:181-200 | Returns the value that `Value` decodes from the old cursor and leaves the cursor after it, or fails as `Value` does. |
| Parser.FormatParser.GetKeyValue | splunk_format_parser/splunk_format_parser.py:160-165 | Agrees with `KeyValue`: the same key, value and cursor, or the same error. |
| Parser.FormatParser.GetKeyMultivalue | splunk_format_parser/splunk_format_parser.py:138-156 | Agrees with `Group`: the same key, values, cursor and keyword, or the same error. |
| Parser.FormatParser.ParseColumn | splunk_format_parser/splunk_format_parser.py:115-134 | Agrees with `Column` from the old cursor and keyword: the same record, cursor and keyword, or the same error. |
| Parser.FormatParser.ParseRow | splunk_format_parser/splunk_format_parser.py:97-111 | Agrees with `Row` from the old cursor and keyword: the same records, cursor and keyword, or the same error. |
| Parser.FormatParser.ParseFormat | splunk_format_parser/splunk_format_parser.py:85-93 | Starting before the first character, returns `Format` of the input. |
| Scanner.SkipSpaces | splunk_format_parser/splunk_format_parser.py:205-206 | The skip never moves back and stays within the input (the same skip is at lines 120-121 and 161-162). |
| Scanner.SkipSpacesSpec | splunk_format_parser/splunk_format_parser.py:205-206 | Skipping passes only spaces and stops at the first non-space or at end of input. |
| Scanner.SkipSpacesTo | splunk_format_parser/splunk_format_parser.py:205-206 | Skipping stops at an index exactly when only spaces precede it and it holds a non-space or is the end. |
| Scanner.RunEndSpec | splunk_format_parser/splunk_format_parser.py:211-215 | A keyword run covers only non-space characters and ends on a space or at end of input. |
| Scanner.ScanKeyword | splunk_format_parser/splunk_format_parser.py:204-217 | The cursor never moves back, and it moves on whenever input remains. |
| Scanner.ScanKeywordSpec | splunk_format_parser/splunk_format_parser.py:204-217 | No keyword exactly when only spaces remain, and then the cursor is at end of input. Otherwise the keyword is a non-empty, space-free run after the skipped spaces that ends at the cursor, which is on a space or at end of input (maximal). |
| Scanner.KeyEndSpec | splunk_format_parser/splunk_format_parser.py:172-174 | The key loop passes only non-`=` characters and stops at the first `=` or at end of input. |
| Scanner.StripLeadingSpec | splunk_format_parser/splunk_format_parser.py:177 | The text is some number of quotes followed by the result, and the result does not start with a quote. |
| Scanner.StripTrailingSpec | splunk_format_parser/splunk_format_parser.py:177 | The text is the result followed by some number of quotes, and the result does not end with a quote. |
| Scanner.StripQuotes | splunk_format_parser/splunk_format_parser.py:177 | The stripped key is never longer than the raw text. |
| Scanner.StripQuotesSpec | splunk_format_parser/splunk_format_parser.py:177 | `strip('"')`: the text is quotes, then the result, then quotes, and the result neither starts nor ends with a quote. |
| Scanner.Key | splunk_format_parser/splunk_format_parser.py:169-177 | Fails exactly when the key would start at end of input; otherwise the cursor moves on. |
| Scanner.KeySpec | splunk_format_parser/splunk_format_parser.py:169-177 | The first character is taken whatever it is. The key runs to the first `=` after it, which is consumed. The key is the raw text up to that `=` with some quotes removed in front and some behind, and it neither starts nor ends with a quote. |
| Scanner.Decode | splunk_format_parser/splunk_format_parser.py:186-200 | The decoder never moves back and stays within the input. |
| Scanner.DecodeSpec | splunk_format_parser/splunk_format_parser.py:186-200 | A value is never longer than the text it consumed. Unless the input ran out, the last character consumed is the closing `"`. |
| Scanner.Value | splunk_format_parser/splunk_format_parser.py:181-183 | Fails exactly when the current token is not `"`, with an error carrying the expected `"` and what was found. |
| Grammar.KeyValue | splunk_format_parser/splunk_format_parser.py:160-165 | On success the cursor has moved on and is within the input. |
| Grammar.MultivalueLoop | splunk_format_parser/splunk_format_parser.py:145-153 | On success the keyword is no longer the separator, and the values read before are kept as a prefix: values are only ever appended. |
| Grammar.Group | splunk_format_parser/splunk_format_parser.py:138-156 | On success the group was closed by the keyword `)`, whatever the configured delimiters, and it has at least one value. |
| Grammar.GroupByLoop | splunk_format_parser/splunk_format_parser.py:142-153 | The first entry reads as one turn of the multivalue loop whose key is that entry's own key. |
| Grammar.CloseGroup | splunk_format_parser/splunk_format_parser.py:155-156 | Succeeds only when the loop did and left the keyword `)`, keeping the loop's cursor. |
| Grammar.Field | splunk_format_parser/splunk_format_parser.py:119-126 | A field is a multivalue group exactly when its first non-space character is `(`. |
| Grammar.FieldsLoop | splunk_format_parser/splunk_format_parser.py:119-131 | On success every key of the record built so far is still present. |
| Grammar.Column | splunk_format_parser/splunk_format_parser.py:115-134 | Succeeds only between the column prefix and the column end. A keyword other than the prefix is an error carrying the prefix and the keyword found. |
| Grammar.RowLoop | splunk_format_parser/splunk_format_parser.py:101-108 | On success the records read earlier are a prefix of the result. |
| Grammar.Row | splunk_format_parser/splunk_format_parser.py:97-111 | Succeeds only between the row prefix and the row end. A keyword other than the prefix is an error carrying the prefix and the keyword found. |
| Grammar.Format | splunk_format_parser/splunk_format_parser.py:85-93 | Blank input never fails. A non-empty result means the first keyword of the input is the row prefix. |
| Grammar.ParseResult | splunk_format_parser/splunk_format_parser.py:62-81 | A result is only produced for a one-character escape. A non-empty result means the first keyword of the input is the row prefix. |
| Properties.EscapeCheckedFirst | splunk_format_parser/splunk_format_parser.py:62-65 | An escape character whose length is not 1 is rejected, whatever the input. |
| Properties.BlankInputIsEmpty | splunk_format_parser/splunk_format_parser.py:85-89 | Empty or all-space input parses to no records. |
| Properties.EmptyMarkerAlone | splunk_format_parser/splunk_format_parser.py:90-92 | The empty marker after spaces, ending exactly at end of input, parses to no records. |
| Properties.EmptyMarkerNotLast | splunk_format_parser/splunk_format_parser.py:90-92 | The empty marker followed by anything, even one space, is an error: end of input was expected and a space was found. |
| Properties.RowPrefixExpected | splunk_format_parser/splunk_format_parser.py:93-99 | A first keyword that is neither the empty marker nor the row prefix is an error carrying the row prefix and that keyword. |
| Properties.StripLeadingQuotes | splunk_format_parser/splunk_format_parser.py:177 | All leading quotes are removed, not just one. |
| Properties.StripTrailingQuotes | splunk_format_parser/splunk_format_parser.py:177 | All trailing quotes are removed, not just one. |
| Properties.StripQuotesPadded | splunk_format_parser/splunk_format_parser.py:177 | Any number of quotes on either side of a key that neither starts nor ends with one are removed, and nothing else is. |
| Properties.EscapedCharacter | splunk_format_parser/splunk_format_parser.py:190-194 | The escape character before `"` or before itself stands for that second character, and both are consumed. With `"` as escape character, `""` is one `"`. |
| Properties.LoneEscapeIsLiteral | splunk_format_parser/splunk_format_parser.py:186-198 | The escape character before anything else is copied as itself, and only it is consumed. |
| Properties.DecodeVerbatim | splunk_format_parser/splunk_format_parser.py:186-200 | A value free of `"` and of the escape character is copied character for character, NUL included, and the cursor ends just after its closing quote. |
| Render.ValuesSpec | splunk_format_parser/splunk_format_parser.py:143-152 | The values of a group are its entries' values, one per entry, in order. |
| Render.FirstOtherKeySpec | splunk_format_parser/splunk_format_parser.py:146-151 | No key differs exactly when every entry has the key. A key that differs is the key of the first entry that differs. |
| Render.AssignUntouched | splunk_format_parser/splunk_format_parser.py:127 | A key no field writes keeps its value, or stays absent. |
| Render.AssignLastWins | splunk_format_parser/splunk_format_parser.py:127 | The last field written under a key decides that key's value. |
| Render.AssignKeys | splunk_format_parser/splunk_format_parser.py:127 | The record's keys are the starting keys and the keys of the fields written, and nothing else. |
| RoundTrip.DecodeEscaped | splunk_format_parser/splunk_format_parser.py:181-200 | Decoding an escaped value followed by its closing quote gives back the value and stops after the quote. |
| RoundTrip.KeyTextStripped | splunk_format_parser/splunk_format_parser.py:177 | Stripping undoes the quotes of a quoted key and leaves a bare key alone. |
| RoundTrip.KeyAt | splunk_format_parser/splunk_format_parser.py:169-177 | A written key followed by `=` reads back as the key, with the cursor after the `=`. |
| RoundTrip.ValueAt | splunk_format_parser/splunk_format_parser.py:181-200 | A written value reads back as the value, with the cursor after its closing quote. |
| RoundTrip.PairAt | splunk_format_parser/splunk_format_parser.py:160-165 | A written `key="value"` entry, after any spaces, reads back as its key and value. |
| RoundTrip.EntriesAt | splunk_format_parser/splunk_format_parser.py:145-155 | The entries of a written group read back as their values in order, ending at the keyword that closes them. If some entry's key differs from the first, the error names the first key and the first differing one. |
| RoundTrip.GroupAt | splunk_format_parser/splunk_format_parser.py:138-156 | A written group closed by `)` reads back as its key and its values in order. Closed by another keyword, it fails naming `)` and that keyword. An entry with a differing key gives the key-mismatch error instead. |
| RoundTrip.FieldAt | splunk_format_parser/splunk_format_parser.py:119-126 | A written field reads back as its key and value: `Single` for an entry, `Multi` for a group. |
| RoundTrip.FieldsAt | splunk_format_parser/splunk_format_parser.py:119-131 | The written fields of a column are written into the record one by one, in order, ending at the column end. |
| RoundTrip.ColumnAt | splunk_format_parser/splunk_format_parser.py:115-134 | A written column reads back as its fields written into an empty record. |
| RoundTrip.ColumnsAt | splunk_format_parser/splunk_format_parser.py:101-108 | The written columns of a row read back as one record per column, in order, ending at the row end. |
| RoundTrip.ParseRendered | splunk_format_parser/splunk_format_parser.py:85-111 | Parsing a written row gives one record per column. Whatever follows the row end after a space is not looked at. |
| Mismatch.MultivalueLoopSame | splunk_format_parser/splunk_format_parser.py:145-153 | The multivalue loop gives the same result under two configurations with the same separator and escape character. |
| Mismatch.FieldsLoopSame | splunk_format_parser/splunk_format_parser.py:119-131 | The field loop gives the same result under two configurations that also share the column separator. |
| Mismatch.RowLoopSame | splunk_format_parser/splunk_format_parser.py:101-108 | The column loop gives the same result under two configurations that also share the column prefix, column end and row separator. |
| Mismatch.RowEndMismatch | splunk_format_parser/splunk_format_parser.py:110 | A written row whose row end is another keyword fails naming the row end and that keyword. |
| Mismatch.ColumnEndMismatch | splunk_format_parser/splunk_format_parser.py:133 | A written row whose first column ends with another keyword fails naming the column end and that keyword. |
| Mismatch.GroupCloseMismatch | splunk_format_parser/splunk_format_parser.py:155 | A row whose first field is a group closed by another keyword fails naming `)` and that keyword, or with the key-mismatch error if an entry's key differs. |
| Findings.GroupAsWritten | splunk_format_parser/splunk_format_parser.py:138-156 | The multivalue reader as written, where the returned key is bound only by the loop: it never returns a group of fewer than two values. |
| Findings.MultivalueLoopAsWritten | splunk_format_parser/splunk_format_parser.py:145-153 | The loop as written leaves `key` unbound only when it reads no entry, and then the values are unchanged; the values read before are always kept as a prefix. |
| Findings.AsWrittenLoop | splunk_format_parser/splunk_format_parser.py:145-153 | The loop as written and `MultivalueLoop` read the same values and stop at the same place or fail alike. `key` is the main key once an entry was read. |
| Findings.AsWrittenAgrees | splunk_format_parser/splunk_format_parser.py:138-156 | The reader as written agrees with `Group` on every error and every group of two or more values. It fails exactly on the groups of one value. |
| Findings.OneEntryGroupUnbound | splunk_format_parser/splunk_format_parser.py:138-156 | On `( ( ( source="a" ) ) )` the corrected reader returns `source` with `["a"]`, while the reader as written fails. |
| Findings.OneEntryRowParses | splunk_format_parser/splunk_format_parser.py:138-156 | With the corrected reader, that row parses into one record mapping `source` to `["a"]`. |

## Left out

- Output projections: the nested JSON and the CSV/tabular output modes are not in this parser, whose `parse` has no format parameter. They are not part of this model.
- Error positions, the exact message text, and a check for data after the row end: the parser computes none of them. Errors are `ParseError` values carrying the expected and found keyword or token.
- Class-level state: the source stores its configuration and cursor on the class and would be shared between concurrent calls. Here each `Parse` call creates its own `FormatParser`, and concurrency is not modelled.
- Record order: a Python dict keeps its keys in insertion order, while a record here is a `map`, which has none. The order of a column's keys in its record is not modelled; which keys it holds and their values are.
- Python iterators: `iter`/`next` become an index into the input, with -1 before the first character.
- The `TypeError` raised when a field starts at end of input (joining a list that holds None) is the ordinary error `KeyAtEndOfInput`.
- `quicktest.py`: it only prints results and has no logic to model.
- Round trip: `RoundTrip.ParseRendered` covers rows printed by `Render` with well-formed delimiters, keys and groups. A row that is not of that form is covered only by the agreement of each method with its function.
- Parser.FormatParser.GetKeyMultivalue: returns the first entry's key where the source returns the loop variable `key`. The two agree except on one-entry groups, where the source fails (see Findings).

## Findings

| source | as written | input that shows it | evidently intended | confidence | as-written member | corrected member |
|---|---|---|---|---|---|---|
| splunk_format_parser/splunk_format_parser.py:138-156 | `_get_key_multivalue` returns `key`, which only the loop over the second and later entries assigns. A group of one entry never enters that loop, so after its `)` is matched the `return` raises `UnboundLocalError`. | `( ( ( source="a" ) ) )` | return `main_key`, so a one-entry group gives `{'source': ['a']}` | not executed; no test uses a one-entry group | Findings.GroupAsWritten | Grammar.Group |

`Findings.GroupAsWritten` follows the source: `key` starts unbound and only the loop `Findings.MultivalueLoopAsWritten` binds it. `Findings.AsWrittenAgrees` derives from that loop, through `Findings.AsWrittenLoop`, that the two readers differ only on one-entry groups. `Findings.OneEntryGroupUnbound` shows them differing on that input. `RoundTrip.GroupAt` and `Findings.OneEntryRowParses` prove the corrected reader's behaviour.
