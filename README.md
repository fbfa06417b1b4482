# json-parser, modelled in Dafny

A model of the core of the Rust crate `json-parser`. The crate turns text that claims to be
JSON into a value and tries to collect every diagnostic instead of stopping at the first one.

The model covers three parts of the crate:

- The diagnostic taxonomy of `src/errors.rs`: module `Errors` in `errors.dfy`.
- The tokenizer of `src/lexical.rs`: module `Lexical` in `lexical.dfy`.
  - `tokenize_into_strings` works in two steps. It pads punctuation outside quotes with spaces and shields whitespace inside quotes with `'\0'`. It then splits on whitespace and turns the shields back into spaces.
  - `Token::try_from_token` classifies each piece.
  - `Token::try_from_json` collects either every token or every failure.
  - The two loops are methods, proved against the specification functions `Tokenized` and `Collect`.
  - `Visible` is an independent, character-by-character reference for what the splitter keeps.
- The error-recovering recursive-descent parser of `src/parsing.rs`:
  - `Parser` is a class in `parser.dfy` whose methods move the reader's cursor and push diagnostics in place.
  - Each parsing method (`Parse`, `ParseValue`, `ParseArray`, `ParseArrayElements`, `ParseObject`, `ParseObjectMembers`, `ParseNumber`, `ParseString`, `ParseSequenceSeparator`, `ParseUntilCommaOrEnd`) is proved to compute exactly the function of the same name in `ParserSpec` (`parser_spec.dfy`). `ParseMember`, one turn of the member loop, is proved against `ParserSpec.Member`. The reader calls `Peek`, `Next` and `CreateError` are proved against the functions of those names in `Reading`.
  - The `ParserSpec` functions describe each routine as a map from a state (cursor, diagnostics) to an outcome and a new state.
  - The properties are proved about those functions in `parser_properties.dfy`.
  - A routine that panics in the source yields the outcome `Aborted`, and every caller passes it on.

`src/parsing.rs` does not build against the rest of the crate:

- src/main.rs:1-3 does not declare it as a module.
- It drives a `lexical::Reader` that `src/lexical.rs` does not define.
- It expects tokens that `lexical::Token` (src/lexical.rs:8-15) does not provide:
  - It calls `is_whitespace` on tokens (src/parsing.rs:38), but `Token` has no whitespace variant and no such method.
  - It reads the `Bool` and `Number` payloads as text (:62, :64), but `Token` gives them a `bool` and an `f64`.
  - It counts quotes in a `String` payload (:252-287), but `try_from_string` strips them (src/lexical.rs:44-46).

The units the parser expects are therefore reconstructed as `Reading.Lexeme`. Module `Reading` (`reading.dfy`) models the reader abstractly:

- The input is a sequence of items. Each item is a lexical unit (`Lexeme`) or a lexical error.
- `peek(n)` shows the next `min(n, remaining)` items; `next(n)` also consumes them.
- `create_error` stamps a code with the position the reader reports for its cursor. That position is a parameter, `at`.
- Float parsing (`str::parse::<f64>`) is a parameter, `isF64`. A number is represented by the text the float parser accepted.

The enums and structs of the crate are datatypes: `Errors.ErrorCode` and `Errors.Error` (src/errors.rs:4-14, :44-49), `Lexical.LiteralError` and `Lexical.Token` (src/lexical.rs:1-15), `Reading.Lexeme` for the reader's units, and `ParserSpec.Value` for the parser's result.

## What the code does, as written

The model follows the code. Where the code cannot produce what the crate's own tests expect, the lemmas named below prove what it does instead.

- **Arrays and objects at the start.** `parse_value` consumes the next item before it dispatches on it (src/parsing.rs:49). `parse_array` and `parse_object` then look for the `[`/`{` that is already gone (:82-106, :137-161).
  - An array or object whose first item is neither another opener nor a lexical error therefore panics (`ArrayAfterValueAborts`, `ObjectAfterValueAborts`). A lexical error there is recorded and consumed, and the value is `None`.
  - This includes `[]` and `{}` (`EmptyContainersAbort`), so the assertions at src/parsing.rs:374-375 cannot hold, nor those of the array and object tests at :379-397 and :518-539.
  - A doubled opener does reach the element loop: `[[null,true]`, with no whitespace unit, is accepted as the array `[null, true]` (`DoubledOpenerArray`, `ParsesDoubledOpener`). With a space after the comma, `[[null, true]` panics on the whitespace unit (`SpacedDoubledOpenerAborts`).
  - The single-scalar tests at src/parsing.rs:366-373 do hold (`ParsesNull`, `ParsesBools`, `ParsesNumber`, `ParsesString`).
- **Whitespace units.** The test inputs at src/parsing.rs:380-386 and :519-527 start with a line break and indentation, and expect them to be passed over. `parse_value` has no case for whitespace units and panics on them (`LeadingWhitespaceAborts`). Whitespace is accepted only after the root value (:33-38).
- **Panics.** Besides the cases above, the code panics on a boolean text other than `true`/`false` (:62) and on an unexpected punctuation character (:73).
- **An extra `next(1)`.** `parse_string` and `parse_number` call `next(1)` after `parse_value` has already consumed their unit. So one more item is consumed.
  - After a string key and `:`, the value is therefore read from the item after the one that follows the colon (`MemberWithStringKey`).
- **`parse` with diagnostics.** When any diagnostic was recorded, `parse` returns the recorded diagnostics alone, and adds no `EndOfFileExpected` (`ParseOutcome`).
- **`InvalidNumber`.** `src/errors.rs:10` gives `InvalidNumber` the offending text as its payload. The parser at src/parsing.rs:244 builds it bare. The model keeps the payload, and the parser supplies the number's text.
- **`parse_sequence_separator`.** A lexical error is recorded and consumed (src/parsing.rs:291-295). On an item that is neither a boundary nor a lexical error, it records `EndOfFileWhileParsing(end)`, consumes nothing and returns false (`SeparatorCases`).
- **Resynchronisation after a stray `:`.** `parse_until_comma_or_end` parses a value after every `:` (src/parsing.rs:340-343), and `parse_value` consumes whatever item comes next. A `,`, `]` or `}` right after the `:` is therefore consumed with `ExpectedToken` and does not stop the loop (`ColonConsumesDelimiter`). On `: , null ]` it stops after the `null`, and on `: ]` it runs past the `]` to the end of the input (`ColonSwallowsComma`, `ColonSwallowsEnd`).

## Model

| member | source | states |
|---|---|---|
| Errors.Display | src/errors.rs:4-42 | defined for every `ErrorCode` variant except that it panics exactly for a delimiter-carrying code whose delimiter is not `]` or `}`; `InvalidNumber` embeds its text after "Invalid number: "; every message is non-empty |
| Errors.DisplayInjective | src/errors.rs:16-42 | two codes with the same defined message are the same code |
| Errors.MessageInitial | src/errors.rs:19-39 | only the invalid-number message starts with 'I' |
| Errors.FixedMessagesDiffer | src/errors.rs:19-39 | the fixed messages of distinct codes differ |
| Errors.New | src/errors.rs:51-55 | `Error::new` keeps exactly the code, line and column it is given |
| Errors.NewInjective | src/errors.rs:44-55 | two diagnostics built by `Error::new` are equal exactly when code, line and column all are (the derived equality the tests compare with) |
| Lexical.IsPunctuation | src/lexical.rs:18-21 | a punctuation character is never whitespace, a digit, a quote or the shielding `'\0'`, so it is always a piece of its own and never starts a literal |
| Lexical.TryFromString | src/lexical.rs:23-49 | Ok iff exactly two quotes, first and last; the value is the text between them, with no quote in it; an odd count gives "String has unmatched quotation", any other failure "Invalid String"; every error carries the piece |
| Lexical.StringRoundTrip | src/lexical.rs:23-49 | a quote-free text between quotes is read back as itself |
| Lexical.TryFromNumber | src/lexical.rs:51-57 | Ok iff the float parser accepts the text; the error carries the text |
| Lexical.TryFromToken | src/lexical.rs:59-83 | empty gives "Nothing to parse"; a punctuation token iff the first character is punctuation; null/true/false only for the exact words; a `"`-led piece gives exactly `TryFromString`'s result and a digit-led piece exactly `TryFromNumber`'s, errors included; ExpectedLiteral exactly for everything else |
| Lexical.QuoteStateParity | src/lexical.rs:110-112 | the quote flag after a text is flipped iff the text has an odd number of quotes |
| Lexical.TokenizeIntoStrings | src/lexical.rs:105-127 | the pieces are `Tokenized(json)`, none is empty, and their concatenation is the independent reference `Visible(json)` |
| Lexical.TokenizedNonEmpty | src/lexical.rs:122-126 | `split_whitespace` never yields an empty piece |
| Lexical.TokenizedVisible | src/lexical.rs:109-126 | the pieces concatenate to the characters `Visible` keeps: whitespace outside quotes dropped, inside quotes kept as spaces |
| Lexical.WhitespaceSeparates | src/lexical.rs:113-124 | whitespace outside quotes splits the input into independently tokenized halves |
| Lexical.PunctuationSeparates | src/lexical.rs:115-116 | punctuation outside quotes is a piece of its own between the pieces of its two sides |
| Lexical.QuotedPiece | src/lexical.rs:110-114 | a quoted text is one piece, its inner whitespace turned into spaces |
| Lexical.PlainWord | src/lexical.rs:105-127 | a word of ordinary characters is one piece, unchanged |
| Lexical.SpaceSeparatedWords | src/lexical.rs:105-127 | space-separated ordinary words come back as exactly those words (the garbage test at src/lexical.rs:135-138, in general form) |
| Lexical.TryFromJson | src/lexical.rs:85-102 | the result is `Collect` of the pieces: every token or every failure, in piece order |
| Lexical.ConvertedOrFailed | src/lexical.rs:90-95 | each piece yields either a token or a failure, and there are no failures iff every piece converts |
| Lexical.FailuresConcat | src/lexical.rs:90-95 | failures of a concatenation are the failures of each part in order |
| Lexical.CollectOutcome | src/lexical.rs:97-101 | Ok iff every piece converts, with one token per piece in order; otherwise Err with one failure per failing piece, never empty |
| ParserSpec.ParseString | src/parsing.rs:252-287 | Some iff length > 1, exactly two counted quotes (`\"` skipped) and a final quote; the value is the text between the outer characters; otherwise exactly one ExpectedDoubleQuote; one item consumed either way |
| ParserSpec.ParseNumber | src/parsing.rs:238-250 | Some iff the float parser accepts the text; otherwise one InvalidNumber with the text; one item consumed |
| ParserSpec.ParseValue | src/parsing.rs:48-79 | diagnostics only appended; cursor never moves back and moves whenever an item is left; an absent value always leaves a new diagnostic |
| ParserSpec.ParseArray | src/parsing.rs:81-108 | diagnostics only appended; an absent array leaves a new diagnostic; a produced value is an array |
| ParserSpec.ParseArrayElements | src/parsing.rs:110-134 | absent exactly on an exhausted reader, and then nothing is recorded or consumed |
| ParserSpec.ElementsLoop | src/parsing.rs:119-131 | diagnostics only appended; never absent; the elements collected so far are a prefix of the result (on a well-formed list the full result is `SimpleElements`) |
| ParserSpec.ParseObject | src/parsing.rs:136-163 | diagnostics only appended; an absent object leaves a new diagnostic; a produced value is an object |
| ParserSpec.ParseObjectMembers | src/parsing.rs:165-236 | absent exactly on an exhausted reader, and then exactly one EndOfFileWhileParsing('}') is recorded |
| ParserSpec.MembersLoop | src/parsing.rs:176-233 | diagnostics only appended; never absent |
| ParserSpec.Member | src/parsing.rs:179-225 | diagnostics only appended; never absent |
| ParserSpec.ParseSequenceSeparator | src/parsing.rs:289-328 | diagnostics only appended; at an absent item, `,` or `end`, returning false means an item was consumed |
| ParserSpec.ParseUntilCommaOrEnd | src/parsing.rs:330-357 | diagnostics only appended; unless it panics it stops where the next item is absent, `,` or `end` |
| ParserSpec.UntilLoop | src/parsing.rs:332-349 | stops at a boundary; once set, the skipped flag stays set |
| ParserSpec.Parse | src/parsing.rs:24-46 | an Err result is never an empty list |
| Reading.Peek | src/parsing.rs:82 | `peek(n)` shows the next `min(n, remaining)` items, in order, without consuming them |
| Reading.Next | src/parsing.rs:49 | `next(n)` moves the cursor past exactly the items `peek(n)` shows and changes no diagnostic |
| Reading.CreateError | src/parsing.rs:52-53 | `create_error(code)` keeps the code and stamps it with the line and column the reader reports at its cursor |
| Parsing.Parser.Next | src/parsing.rs:49 | returns the items `peek(n)` showed and leaves the state `Reading.Next` gives |
| Parsing.Parser.constructor | src/parsing.rs:25-28 | the cursor starts at the first item with no diagnostics |
| Parsing.Parser.Parse | src/parsing.rs:24-46 | the method's result is `ParserSpec.Parse` of its input |
| Parsing.Parser.ParseValue | src/parsing.rs:48-79 | leaves the outcome and state `ParserSpec.ParseValue` gives |
| Parsing.Parser.ParseArray | src/parsing.rs:81-108 | leaves the outcome and state `ParserSpec.ParseArray` gives |
| Parsing.Parser.ParseArrayElements | src/parsing.rs:110-134 | its loop leaves the outcome and state `ParserSpec.ParseArrayElements` gives |
| Parsing.Parser.ParseObject | src/parsing.rs:136-163 | leaves the outcome and state `ParserSpec.ParseObject` gives |
| Parsing.Parser.ParseObjectMembers | src/parsing.rs:165-236 | its loop leaves the outcome and state `ParserSpec.ParseObjectMembers` gives |
| Parsing.Parser.ParseMember | src/parsing.rs:179-225 | one turn of the member `match` leaves what `ParserSpec.Member` gives, including the in-place insert |
| Parsing.Parser.ParseNumber | src/parsing.rs:238-250 | leaves the outcome and state `ParserSpec.ParseNumber` gives |
| Parsing.Parser.ParseString | src/parsing.rs:252-287 | its quote-counting loop computes `CountedQuotes`; leaves what `ParserSpec.ParseString` gives |
| Parsing.Parser.ParseSequenceSeparator | src/parsing.rs:289-328 | leaves the outcome and state `ParserSpec.ParseSequenceSeparator` gives |
| Parsing.Parser.ParseUntilCommaOrEnd | src/parsing.rs:330-357 | its loop with the `seen_non_comma_value` flag leaves what `ParserSpec.ParseUntilCommaOrEnd` gives |
| ParserProperties.CountedQuotesAppendQuote | src/parsing.rs:258-268 | a final quote is counted unless a backslash before it pairs with it; the count never drops |
| ParserProperties.PlainText | src/parsing.rs:258-268 | text without quotes or backslashes counts no quote |
| ParserProperties.StringRoundTrip | src/parsing.rs:274-281 | a string unit is accepted with exactly its inner text when that text counts no quote and does not end in a backslash |
| ParserProperties.InnerQuoteRejected | src/parsing.rs:274-277 | two or more counted quotes inside make the unit unterminated: one ExpectedDoubleQuote, one item consumed |
| ParserProperties.EmptyArray | src/parsing.rs:96-99 | `[` `]` consumes exactly two items and yields the empty array |
| ParserProperties.LoneArrayOpener | src/parsing.rs:88-95 | a lone `[` is consumed and EndOfFileWhileParsing(']') is recorded after it |
| ParserProperties.EmptyObject | src/parsing.rs:151-154 | `{` `}` consumes exactly two items and yields the empty object |
| ParserProperties.LoneObjectOpener | src/parsing.rs:143-150 | a lone `{` is consumed and EndOfFileWhileParsing('}') is recorded after it |
| ParserProperties.SimpleTurn | src/parsing.rs:119-131 | one turn of the loop on `null`, `true` or `false` followed by `,` or `]`: the value is collected, nothing is skipped or recorded, and the separator decides |
| ParserProperties.SimpleElements | src/parsing.rs:119-133 | on `v1 , … , vn ]` of single-item values the loop yields exactly `v1 … vn` in order, consumes the list through its `]` and records nothing |
| ParserProperties.ArrayOpens | src/parsing.rs:100-103 | `[` followed by an item that is neither an error nor `]` consumes the `[` and returns what the element routine returns, as an array |
| ParserProperties.SimpleArray | src/parsing.rs:81-133 | `parse_array` on `[ v1 , … , vn ]` yields the array of those values, consumes it all and records nothing |
| ParserProperties.ValueOpensArray | src/parsing.rs:65-67 | `parse_value` consumes a `[` and returns what `parse_array` returns from the next item |
| ParserProperties.DoubledOpenerArray | src/parsing.rs:48-79 | as written, `[ [ v1 , … , vn ]` is a value: the array of `v1 … vn`, with nothing recorded |
| ParserProperties.ArrayAfterValueAborts | src/parsing.rs:67 | as written, `[` followed by anything but `[` or a lexical error panics |
| ParserProperties.ObjectAfterValueAborts | src/parsing.rs:66 | as written, `{` followed by anything but `{` or a lexical error panics |
| ParserProperties.UntilSkipsRun | src/parsing.rs:332-349 | a run of non-`,`/`end`/`:` items is consumed exactly, up to the boundary, and the flag is set iff the run is non-empty |
| ParserProperties.ResyncReportsOnce | src/parsing.rs:330-357 | on a run of skippable items (no `,`, `end` or `:`) up to a boundary: exactly one ExpectedCommaOrEndWhileParsing(end), at the boundary, iff something was skipped, and the boundary itself is not consumed (after a `:` it can be, see `ColonConsumesDelimiter`) |
| ParserProperties.ColonIsNotSkipped | src/parsing.rs:340-343 | a `:` triggers a value parse and does not count as skipped |
| ParserProperties.ColonConsumesDelimiter | src/parsing.rs:340-343 | as written, a `,`, `]` or `}` right after a `:` is consumed with one ExpectedToken and the loop goes on |
| ParserProperties.ColonSwallowsComma | src/parsing.rs:330-357 | on `: , null ]` the routine stops after the `null`, at the `]`, with ExpectedToken and ExpectedCommaOrEndWhileParsing(']') |
| ParserProperties.ColonSwallowsEnd | src/parsing.rs:330-357 | on `: ]` the routine consumes the `]` and stops at the end of the input, with one ExpectedToken |
| ParserProperties.SeparatorCases | src/parsing.rs:289-328 | `,` then `end`: both consumed, ExpectedToken, true; `,` then other: one consumed, false; `end`: one consumed, true; absent or a lone `,`: EndOfFileWhileParsing(end), true; a lexical error is recorded and consumed; anything else records EndOfFileWhileParsing(end) and consumes nothing |
| ParserProperties.MemberWithStringKey | src/parsing.rs:184-199 | a string key and `:` insert key to value when the value parses, overwriting an earlier value of the key; members unchanged otherwise |
| ParserProperties.MemberWithBadKey | src/parsing.rs:200-211 | a non-string key before `:`, or a bare `:`, records KeyMustBeAString and still parses the value |
| ParserProperties.MemberWithoutColon | src/parsing.rs:212-216 | a string with no `:` records ExpectedColon and consumes only the string |
| ParserProperties.ParseOutcome | src/parsing.rs:24-46 | Ok iff no diagnostic, a value, and only whitespace after it; otherwise the recorded diagnostics exactly, in push order, whenever there are any; otherwise a single EndOfFileExpected |
| ParserProperties.ParsesNull | src/parsing.rs:366 | `null` parses to Null |
| ParserProperties.ParsesBools | src/parsing.rs:367-368 | `true` and `false` parse to the booleans |
| ParserProperties.ParsesNumber | src/parsing.rs:369 | `12321` parses to that number |
| ParserProperties.ParsesLoneString | src/parsing.rs:370-373 | a lone string unit parses to its inner text |
| ParserProperties.ParsesString | src/parsing.rs:370-373 | `"Hello World"` parses to `Hello World` |
| ParserProperties.ParsesDoubledOpener | src/parsing.rs:24-46 | `[[null,true]` (the units `[` `[` `null` `,` `true` `]`, no whitespace unit) is accepted as the array `[null, true]` |
| ParserProperties.SpacedDoubledOpenerAborts | src/parsing.rs:48-79 | `[[null, true]`, whose space is a whitespace unit after the `,`, makes `parse` panic: the element loop hands the whitespace unit to `parse_value` |
| ParserProperties.TrailingWhitespaceAccepted | src/parsing.rs:33-38 | whitespace after the value is drained and accepted |
| ParserProperties.RejectsSecondValue | src/parsing.rs:448-454 | `null null` gives one EndOfFileExpected at the end of input |
| ParserProperties.RejectsEmpty | src/parsing.rs:50-56 | empty input gives one EndOfFileWhileParsingValue |
| ParserProperties.RejectsUnterminatedString | src/parsing.rs:503-508 | `"fds` gives one ExpectedDoubleQuote |
| ParserProperties.RejectsInvalidNumber | src/parsing.rs:510-515 | a number the float parser refuses gives one InvalidNumber |
| ParserProperties.LeadingWhitespaceAborts | src/parsing.rs:75-77 | as written, a leading whitespace unit makes `parse` panic |
| ParserProperties.EmptyContainersAbort | src/parsing.rs:374-375 | as written, `[]` and `{}` make `parse` panic |

## Left out

- src/main.rs: file reading, timing and printing. These are I/O and a benchmark harness.
- src/parser.rs: a stub whose `parse` always returns `Null`.
- src/parse_errors.rs: type declarations with no behaviour.
- src/lexical_tokenization.rs: a superseded version of the splitter that does not compile. Its splitting is covered by `Lexical.TokenizeIntoStrings`.
- The reader `lexical::Reader` is not part of this model. Its items, its positions (`at`) and its guarantees (`WellFormed`: a string unit starts with `"`, a number unit is not empty) are parameters.
  - The assertions at src/parsing.rs:239, :253 and :271 are therefore taken as guarantees of the reader, not as panics.
- Float parsing is the parameter `isF64`. A number value is its accepted text, not an `f64`.
- Concrete lines and columns are not modelled. The test lemmas name positions through `at`.
- Only the ASCII whitespace characters are modelled. Byte versus character indexing is not modelled: strings are sequences of characters.
- Stack depth on deeply nested input is not modelled.
- The ordering of object members is not modelled: a `HashMap` is a `map`.
- The literal tokenizer tests at src/lexical.rs:135-172 are covered by general lemmas (`WhitespaceSeparates`, `PunctuationSeparates`, `QuotedPiece`, `SpaceSeparatedWords`) rather than checked on their literal inputs.
- ParserProperties.ParseOutcome: assumes fewer than `usize::MAX` items, so that `next(usize::MAX)` drains the reader.
- ParserSpec.Parse: its own contract says only that an error list is never empty. The full characterisation is `ParserProperties.ParseOutcome`.
- The nested-structure tests of src/parsing.rs (arrays, objects, the many-commas and missing-comma cases) have no lemmas of their own. As written they end in a panic before they reach their assertions (`ArrayAfterValueAborts`, `ObjectAfterValueAborts`, `LeadingWhitespaceAborts`).
