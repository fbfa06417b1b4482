/** The closed diagnostic taxonomy shared by the tokenizer and the parser (src/errors.rs). */
module Errors {
  import opened Wrappers

  /** One kind of defect. The delimiter-carrying variants name the `]` or `}` being looked for. */
  datatype ErrorCode =
    | ExpectedToken
    | ExpectedDoubleQuote
    | ExpectedColon
    | ExpectedCommaOrEndWhileParsing(end: char)
    | KeyMustBeAString
    | InvalidNumber(text: string)
    | EndOfFileExpected
    | EndOfFileWhileParsing(delimiter: char)
    | EndOfFileWhileParsingValue

  /** A diagnostic: a code stamped with a line and a column. */
  datatype Error = Error(code: ErrorCode, line: nat, col: nat)

  /** `Error::new`: the diagnostic holding exactly the given code, line and column. */
  function New(code: ErrorCode, line: nat, col: nat): (e: Error)
    ensures e.code == code && e.line == line && e.col == col
  {
    Error(code, line, col)
  }

  /**
   * Diagnostics compare field by field (the derived `PartialEq` the tests rely on): two
   * results of `Error::new` are equal exactly when their codes, lines and columns are.
   */
  lemma NewInjective(a: ErrorCode, l1: nat, c1: nat, b: ErrorCode, l2: nat, c2: nat)
    ensures New(a, l1, c1) == New(b, l2, c2) <==> a == b && l1 == l2 && c1 == c2
  {
  }

  predicate IsClosingDelimiter(c: char) {
    c == ']' || c == '}'
  }

  /** The variants whose message depends on a delimiter that must be `]` or `}`. */
  predicate NeedsClosingDelimiter(code: ErrorCode) {
    code.ExpectedCommaOrEndWhileParsing? || code.EndOfFileWhileParsing?
  }

  function Delimiter(code: ErrorCode): char
    requires NeedsClosingDelimiter(code)
  {
    if code.ExpectedCommaOrEndWhileParsing? then code.end else code.delimiter
  }

  const InvalidNumberPrefix := "Invalid number: "

  /**
   * The `Display` text of a code. `None` stands for the panic the source raises when a
   * delimiter-carrying code names anything but `]` or `}`.
   */
  function Display(code: ErrorCode): (r: Option<string>)
    ensures r.None? <==> NeedsClosingDelimiter(code) && !IsClosingDelimiter(Delimiter(code))
    ensures code.InvalidNumber? ==> r == Some(InvalidNumberPrefix + code.text)
    ensures r.Some? ==> |r.value| > 0
  {
    match code
    // One message, written as two literals: the verifier reads characters of a short literal
    // far more cheaply than of a long one.
    case ExpectedToken => Some("Expected a JSON object, " + "array, string, number, bool, or null.")
    case ExpectedDoubleQuote => Some("Expected '\"'")
    case ExpectedColon => Some("Expected ':'")
    case ExpectedCommaOrEndWhileParsing(end) =>
      if end == ']' then Some("Expected ',' or ']' while parsing array")
      else if end == '}' then Some("Expected ',' or '}' whiel parsing object")
      else None
    case KeyMustBeAString => Some("Key must be a string")
    case InvalidNumber(value) => Some(InvalidNumberPrefix + value)
    case EndOfFileWhileParsing(c) =>
      if c == ']' then Some("End of file while parsing a list")
      else if c == '}' then Some("End of file while parsing an object")
      else None
    case EndOfFileExpected => Some("End of file expected")
    case EndOfFileWhileParsingValue => Some("End of file while parsing a value")
  }

  /** Different codes never share a message, so a message identifies its code. */
  lemma DisplayInjective(a: ErrorCode, b: ErrorCode)
    requires Display(a).Some? && Display(a) == Display(b)
    ensures a == b
  {
    var m := Display(a).value;
    MessageInitial(a);
    MessageInitial(b);
    if a.InvalidNumber? {
      assert a.text == m[|InvalidNumberPrefix|..] == b.text;
    } else {
      FixedMessagesDiffer(a, b);
    }
  }

  /** Only the InvalidNumber messages start with an 'I'. */
  lemma MessageInitial(code: ErrorCode)
    requires Display(code).Some?
    ensures Display(code).value[0] == 'I' <==> code.InvalidNumber?
  {
    var m := Display(code).value;
    match code
    case InvalidNumber(v) => assert m[0] == InvalidNumberPrefix[0];
    case ExpectedToken =>
      assert m[0] == 'E';
    case ExpectedDoubleQuote => assert m[0] == 'E';
    case ExpectedColon => assert m[0] == 'E';
    case ExpectedCommaOrEndWhileParsing(end) => assert m[0] == 'E';
    case KeyMustBeAString => assert m[0] == 'K';
    case EndOfFileExpected => assert m[0] == 'E';
    case EndOfFileWhileParsing(d) => assert m[0] == 'E';
    case EndOfFileWhileParsingValue => assert m[0] == 'E';
  }

  lemma FixedMessagesDiffer(a: ErrorCode, b: ErrorCode)
    requires !a.InvalidNumber? && !b.InvalidNumber?
    requires Display(a).Some? && Display(a) == Display(b)
    ensures a == b
  {
    match a
    case ExpectedDoubleQuote =>
      assert Display(a).value[10] == '"';
    case ExpectedColon =>
      assert Display(a).value[10] == ':';
    case KeyMustBeAString =>
      assert Display(a).value[0] == 'K';
    case EndOfFileExpected =>
      assert Display(a).value[0] == 'E';
    case _ =>
  }
}
