/**
 * The lookahead reader the parser of src/parsing.rs drives. It is called `lexical::Reader`
 * there, but src/lexical.rs defines no such type, so the model states only what the parser
 * relies on: a finite sequence of items, each a lexical unit or a lexical error, a cursor into
 * it, and a map from cursor values to positions in the text.
 */
module Reading {
  import opened Wrappers
  import opened Errors

  /**
   * A lexical unit as the parser sees it. Unlike `lexical::Token`, the literal variants carry
   * their raw text, quotes included for strings; whitespace and line breaks are units too.
   */
  datatype Lexeme =
    | NewLine
    | Whitespace(count: nat)
    | Null
    | Bool(raw: string)
    | String(raw: string)
    | Number(raw: string)
    | Punctuation(c: char)
  {
    predicate IsWhitespace() {
      NewLine? || Whitespace?
    }
  }

  /** What the reader yields: a unit, or the error a span that matched no unit produced. */
  type Item = Result<Lexeme, Error>

  datatype Position = Position(line: nat, col: nat)

  /**
   * Everything a parse call depends on: the items, the line and column the reader reports
   * when its cursor is at a given index, and the 64-bit float parser (`str::parse::<f64>`),
   * reduced to whether it accepts a text.
   */
  datatype Source = Source(items: seq<Item>, at: nat -> Position, isF64: string -> bool)

  /**
   * What the reader guarantees by classifying units on their first character: a string unit
   * starts with '"' and a number unit is not empty.
   */
  predicate WellFormedLexeme(l: Lexeme) {
    (l.String? ==> |l.raw| > 0 && l.raw[0] == '"') && (l.Number? ==> |l.raw| > 0)
  }

  predicate WellFormed(items: seq<Item>) {
    forall item <- items :: item.Ok? ==> WellFormedLexeme(item.value)
  }

  /** The part of a parse call that changes: the reader's cursor and the diagnostics so far. */
  datatype State = State(pos: nat, errors: seq<Error>)

  predicate Valid(src: Source, s: State) {
    s.pos <= |src.items| && WellFormed(src.items)
  }

  /** `t` is a later state than `s`: the cursor has not moved back and no diagnostic was lost. */
  predicate Extends(src: Source, s: State, t: State) {
    s.pos <= t.pos <= |src.items| && s.errors <= t.errors
  }

  function Min(a: nat, b: nat): nat {
    if a <= b then a else b
  }

  /** `peek(n)`: the next min(n, remaining) items, not consumed. */
  function Peek(src: Source, s: State, n: nat): (r: seq<Item>)
    requires s.pos <= |src.items|
    ensures |r| == Min(n, |src.items| - s.pos)
    ensures forall i :: 0 <= i < |r| ==> r[i] == src.items[s.pos + i]
  {
    src.items[s.pos..Min(s.pos + n, |src.items|)]
  }

  /** The cursor after `next(n)`, which consumes the items `peek(n)` shows. */
  function Next(src: Source, s: State, n: nat): (t: State)
    requires s.pos <= |src.items|
    ensures t.errors == s.errors
    ensures t.pos == s.pos + |Peek(src, s, n)|
  {
    s.(pos := Min(s.pos + n, |src.items|))
  }

  /** `create_error(code)`: the code stamped with the reader's current position. */
  function CreateError(src: Source, s: State, code: ErrorCode): (e: Error)
    ensures e.code == code && e.line == src.at(s.pos).line && e.col == src.at(s.pos).col
  {
    Error(code, src.at(s.pos).line, src.at(s.pos).col)
  }

  function Push(s: State, e: Error): State {
    s.(errors := s.errors + [e])
  }

  /** The next item is the punctuation character `c`. */
  predicate NextIs(src: Source, s: State, c: char)
    requires s.pos <= |src.items|
  {
    s.pos < |src.items| && src.items[s.pos] == Ok(Punctuation(c))
  }

  /** Where the element and member loops may decide on a separator: at the end, `,` or `end`. */
  predicate AtBoundary(src: Source, s: State, end: char)
    requires s.pos <= |src.items|
  {
    s.pos == |src.items| || NextIs(src, s, ',') || NextIs(src, s, end)
  }

  predicate AllWhitespace(items: seq<Item>) {
    forall item <- items :: item.Ok? && item.value.IsWhitespace()
  }
}
