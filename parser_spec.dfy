/**
 * The behaviour of `Parser` in src/parsing.rs as functions of the reader's items and the
 * parser's state. Each routine of the parser is a function from a state to its outcome and
 * the state it leaves; the class in parser.dfy is proved to compute exactly these.
 *
 * A routine that panics in the source yields `Aborted`; every caller passes `Aborted` on at
 * once, as unwinding would.
 */
module ParserSpec {
  import opened Wrappers
  import opened Errors
  import opened Reading

  /** A JSON value; a number is represented by the text the float parser accepted. */
  datatype Value =
    | Null
    | Bool(b: bool)
    | Number(text: string)
    | String(s: string)
    | Array(elements: seq<Value>)
    | Object(members: map<string, Value>)

  /** What a routine returned: a result, `None` in the source, or a panic. */
  datatype Outcome<+T> = Produced(value: T) | Absent | Aborted

  /** A routine's outcome together with the state it leaves behind. */
  datatype Ran<+T> = Ran(outcome: T, state: State)

  /** `usize::MAX`, the count `parse` asks `next` for to drain the reader. */
  const UsizeMax: nat := 0xFFFF_FFFF_FFFF_FFFF

  function FromOption<T>(o: Option<T>): Outcome<T> {
    if o.Some? then Produced(o.value) else Absent
  }

  /**
   * The number of quotes `parse_string` counts in `s`: a backslash directly followed by a
   * quote is skipped as a pair, every other quote counts.
   */
  function CountedQuotes(s: string): nat {
    if |s| == 0 then 0
    else if s[0] == '\\' && |s| > 1 && s[1] == '"' then CountedQuotes(s[2..])
    else (if s[0] == '"' then 1 else 0) + CountedQuotes(s[1..])
  }

  /** The condition under which `parse_string` accepts its raw text. */
  predicate IsClosedString(raw: string) {
    |raw| > 1 && CountedQuotes(raw) == 2 && raw[|raw| - 1] == '"'
  }

  /**
   * `parse_string`: a string unit is accepted when it is longer than one character, exactly
   * two quotes count and it ends with a quote; its value is the text between the outer
   * characters, escapes left as they are. Otherwise exactly one `ExpectedDoubleQuote` is
   * appended. Either way the unit is consumed.
   */
  function ParseString(src: Source, s: State, raw: string): (r: Ran<Option<Value>>)
    requires s.pos <= |src.items|
    requires |raw| > 0 && raw[0] == '"'
    ensures r.outcome.Some? <==> IsClosedString(raw)
    ensures r.outcome.Some? ==>
      r.outcome.value.String? && raw == "\"" + r.outcome.value.s + "\""
    ensures r.state.errors ==
      s.errors + (if r.outcome.Some? then [] else [CreateError(src, s, ExpectedDoubleQuote)])
    ensures r.state == Next(src, s, 1).(errors := r.state.errors)
    ensures Extends(src, s, r.state)
  {
    if IsClosedString(raw) then
      Ran(Some(Value.String(raw[1..|raw| - 1])), Next(src, s, 1))
    else
      Ran(None, Next(src, Push(s, CreateError(src, s, ExpectedDoubleQuote)), 1))
  }

  /**
   * `parse_number`: the text is a number exactly when the float parser accepts it; otherwise
   * one `InvalidNumber` carrying the text is appended. Either way the unit is consumed.
   */
  function ParseNumber(src: Source, s: State, raw: string): (r: Ran<Option<Value>>)
    requires s.pos <= |src.items|
    requires |raw| > 0
    ensures r.outcome.Some? <==> src.isF64(raw)
    ensures r.outcome.Some? ==> r.outcome.value == Value.Number(raw)
    ensures r.state.errors ==
      s.errors + (if r.outcome.Some? then [] else [CreateError(src, s, InvalidNumber(raw))])
    ensures r.state.pos == Next(src, s, 1).pos
  {
    if src.isF64(raw) then Ran(Some(Value.Number(raw)), Next(src, s, 1))
    else Ran(None, Next(src, Push(s, CreateError(src, s, InvalidNumber(raw))), 1))
  }

  /**
   * `parse_value`: takes the next item first and dispatches on it. A value is produced from a
   * literal or a nested array or object; an absent value always leaves a new diagnostic; an
   * item that is not there is reported as `EndOfFileWhileParsingValue`.
   */
  function ParseValue(src: Source, s: State): (r: Ran<Outcome<Value>>)
    requires Valid(src, s)
    decreases |src.items| - s.pos, 1
    ensures Extends(src, s, r.state)
    ensures s.pos < |src.items| ==> s.pos < r.state.pos
    ensures r.outcome.Absent? ==> |s.errors| < |r.state.errors|
  {
    var taken := Peek(src, s, 1);
    var t := Next(src, s, 1);
    if taken == [] then
      Ran(Absent, Push(t, CreateError(src, t, EndOfFileWhileParsingValue)))
    else
      assert src.items[s.pos] in src.items;
      match taken[0]
      case Err(e) => Ran(Absent, Push(t, e))
      case Ok(Null) => Ran(Produced(Value.Null), t)
      case Ok(Bool(raw)) =>
        if raw == "true" then Ran(Produced(Value.Bool(true)), t)
        else if raw == "false" then Ran(Produced(Value.Bool(false)), t)
        else Ran(Aborted, t)
      case Ok(String(raw)) =>
        var v := ParseString(src, t, raw);
        Ran(FromOption(v.outcome), v.state)
      case Ok(Number(raw)) =>
        var v := ParseNumber(src, t, raw);
        Ran(FromOption(v.outcome), v.state)
      case Ok(Punctuation(c)) =>
        if c == '{' then ParseObject(src, t)
        else if c == '[' then ParseArray(src, t)
        else if c in {',', '}', ']', '|'} then Ran(Absent, Push(t, CreateError(src, t, ExpectedToken)))
        else Ran(Aborted, t)
      case Ok(_) => Ran(Aborted, t)
  }

  /**
   * `parse_array`, which expects the next item to be the opening bracket. `[` `]` is the empty
   * array; a lone `[` is an unterminated array; anything else after `[` goes to the elements.
   */
  function ParseArray(src: Source, s: State): (r: Ran<Outcome<Value>>)
    requires Valid(src, s)
    decreases |src.items| - s.pos, 0
    ensures Extends(src, s, r.state)
    ensures r.outcome.Absent? ==> |s.errors| < |r.state.errors|
    ensures r.outcome.Produced? ==> r.outcome.value.Array?
  {
    var p := Peek(src, s, 2);
    if |p| > 0 && p[0].Err? then
      Ran(Absent, Next(src, Push(s, p[0].error), 1))
    else if p == [Ok(Punctuation('['))] then
      var t := Next(src, s, 1);
      Ran(Absent, Push(t, CreateError(src, t, EndOfFileWhileParsing(']'))))
    else if p == [Ok(Punctuation('[')), Ok(Punctuation(']'))] then
      Ran(Produced(Array([])), Next(src, s, 2))
    else if |p| > 0 && p[0] == Ok(Punctuation('[')) then
      var e := ParseArrayElements(src, Next(src, s, 1));
      Ran(match e.outcome
          case Produced(elements) => Produced(Array(elements))
          case Absent => Absent
          case Aborted => Aborted,
          e.state)
    else
      Ran(Aborted, s)
  }

  /**
   * `parse_array_elements`. On an exhausted reader it returns `None` and records nothing: the
   * error it builds is never pushed.
   */
  function ParseArrayElements(src: Source, s: State): (r: Ran<Outcome<seq<Value>>>)
    requires Valid(src, s)
    decreases |src.items| - s.pos, 5
    ensures Extends(src, s, r.state)
    ensures r.outcome.Absent? <==> s.pos == |src.items|
    ensures r.outcome.Absent? ==> r.state == s
  {
    if Peek(src, s, 1) == [] then Ran(Absent, s)
    else ElementsLoop(src, s, [])
  }

  /**
   * The loop of `parse_array_elements`, from a state at the top of an iteration with the
   * elements collected so far: a value (kept if produced), a resynchronisation, a separator.
   */
  function ElementsLoop(src: Source, s: State, elements: seq<Value>): (r: Ran<Outcome<seq<Value>>>)
    requires Valid(src, s)
    decreases |src.items| - s.pos, 4
    ensures Extends(src, s, r.state)
    ensures r.outcome.Produced? ==> elements <= r.outcome.value
    ensures !r.outcome.Absent?
  {
    var v := ParseValue(src, s);
    if v.outcome.Aborted? then Ran(Aborted, v.state)
    else
      var kept := if v.outcome.Produced? then elements + [v.outcome.value] else elements;
      var u := ParseUntilCommaOrEnd(src, v.state, ']');
      if u.outcome.Aborted? then Ran(Aborted, u.state)
      else
        var sep := ParseSequenceSeparator(src, u.state, ']');
        if sep.outcome then Ran(Produced(kept), sep.state)
        else ElementsLoop(src, sep.state, kept)
  }

  /** `parse_object`, the counterpart of `ParseArray` for braces. */
  function ParseObject(src: Source, s: State): (r: Ran<Outcome<Value>>)
    requires Valid(src, s)
    decreases |src.items| - s.pos, 0
    ensures Extends(src, s, r.state)
    ensures r.outcome.Absent? ==> |s.errors| < |r.state.errors|
    ensures r.outcome.Produced? ==> r.outcome.value.Object?
  {
    var p := Peek(src, s, 2);
    if |p| > 0 && p[0].Err? then
      Ran(Absent, Next(src, Push(s, p[0].error), 1))
    else if p == [Ok(Punctuation('{'))] then
      var t := Next(src, s, 1);
      Ran(Absent, Push(t, CreateError(src, t, EndOfFileWhileParsing('}'))))
    else if p == [Ok(Punctuation('{')), Ok(Punctuation('}'))] then
      Ran(Produced(Object(map[])), Next(src, s, 2))
    else if |p| > 0 && p[0] == Ok(Punctuation('{')) then
      var m := ParseObjectMembers(src, Next(src, s, 1));
      Ran(match m.outcome
          case Produced(members) => Produced(Object(members))
          case Absent => Absent
          case Aborted => Aborted,
          m.state)
    else
      Ran(Aborted, s)
  }

  /**
   * `parse_object_members`. Unlike the array case, an exhausted reader records an
   * unterminated object.
   */
  function ParseObjectMembers(src: Source, s: State): (r: Ran<Outcome<map<string, Value>>>)
    requires Valid(src, s)
    decreases |src.items| - s.pos, 5
    ensures Extends(src, s, r.state)
    ensures r.outcome.Absent? <==> s.pos == |src.items|
    ensures r.outcome.Absent? ==>
      r.state == Push(s, CreateError(src, s, EndOfFileWhileParsing('}')))
  {
    if Peek(src, s, 1) == [] then Ran(Absent, Push(s, CreateError(src, s, EndOfFileWhileParsing('}'))))
    else MembersLoop(src, s, map[])
  }

  /** The loop of `parse_object_members`: a member, a resynchronisation, a separator. */
  function MembersLoop(src: Source, s: State, members: map<string, Value>): (r: Ran<Outcome<map<string, Value>>>)
    requires Valid(src, s)
    decreases |src.items| - s.pos, 4
    ensures Extends(src, s, r.state)
    ensures !r.outcome.Absent?
  {
    var m := Member(src, s, members);
    if m.outcome.Aborted? then Ran(Aborted, m.state)
    else
      var u := ParseUntilCommaOrEnd(src, m.state, '}');
      if u.outcome.Aborted? then Ran(Aborted, u.state)
      else
        var sep := ParseSequenceSeparator(src, u.state, '}');
        if sep.outcome then Ran(Produced(m.outcome.value), sep.state)
        else MembersLoop(src, sep.state, m.outcome.value)
  }

  /** The value after a member's colon: `members` is kept whatever it parses to. */
  function Discarded(src: Source, s: State, members: map<string, Value>): (r: Ran<Outcome<map<string, Value>>>)
    requires Valid(src, s)
    decreases |src.items| - s.pos, 2
    ensures Extends(src, s, r.state)
    ensures r.outcome.Produced? ==> r.outcome.value == members
    ensures !r.outcome.Absent?
  {
    var v := ParseValue(src, s);
    Ran(if v.outcome.Aborted? then Aborted else Produced(members), v.state)
  }

  /**
   * One member, as the `match` at the top of the members loop reads it: a lexical error, a
   * string key and a colon, a colon after a key that is not a string, a bare colon, a string
   * with no colon, or anything else.
   */
  function Member(src: Source, s: State, members: map<string, Value>): (r: Ran<Outcome<map<string, Value>>>)
    requires Valid(src, s)
    decreases |src.items| - s.pos, 3
    ensures Extends(src, s, r.state)
    ensures !r.outcome.Absent?
  {
    var p := Peek(src, s, 2);
    if |p| > 0 && p[0].Err? then
      Ran(Produced(members), Next(src, Push(s, p[0].error), 1))
    else if |p| == 2 && p[0].Ok? && p[0].value.String? && p[1] == Ok(Punctuation(':')) then
      assert src.items[s.pos] in src.items;
      var k := ParseString(src, Next(src, s, 2), p[0].value.raw);
      match k.outcome
      case Some(String(key)) =>
        var v := ParseValue(src, k.state);
        Ran(match v.outcome
            case Produced(value) => Produced(members[key := value])
            case Absent => Produced(members)
            case Aborted => Aborted,
            v.state)
      case Some(_) => Ran(Aborted, k.state)
      case None => Discarded(src, k.state, members)
    else if |p| == 2 && p[1] == Ok(Punctuation(':')) then
      Discarded(src, Next(src, Push(s, CreateError(src, s, KeyMustBeAString)), 2), members)
    else if |p| > 0 && p[0] == Ok(Punctuation(':')) then
      Discarded(src, Next(src, Push(s, CreateError(src, s, KeyMustBeAString)), 1), members)
    else if |p| > 0 && p[0].Ok? && p[0].value.String? then
      Ran(Produced(members), Next(src, Push(s, CreateError(src, s, ExpectedColon)), 1))
    else if |p| > 0 then
      Ran(Produced(members), Next(src, Push(s, CreateError(src, s, KeyMustBeAString)), 1))
    else
      Ran(Aborted, s)
  }

  /**
   * `parse_sequence_separator`, which returns whether the sequence ended. Whenever the next
   * item is absent, `,` or `end` and it returns false, it has consumed an item.
   */
  function ParseSequenceSeparator(src: Source, s: State, end: char): (r: Ran<bool>)
    requires s.pos <= |src.items|
    ensures Extends(src, s, r.state)
    ensures AtBoundary(src, s, end) && !r.outcome ==> s.pos < r.state.pos
  {
    var p := Peek(src, s, 2);
    if |p| > 0 && p[0].Err? then
      Ran(false, Next(src, Push(s, p[0].error), 1))
    else if p == [] || p == [Ok(Punctuation(','))] then
      var t := Next(src, s, 1);
      Ran(true, Push(t, CreateError(src, t, EndOfFileWhileParsing(end))))
    else if |p| == 2 && p[0] == Ok(Punctuation(',')) && p[1] == Ok(Punctuation(end)) then
      var t := Next(src, s, 2);
      Ran(true, Push(t, CreateError(src, t, ExpectedToken)))
    else if p[0] == Ok(Punctuation(',')) then
      Ran(false, Next(src, s, 1))
    else if p[0] == Ok(Punctuation(end)) then
      Ran(true, Next(src, s, 1))
    else
      Ran(false, Push(s, CreateError(src, s, EndOfFileWhileParsing(end))))
  }

  /**
   * `parse_until_comma_or_end`: skips to the next `,` or `end`, parsing a value after each
   * stray `:`, and records one `ExpectedCommaOrEndWhileParsing(end)` if it skipped anything
   * else. Unless it panicked it stops at a boundary.
   */
  function ParseUntilCommaOrEnd(src: Source, s: State, end: char): (r: Ran<Outcome<()>>)
    requires Valid(src, s)
    decreases |src.items| - s.pos, 3
    ensures Extends(src, s, r.state)
    ensures !r.outcome.Absent?
    ensures r.outcome.Produced? ==> AtBoundary(src, r.state, end)
  {
    var l := UntilLoop(src, s, end, false);
    if l.outcome.Aborted? then Ran(Aborted, l.state)
    else if l.outcome.value then
      Ran(Produced(()), Push(l.state, CreateError(src, l.state, ExpectedCommaOrEndWhileParsing(end))))
    else Ran(Produced(()), l.state)
  }

  /** The loop of `parse_until_comma_or_end`, with the `seen_non_comma_value` flag. */
  function UntilLoop(src: Source, s: State, end: char, seen: bool): (r: Ran<Outcome<bool>>)
    requires Valid(src, s)
    decreases |src.items| - s.pos, 2
    ensures Extends(src, s, r.state)
    ensures !r.outcome.Absent?
    ensures r.outcome.Produced? ==> AtBoundary(src, r.state, end)
    ensures seen && r.outcome.Produced? ==> r.outcome.value
  {
    var p := Peek(src, s, 1);
    if p == [] || p[0] == Ok(Punctuation(',')) || p[0] == Ok(Punctuation(end)) then
      Ran(Produced(seen), s)
    else if p[0] == Ok(Punctuation(':')) then
      var v := ParseValue(src, Next(src, s, 1));
      if v.outcome.Aborted? then Ran(Aborted, v.state)
      else UntilLoop(src, v.state, end, seen)
    else
      UntilLoop(src, Next(src, s, 1), end, true)
  }

  /**
   * `Parser::parse`: a panic, the diagnostics in the order they were recorded, a single
   * `EndOfFileExpected`, or the value.
   */
  function Parse(src: Source): (r: Outcome<Result<Value, seq<Error>>>)
    requires WellFormed(src.items)
    ensures r.Produced? && r.value.Err? ==> r.value.error != []
  {
    var v := ParseValue(src, State(0, []));
    if v.outcome.Aborted? then Aborted
    else if v.state.errors != [] then Produced(Err(v.state.errors))
    else if v.outcome.Absent? || !AllWhitespace(Peek(src, v.state, UsizeMax)) then
      var t := if v.outcome.Absent? then v.state else Next(src, v.state, UsizeMax);
      Produced(Err([CreateError(src, t, EndOfFileExpected)]))
    else Produced(Ok(v.outcome.value))
  }
}
