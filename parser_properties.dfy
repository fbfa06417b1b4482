/**
 * Properties of the parser of src/parsing.rs, stated over the functions of `ParserSpec`
 * (and so, through the methods' postconditions, over the class `Parsing.Parser`).
 */
module ParserProperties {
  import opened Wrappers
  import opened Errors
  import opened Reading
  import opened ParserSpec

  // ---------------------------------------------------------------------------------------
  // parse_string

  /** Appending a quote adds one to the count unless a backslash before it pairs with it. */
  lemma {:induction false} CountedQuotesAppendQuote(x: string)
    ensures x == [] || x[|x| - 1] != '\\' ==> CountedQuotes(x + "\"") == CountedQuotes(x) + 1
    ensures CountedQuotes(x) <= CountedQuotes(x + "\"")
    decreases |x|
  {
    if x == [] {
      assert x + "\"" == "\"";
    } else if x[0] == '\\' && |x| > 1 && x[1] == '"' {
      assert (x + "\"")[2..] == x[2..] + "\"";
      CountedQuotesAppendQuote(x[2..]);
    } else if |x| == 1 {
      assert x + "\"" == [x[0], '"'];
      assert [x[0], '"'][1..] == "\"";
    } else {
      assert (x + "\"")[1..] == x[1..] + "\"";
      CountedQuotesAppendQuote(x[1..]);
    }
  }

  /** Text with neither quotes nor backslashes counts no quote. */
  lemma {:induction false} PlainText(x: string)
    requires forall i :: 0 <= i < |x| ==> x[i] != '"' && x[i] != '\\'
    ensures CountedQuotes(x) == 0
    decreases |x|
  {
    if x != [] {
      PlainText(x[1..]);
    }
  }

  /**
   * A string unit whose inner text has no quote that counts, and does not end in a backslash,
   * is accepted, and its value is exactly that inner text (escapes kept verbatim).
   */
  lemma StringRoundTrip(src: Source, s: State, inner: string)
    requires s.pos <= |src.items|
    requires CountedQuotes(inner) == 0
    requires inner == [] || inner[|inner| - 1] != '\\'
    ensures ParseString(src, s, "\"" + inner + "\"") == Ran(Some(Value.String(inner)), Next(src, s, 1))
  {
    var raw := "\"" + inner + "\"";
    assert IsClosedString(raw) by {
      CountedQuotesAppendQuote(inner);
      assert raw[0] == '"' && raw[1..] == inner + "\"";
      assert CountedQuotes(raw) == 1 + CountedQuotes(inner + "\"");
    }
    assert raw[1..|raw| - 1] == inner;
  }

  /** Two or more counted quotes inside the outer ones always make the unit unterminated. */
  lemma InnerQuoteRejected(src: Source, s: State, inner: string)
    requires s.pos <= |src.items|
    requires CountedQuotes(inner) >= 2
    ensures ParseString(src, s, "\"" + inner + "\"") ==
      Ran(None, Next(src, Push(s, CreateError(src, s, ExpectedDoubleQuote)), 1))
  {
    var raw := "\"" + inner + "\"";
    CountedQuotesAppendQuote(inner);
    assert raw[1..] == inner + "\"";
  }

  // ---------------------------------------------------------------------------------------
  // parse_array / parse_object fast paths

  /** `[` `]` is the empty array and consumes exactly the two brackets. */
  lemma EmptyArray(src: Source, s: State)
    requires Valid(src, s)
    requires NextIs(src, s, '[') && NextIs(src, Next(src, s, 1), ']')
    ensures ParseArray(src, s) == Ran(Produced(Array([])), s.(pos := s.pos + 2))
  {
    assert Peek(src, s, 2) == [Ok(Punctuation('[')), Ok(Punctuation(']'))];
  }

  /** A lone `[` at the end of the input is consumed and reported as an unterminated array. */
  lemma LoneArrayOpener(src: Source, s: State)
    requires Valid(src, s)
    requires NextIs(src, s, '[') && s.pos + 1 == |src.items|
    ensures ParseArray(src, s) ==
      Ran(Absent, State(|src.items|, s.errors + [CreateError(src, State(|src.items|, s.errors), EndOfFileWhileParsing(']'))]))
  {
    assert Peek(src, s, 2) == [Ok(Punctuation('['))];
  }

  /** `{` `}` is the empty object and consumes exactly the two braces. */
  lemma EmptyObject(src: Source, s: State)
    requires Valid(src, s)
    requires NextIs(src, s, '{') && NextIs(src, Next(src, s, 1), '}')
    ensures ParseObject(src, s) == Ran(Produced(Object(map[])), s.(pos := s.pos + 2))
  {
    assert Peek(src, s, 2) == [Ok(Punctuation('{')), Ok(Punctuation('}'))];
  }

  /** A lone `{` at the end of the input is consumed and reported as an unterminated object. */
  lemma LoneObjectOpener(src: Source, s: State)
    requires Valid(src, s)
    requires NextIs(src, s, '{') && s.pos + 1 == |src.items|
    ensures ParseObject(src, s) ==
      Ran(Absent, State(|src.items|, s.errors + [CreateError(src, State(|src.items|, s.errors), EndOfFileWhileParsing('}'))]))
  {
    assert Peek(src, s, 2) == [Ok(Punctuation('{'))];
  }

  /**
   * As written, `parse_value` consumes the `[` before `parse_array` looks for it, so an array
   * whose first element is not itself an array makes the parser panic.
   */
  lemma ArrayAfterValueAborts(src: Source, s: State)
    requires Valid(src, s)
    requires NextIs(src, s, '[')
    requires s.pos + 1 == |src.items| || (src.items[s.pos + 1].Ok? && src.items[s.pos + 1] != Ok(Punctuation('[')))
    ensures ParseValue(src, s).outcome == Aborted
  {
    var t := Next(src, s, 1);
    assert Peek(src, s, 1) == [Ok(Punctuation('['))];
    if t.pos < |src.items| {
      assert Peek(src, t, 2)[0] == src.items[s.pos + 1];
    }
  }

  /** The same for objects: `{` followed by anything but another `{` or an error panics. */
  lemma ObjectAfterValueAborts(src: Source, s: State)
    requires Valid(src, s)
    requires NextIs(src, s, '{')
    requires s.pos + 1 == |src.items| || (src.items[s.pos + 1].Ok? && src.items[s.pos + 1] != Ok(Punctuation('{')))
    ensures ParseValue(src, s).outcome == Aborted
  {
    var t := Next(src, s, 1);
    assert Peek(src, s, 1) == [Ok(Punctuation('{'))];
    if t.pos < |src.items| {
      assert Peek(src, t, 2)[0] == src.items[s.pos + 1];
    }
  }

  // ---------------------------------------------------------------------------------------
  // parse_array_elements on a well-formed list

  /** A value `parse_value` reads from exactly one item: `null`, `true` or `false`. */
  predicate IsSimple(v: Value) {
    v.Null? || v.Bool?
  }

  function SimpleItem(v: Value): Item
    requires IsSimple(v)
  {
    if v.Null? then Ok(Lexeme.Null) else if v.b then Ok(Lexeme.Bool("true")) else Ok(Lexeme.Bool("false"))
  }

  /** From index `p` on, `items` holds the list `v1 , v2 , … , vn ]` of the simple values `vals`. */
  predicate ListAt(items: seq<Item>, p: nat, vals: seq<Value>)
    decreases |vals|
  {
    && |vals| > 0 && IsSimple(vals[0]) && p + 1 < |items| && items[p] == SimpleItem(vals[0])
    && if |vals| == 1 then items[p + 1] == Ok(Punctuation(']'))
       else items[p + 1] == Ok(Punctuation(',')) && ListAt(items, p + 2, vals[1..])
  }

  /** One turn of the elements loop on a simple value followed by a `,` or the `]`. */
  lemma SimpleTurn(src: Source, s: State, acc: seq<Value>, v: Value)
    requires Valid(src, s) && IsSimple(v) && s.pos + 1 < |src.items|
    requires src.items[s.pos] == SimpleItem(v)
    requires src.items[s.pos + 1] == Ok(Punctuation(',')) || src.items[s.pos + 1] == Ok(Punctuation(']'))
    ensures var sep := ParseSequenceSeparator(src, s.(pos := s.pos + 1), ']');
      ElementsLoop(src, s, acc) ==
        if sep.outcome then Ran(Produced(acc + [v]), sep.state) else ElementsLoop(src, sep.state, acc + [v])
  {
    var t := s.(pos := s.pos + 1);
    assert Peek(src, s, 1) == [SimpleItem(v)];
    assert ParseValue(src, s) == Ran(Produced(v), t);
    assert Peek(src, t, 1) == [src.items[s.pos + 1]];
    assert ParseUntilCommaOrEnd(src, t, ']') == Ran(Produced(()), t);
  }

  /** The separator after a list element: `]` ends the list, `,` before a simple value goes on. */
  lemma SeparatorAt(src: Source, s: State, next: Item)
    requires s.pos < |src.items|
    requires src.items[s.pos] == Ok(Punctuation(']')) ||
      (src.items[s.pos] == Ok(Punctuation(',')) && s.pos + 1 < |src.items| && src.items[s.pos + 1] == next &&
       next.Ok? && !next.value.Punctuation?)
    ensures ParseSequenceSeparator(src, s, ']') ==
      Ran(src.items[s.pos] == Ok(Punctuation(']')), s.(pos := s.pos + 1))
  {
    if s.pos + 1 < |src.items| {
      assert Peek(src, s, 2) == [src.items[s.pos], src.items[s.pos + 1]];
    } else {
      assert Peek(src, s, 2) == [src.items[s.pos]];
    }
  }

  /**
   * The elements loop over `v1 , … , vn ]`: each value is collected in order, the loop
   * consumes exactly the list through its `]`, and no diagnostic is recorded.
   */
  lemma {:induction false} SimpleElements(src: Source, s: State, acc: seq<Value>, vals: seq<Value>)
    requires Valid(src, s) && ListAt(src.items, s.pos, vals)
    ensures ElementsLoop(src, s, acc) == Ran(Produced(acc + vals), State(s.pos + 2 * |vals|, s.errors))
    decreases |vals|, 1
  {
    if |vals| == 1 {
      SimpleLast(src, s, acc, vals);
    } else {
      SimpleMore(src, s, acc, vals);
    }
  }

  /** A list of two or more elements: the first, then the rest of the list after the `,`. */
  lemma {:induction false} SimpleMore(src: Source, s: State, acc: seq<Value>, vals: seq<Value>)
    requires Valid(src, s) && ListAt(src.items, s.pos, vals) && |vals| > 1
    ensures ElementsLoop(src, s, acc) == Ran(Produced(acc + vals), State(s.pos + 2 * |vals|, s.errors))
    decreases |vals|, 0
  {
    var rest, t, kept := vals[1..], State(s.pos + 2, s.errors), acc + [vals[0]];
    assert kept + rest == acc + vals by {
      assert vals == [vals[0]] + rest;
    }
    assert t.pos + 2 * |rest| == s.pos + 2 * |vals|;
    SimpleNext(src, s, acc, vals);
    SimpleElements(src, t, kept, rest);
  }

  /** The last element: the loop collects it and stops after the `]`. */
  lemma SimpleLast(src: Source, s: State, acc: seq<Value>, vals: seq<Value>)
    requires Valid(src, s) && ListAt(src.items, s.pos, vals) && |vals| == 1
    ensures ElementsLoop(src, s, acc) == Ran(Produced(acc + vals), State(s.pos + 2, s.errors))
  {
    var t := State(s.pos + 1, s.errors);
    assert ParseSequenceSeparator(src, t, ']') == Ran(true, State(s.pos + 2, s.errors)) by {
      SeparatorAt(src, t, Ok(Lexeme.Null));
    }
    assert acc + vals == acc + [vals[0]] by {
      assert vals == [vals[0]];
    }
    SimpleTurn(src, s, acc, vals[0]);
  }

  /** An element before a `,`: the loop collects it and goes on after the `,`. */
  lemma SimpleNext(src: Source, s: State, acc: seq<Value>, vals: seq<Value>)
    requires Valid(src, s) && ListAt(src.items, s.pos, vals) && |vals| > 1
    ensures ElementsLoop(src, s, acc) == ElementsLoop(src, State(s.pos + 2, s.errors), acc + [vals[0]])
  {
    var t := State(s.pos + 1, s.errors);
    assert ParseSequenceSeparator(src, t, ']') == Ran(false, State(s.pos + 2, s.errors)) by {
      SeparatorAt(src, t, SimpleItem(vals[1]));
    }
    SimpleTurn(src, s, acc, vals[0]);
  }

  /** `[` followed by an item that is neither a lexical error nor `]` hands over to the elements. */
  lemma ArrayOpens(src: Source, s: State)
    requires Valid(src, s) && NextIs(src, s, '[') && s.pos + 1 < |src.items|
    requires src.items[s.pos + 1].Ok? && src.items[s.pos + 1] != Ok(Punctuation(']'))
    ensures var e := ParseArrayElements(src, State(s.pos + 1, s.errors));
      ParseArray(src, s) == Ran(match e.outcome
        case Produced(elements) => Produced(Array(elements))
        case Absent => Absent
        case Aborted => Aborted, e.state)
  {
    assert Next(src, s, 1) == State(s.pos + 1, s.errors);
    assert Peek(src, s, 2) == [Ok(Punctuation('[')), src.items[s.pos + 1]];
  }

  /** `parse_array` on `[ v1 , … , vn ]` yields the array of those values and records nothing. */
  lemma SimpleArray(src: Source, s: State, vals: seq<Value>)
    requires Valid(src, s) && NextIs(src, s, '[') && ListAt(src.items, s.pos + 1, vals)
    ensures ParseArray(src, s) == Ran(Produced(Array(vals)), State(s.pos + 1 + 2 * |vals|, s.errors))
  {
    var t := State(s.pos + 1, s.errors);
    assert ParseArrayElements(src, t) == Ran(Produced(vals), State(s.pos + 1 + 2 * |vals|, s.errors)) by {
      assert Peek(src, t, 1) == [SimpleItem(vals[0])];
      SimpleElements(src, t, [], vals);
      assert [] + vals == vals;
    }
    ArrayOpens(src, s);
  }

  /**
   * As written, the array routines are reached only through a doubled opener: `parse_value`
   * takes the first `[`, and `parse_array` reads the list after the second one. So
   * `[ [ v1 , … , vn ]` is a value, the array of `v1 … vn`.
   */
  lemma DoubledOpenerArray(src: Source, s: State, vals: seq<Value>)
    requires Valid(src, s) && NextIs(src, s, '[') && NextIs(src, Next(src, s, 1), '[')
    requires ListAt(src.items, s.pos + 2, vals)
    ensures ParseValue(src, s) == Ran(Produced(Array(vals)), State(s.pos + 2 + 2 * |vals|, s.errors))
  {
    var t := State(s.pos + 1, s.errors);
    assert ParseArray(src, t) == Ran(Produced(Array(vals)), State(s.pos + 2 + 2 * |vals|, s.errors)) by {
      SimpleArray(src, t, vals);
    }
    ValueOpensArray(src, s);
  }

  /** `parse_value` takes a `[` and hands the rest to `parse_array`. */
  lemma ValueOpensArray(src: Source, s: State)
    requires Valid(src, s) && NextIs(src, s, '[')
    ensures ParseValue(src, s) == ParseArray(src, State(s.pos + 1, s.errors))
  {
    assert Peek(src, s, 1) == [Ok(Punctuation('['))];
    assert Next(src, s, 1) == State(s.pos + 1, s.errors);
  }

  /** The input `[[null,true]`, with no whitespace unit, is accepted as the array `[null, true]`. */
  lemma ParsesDoubledOpener(at: nat -> Position, isF64: string -> bool)
    ensures Parse(Source([Ok(Punctuation('[')), Ok(Punctuation('[')), Ok(Lexeme.Null), Ok(Punctuation(',')),
      Ok(Lexeme.Bool("true")), Ok(Punctuation(']'))], at, isF64)) ==
      Produced(Ok(Array([Value.Null, Value.Bool(true)])))
  {
    var src := Source([Ok(Punctuation('[')), Ok(Punctuation('[')), Ok(Lexeme.Null), Ok(Punctuation(',')),
      Ok(Lexeme.Bool("true")), Ok(Punctuation(']'))], at, isF64);
    var vals := [Value.Null, Value.Bool(true)];
    assert ListAt(src.items, 4, vals[1..]);
    DoubledOpenerArray(src, State(0, []), vals);
    assert Peek(src, State(6, []), UsizeMax) == [];
  }

  /**
   * With a space after the comma, `[[null, true]` makes the parser panic: the separator
   * consumes the `,` alone, and the element loop hands the whitespace unit to `parse_value`.
   */
  lemma SpacedDoubledOpenerAborts(at: nat -> Position, isF64: string -> bool)
    ensures Parse(Source([Ok(Punctuation('[')), Ok(Punctuation('[')), Ok(Lexeme.Null), Ok(Punctuation(',')),
      Ok(Whitespace(1)), Ok(Lexeme.Bool("true")), Ok(Punctuation(']'))], at, isF64)) == Aborted
  {
    var src := Source([Ok(Punctuation('[')), Ok(Punctuation('[')), Ok(Lexeme.Null), Ok(Punctuation(',')),
      Ok(Whitespace(1)), Ok(Lexeme.Bool("true")), Ok(Punctuation(']'))], at, isF64);
    var t := State(2, []);
    assert ParseValue(src, State(4, [])).outcome.Aborted? by {
      assert Peek(src, State(4, []), 1) == [Ok(Whitespace(1))];
    }
    assert ParseSequenceSeparator(src, State(3, []), ']') == Ran(false, State(4, [])) by {
      SeparatorAt(src, State(3, []), Ok(Whitespace(1)));
    }
    SimpleTurn(src, t, [], Value.Null);
    assert ElementsLoop(src, t, []).outcome.Aborted?;
    assert ParseArrayElements(src, t).outcome.Aborted? by {
      assert Peek(src, t, 1) == [Ok(Lexeme.Null)];
    }
    ArrayOpens(src, State(1, []));
    ValueOpensArray(src, State(0, []));
  }

  // ---------------------------------------------------------------------------------------
  // parse_until_comma_or_end

  /** An item the resynchronisation loop skips: neither `,`, nor `end`, nor `:`. */
  predicate Skippable(item: Item, end: char) {
    item != Ok(Punctuation(',')) && item != Ok(Punctuation(end)) && item != Ok(Punctuation(':'))
  }

  /**
   * The loop skips a run of skippable items up to the next boundary, consuming exactly the
   * run, and sets its flag exactly when the run is not empty.
   */
  lemma {:induction false} UntilSkipsRun(src: Source, s: State, end: char, seen: bool, k: nat)
    requires Valid(src, s) && s.pos <= k <= |src.items|
    requires forall i :: s.pos <= i < k ==> Skippable(src.items[i], end)
    requires AtBoundary(src, s.(pos := k), end)
    ensures UntilLoop(src, s, end, seen) == Ran(Produced(seen || s.pos < k), s.(pos := k))
    decreases k - s.pos
  {
    if s.pos < k {
      assert Skippable(src.items[s.pos], end);
      UntilSkipsRun(src, Next(src, s, 1), end, true, k);
    }
  }

  /**
   * `parse_until_comma_or_end` over a run of skippable items: it stops at the boundary and
   * appends exactly one `ExpectedCommaOrEndWhileParsing(end)`, stamped there, if and only if
   * the run is not empty. At a boundary it consumes nothing: `,` and `end` are never taken.
   */
  lemma ResyncReportsOnce(src: Source, s: State, end: char, k: nat)
    requires Valid(src, s) && s.pos <= k <= |src.items|
    requires forall i :: s.pos <= i < k ==> Skippable(src.items[i], end)
    requires AtBoundary(src, s.(pos := k), end)
    ensures ParseUntilCommaOrEnd(src, s, end) == Ran(Produced(()), State(k,
      s.errors + (if s.pos < k then [CreateError(src, State(k, s.errors), ExpectedCommaOrEndWhileParsing(end))] else [])))
  {
    UntilSkipsRun(src, s, end, false, k);
  }

  /**
   * A `:` is not a skipped item: the loop parses the value after it and carries on with its
   * flag unchanged, so a `:` followed by a well-placed value records nothing of its own.
   */
  lemma ColonIsNotSkipped(src: Source, s: State, end: char)
    requires Valid(src, s) && NextIs(src, s, ':') && end != ':'
    ensures var v := ParseValue(src, Next(src, s, 1));
      !v.outcome.Aborted? ==> ParseUntilCommaOrEnd(src, s, end) == ParseUntilCommaOrEnd(src, v.state, end)
  {
    assert Peek(src, s, 1) == [Ok(Punctuation(':'))];
  }

  /**
   * As written, a `:` makes the loop parse a value from whatever follows it, so a `,`, `]` or
   * `}` right after a stray `:` is consumed (with `ExpectedToken`) rather than stopping the
   * loop: the resynchronisation can run past the delimiter it is looking for.
   */
  lemma ColonConsumesDelimiter(src: Source, s: State, end: char, seen: bool, d: char)
    requires Valid(src, s) && s.pos + 1 < |src.items| && end != ':'
    requires NextIs(src, s, ':') && src.items[s.pos + 1] == Ok(Punctuation(d))
    requires d == ',' || d == ']' || d == '}'
    ensures var t := State(s.pos + 2, s.errors);
      UntilLoop(src, s, end, seen) == UntilLoop(src, Push(t, CreateError(src, t, ExpectedToken)), end, seen)
  {
    var t := Next(src, s, 1);
    assert Peek(src, s, 1) == [Ok(Punctuation(':'))];
    assert Peek(src, t, 1) == [Ok(Punctuation(d))];
  }

  /**
   * Resynchronising for `]` on `: , null ]`: the `,` after the stray `:` is taken as a value,
   * so the routine goes past it and past `null`, and stops only at the `]`, with two
   * diagnostics.
   */
  lemma ColonSwallowsComma(at: nat -> Position, isF64: string -> bool)
    ensures var src := Source([Ok(Punctuation(':')), Ok(Punctuation(',')), Ok(Lexeme.Null), Ok(Punctuation(']'))], at, isF64);
      ParseUntilCommaOrEnd(src, State(0, []), ']') == Ran(Produced(()),
        State(3, [CreateError(src, State(2, []), ExpectedToken),
                  CreateError(src, State(3, []), ExpectedCommaOrEndWhileParsing(']'))]))
  {
    var src := Source([Ok(Punctuation(':')), Ok(Punctuation(',')), Ok(Lexeme.Null), Ok(Punctuation(']'))], at, isF64);
    var e := CreateError(src, State(2, []), ExpectedToken);
    assert UntilLoop(src, State(0, []), ']', false) == Ran(Produced(true), State(3, [e])) by {
      ColonConsumesDelimiter(src, State(0, []), ']', false, ',');
      UntilSkipsRun(src, State(2, [e]), ']', false, 3);
    }
  }

  /** Resynchronising for `]` on `: ]`: the `]` itself is consumed, and the input runs out. */
  lemma ColonSwallowsEnd(at: nat -> Position, isF64: string -> bool)
    ensures var src := Source([Ok(Punctuation(':')), Ok(Punctuation(']'))], at, isF64);
      ParseUntilCommaOrEnd(src, State(0, []), ']') ==
        Ran(Produced(()), State(2, [CreateError(src, State(2, []), ExpectedToken)]))
  {
    var src := Source([Ok(Punctuation(':')), Ok(Punctuation(']'))], at, isF64);
    var e := CreateError(src, State(2, []), ExpectedToken);
    assert UntilLoop(src, State(0, []), ']', false) == Ran(Produced(false), State(2, [e])) by {
      ColonConsumesDelimiter(src, State(0, []), ']', false, ']');
      UntilSkipsRun(src, State(2, [e]), ']', false, 2);
    }
  }

  // ---------------------------------------------------------------------------------------
  // parse_sequence_separator

  /** The cases of `parse_sequence_separator`, for a closing delimiter other than `,`. */
  lemma SeparatorCases(src: Source, s: State, end: char)
    requires s.pos <= |src.items| && end != ','
    ensures var r := ParseSequenceSeparator(src, s, end);
      var one := Next(src, s, 1);
      var two := Next(src, s, 2);
      && (NextIs(src, s, ',') && NextIs(src, one, end) ==>
            r == Ran(true, Push(two, CreateError(src, two, ExpectedToken))))
      && (NextIs(src, s, ',') && one.pos < |src.items| && !NextIs(src, one, end) ==>
            r == Ran(false, one))
      && (NextIs(src, s, end) ==> r == Ran(true, one))
      && (s.pos == |src.items| || (NextIs(src, s, ',') && one.pos == |src.items|) ==>
            r == Ran(true, Push(one, CreateError(src, one, EndOfFileWhileParsing(end)))))
      && (s.pos < |src.items| && src.items[s.pos].Err? ==>
            r == Ran(false, Push(one, src.items[s.pos].error)))
      && (!AtBoundary(src, s, end) && src.items[s.pos].Ok? ==>
            r == Ran(false, Push(s, CreateError(src, s, EndOfFileWhileParsing(end)))))
  {
    if s.pos + 1 < |src.items| {
      assert Peek(src, s, 2) == [src.items[s.pos], src.items[s.pos + 1]];
    } else if s.pos < |src.items| {
      assert Peek(src, s, 2) == [src.items[s.pos]];
    }
  }

  // ---------------------------------------------------------------------------------------
  // Object members

  /**
   * A well-formed string key and a colon: the key is inserted with the value when the value
   * parses, replacing any earlier value of that key, and the members are unchanged otherwise.
   * As written, `parse_string` takes one more item after the key and the colon, so the value
   * is read from the third item on.
   */
  lemma MemberWithStringKey(src: Source, s: State, members: map<string, Value>, inner: string)
    requires Valid(src, s) && s.pos + 1 < |src.items|
    requires src.items[s.pos] == Ok(Lexeme.String("\"" + inner + "\""))
    requires CountedQuotes(inner) == 0 && (inner == [] || inner[|inner| - 1] != '\\')
    requires NextIs(src, Next(src, s, 1), ':')
    ensures var v := ParseValue(src, Next(src, s, 3));
      Member(src, s, members) == Ran(match v.outcome
        case Produced(value) => Produced(members[inner := value])
        case Absent => Produced(members)
        case Aborted => Aborted, v.state)
  {
    assert Peek(src, s, 2) == [src.items[s.pos], Ok(Punctuation(':'))];
    StringRoundTrip(src, s.(pos := s.pos + 2), inner);
  }

  /**
   * A key that is not a string before a colon, or a bare colon: `KeyMustBeAString` is recorded
   * where the key stands, the value after the colon is still parsed, and no member is added.
   */
  lemma MemberWithBadKey(src: Source, s: State, members: map<string, Value>)
    requires Valid(src, s) && s.pos < |src.items|
    requires src.items[s.pos].Ok? && !src.items[s.pos].value.String?
    requires NextIs(src, s, ':') || NextIs(src, Next(src, s, 1), ':')
    ensures var skip := if NextIs(src, Next(src, s, 1), ':') then 2 else 1;
      var v := ParseValue(src, State(s.pos + skip, s.errors + [CreateError(src, s, KeyMustBeAString)]));
      Member(src, s, members) == Ran(if v.outcome.Aborted? then Aborted else Produced(members), v.state)
  {
    var e := CreateError(src, s, KeyMustBeAString);
    if NextIs(src, Next(src, s, 1), ':') {
      assert Peek(src, s, 2) == [src.items[s.pos], src.items[s.pos + 1]];
      assert Next(src, Push(s, e), 2) == State(s.pos + 2, s.errors + [e]);
    } else {
      assert Peek(src, s, 2)[0] == Ok(Punctuation(':'));
      assert Next(src, Push(s, e), 1) == State(s.pos + 1, s.errors + [e]);
    }
  }

  /** A string with no colon after it: `ExpectedColon` is recorded and only the string is consumed. */
  lemma MemberWithoutColon(src: Source, s: State, members: map<string, Value>)
    requires Valid(src, s) && s.pos < |src.items|
    requires src.items[s.pos].Ok? && src.items[s.pos].value.String?
    requires !NextIs(src, Next(src, s, 1), ':')
    ensures Member(src, s, members) ==
      Ran(Produced(members), State(s.pos + 1, s.errors + [CreateError(src, s, ExpectedColon)]))
  {
    if s.pos + 1 < |src.items| {
      assert Peek(src, s, 2) == [src.items[s.pos], src.items[s.pos + 1]];
    } else {
      assert Peek(src, s, 2) == [src.items[s.pos]];
    }
  }

  // ---------------------------------------------------------------------------------------
  // parse

  /**
   * The three results of `parse`: the value, only when nothing was recorded, a value was
   * produced and only whitespace follows it; the recorded diagnostics, exactly and in order,
   * whenever there are any; otherwise a single `EndOfFileExpected`.
   */
  lemma ParseOutcome(src: Source)
    requires WellFormed(src.items) && |src.items| <= UsizeMax
    ensures var v := ParseValue(src, State(0, []));
      var r := Parse(src);
      && (r.Aborted? <==> v.outcome.Aborted?)
      && (r.Produced? && r.value.Ok? <==>
            v.outcome.Produced? && v.state.errors == [] && AllWhitespace(src.items[v.state.pos..]))
      && (r.Produced? && r.value.Ok? ==> r.value.value == v.outcome.value)
      && (!v.outcome.Aborted? && v.state.errors != [] ==> r == Produced(Err(v.state.errors)))
      && (r.Produced? && r.value.Err? && v.state.errors == [] ==>
            |r.value.error| == 1 && r.value.error[0].code == EndOfFileExpected)
  {
    var v := ParseValue(src, State(0, []));
    assert Peek(src, v.state, UsizeMax) == src.items[v.state.pos..];
  }

  // ---------------------------------------------------------------------------------------
  // Whole inputs, as the tests of src/parsing.rs write them, one item per unit

  lemma ParsesNull(at: nat -> Position, isF64: string -> bool)
    ensures Parse(Source([Ok(Lexeme.Null)], at, isF64)) == Produced(Ok(Value.Null))
  {
    var src := Source([Ok(Lexeme.Null)], at, isF64);
    assert Peek(src, State(0, []), 1) == [Ok(Lexeme.Null)];
  }

  lemma ParsesBools(at: nat -> Position, isF64: string -> bool)
    ensures Parse(Source([Ok(Lexeme.Bool("true"))], at, isF64)) == Produced(Ok(Value.Bool(true)))
    ensures Parse(Source([Ok(Lexeme.Bool("false"))], at, isF64)) == Produced(Ok(Value.Bool(false)))
  {
    var src := Source([Ok(Lexeme.Bool("true"))], at, isF64);
    assert Peek(src, State(0, []), 1) == [Ok(Lexeme.Bool("true"))];
    var src' := Source([Ok(Lexeme.Bool("false"))], at, isF64);
    assert Peek(src', State(0, []), 1) == [Ok(Lexeme.Bool("false"))];
  }

  lemma ParsesNumber(at: nat -> Position, isF64: string -> bool)
    requires isF64("12321")
    ensures Parse(Source([Ok(Lexeme.Number("12321"))], at, isF64)) == Produced(Ok(Value.Number("12321")))
  {
    var src := Source([Ok(Lexeme.Number("12321"))], at, isF64);
    assert Peek(src, State(0, []), 1) == [Ok(Lexeme.Number("12321"))];
  }

  /** A lone string unit whose inner text counts no quote parses to that text. */
  lemma ParsesLoneString(inner: string, at: nat -> Position, isF64: string -> bool)
    requires CountedQuotes(inner) == 0 && (inner == [] || inner[|inner| - 1] != '\\')
    ensures Parse(Source([Ok(Lexeme.String("\"" + inner + "\""))], at, isF64)) ==
      Produced(Ok(Value.String(inner)))
  {
    var src := Source([Ok(Lexeme.String("\"" + inner + "\""))], at, isF64);
    LoneStringValue(src, inner);
    assert Peek(src, State(1, []), UsizeMax) == [];
  }

  lemma LoneStringValue(src: Source, inner: string)
    requires CountedQuotes(inner) == 0 && (inner == [] || inner[|inner| - 1] != '\\')
    requires src.items == [Ok(Lexeme.String("\"" + inner + "\""))]
    ensures ParseValue(src, State(0, [])) == Ran(Produced(Value.String(inner)), State(1, []))
  {
    assert src.items[0] in src.items;
    assert Peek(src, State(0, []), 1) == [src.items[0]];
    StringRoundTrip(src, State(1, []), inner);
  }

  lemma ParsesString(at: nat -> Position, isF64: string -> bool)
    ensures Parse(Source([Ok(Lexeme.String("\"" + "Hello World" + "\""))], at, isF64)) ==
      Produced(Ok(Value.String("Hello World")))
  {
    var inner := "Hello World";
    assert inner[|inner| - 1] == 'd';
    PlainText(inner);
    ParsesLoneString(inner, at, isF64);
  }

  /** Whitespace after the value is drained and accepted. */
  lemma TrailingWhitespaceAccepted(at: nat -> Position, isF64: string -> bool)
    ensures Parse(Source([Ok(Lexeme.Null), Ok(NewLine), Ok(Whitespace(4))], at, isF64)) == Produced(Ok(Value.Null))
  {
    var src := Source([Ok(Lexeme.Null), Ok(NewLine), Ok(Whitespace(4))], at, isF64);
    assert Peek(src, State(0, []), 1) == [Ok(Lexeme.Null)];
    assert Peek(src, State(1, []), UsizeMax) == [Ok(NewLine), Ok(Whitespace(4))];
  }

  /** `null null`: a second value is reported as one `EndOfFileExpected` at the end of input. */
  lemma RejectsSecondValue(at: nat -> Position, isF64: string -> bool)
    ensures Parse(Source([Ok(Lexeme.Null), Ok(Whitespace(1)), Ok(Lexeme.Null)], at, isF64)) ==
      Produced(Err([Error(EndOfFileExpected, at(3).line, at(3).col)]))
  {
    var src := Source([Ok(Lexeme.Null), Ok(Whitespace(1)), Ok(Lexeme.Null)], at, isF64);
    assert Peek(src, State(0, []), 1) == [Ok(Lexeme.Null)];
    assert Peek(src, State(1, []), UsizeMax)[1] == Ok(Lexeme.Null);
  }

  /** Empty input: a value was expected where the input ends. */
  lemma RejectsEmpty(at: nat -> Position, isF64: string -> bool)
    ensures Parse(Source([], at, isF64)) ==
      Produced(Err([Error(EndOfFileWhileParsingValue, at(0).line, at(0).col)]))
  {
    var src := Source([], at, isF64);
    assert Peek(src, State(0, []), 1) == [];
    assert ParseValue(src, State(0, [])) ==
      Ran(Absent, State(0, [Error(EndOfFileWhileParsingValue, at(0).line, at(0).col)]));
  }

  /** `"fds`: an unterminated string, reported after the unit. */
  lemma RejectsUnterminatedString(at: nat -> Position, isF64: string -> bool)
    ensures Parse(Source([Ok(Lexeme.String("\"fds"))], at, isF64)) ==
      Produced(Err([Error(ExpectedDoubleQuote, at(1).line, at(1).col)]))
  {
    var src := Source([Ok(Lexeme.String("\"fds"))], at, isF64);
    assert Peek(src, State(0, []), 1) == [Ok(Lexeme.String("\"fds"))];
    assert "\"fds"[1..] == "fds";
    PlainText("fds");
    assert ParseValue(src, State(0, [])) ==
      Ran(Absent, State(1, [Error(ExpectedDoubleQuote, at(1).line, at(1).col)]));
  }

  /** A number the float parser refuses is reported with its text. */
  lemma RejectsInvalidNumber(at: nat -> Position, isF64: string -> bool)
    requires !isF64("11.3de2")
    ensures Parse(Source([Ok(Lexeme.Number("11.3de2"))], at, isF64)) ==
      Produced(Err([Error(InvalidNumber("11.3de2"), at(1).line, at(1).col)]))
  {
    var src := Source([Ok(Lexeme.Number("11.3de2"))], at, isF64);
    assert Peek(src, State(0, []), 1) == [Ok(Lexeme.Number("11.3de2"))];
    assert ParseValue(src, State(0, [])) ==
      Ran(Absent, State(1, [Error(InvalidNumber("11.3de2"), at(1).line, at(1).col)]));
  }

  /**
   * As written, `parse_value` has no case for whitespace units and panics on them, so an
   * input that starts with whitespace or a line break makes the parser panic.
   */
  lemma LeadingWhitespaceAborts(src: Source)
    requires WellFormed(src.items) && |src.items| > 0
    requires src.items[0].Ok? && src.items[0].value.IsWhitespace()
    ensures Parse(src) == Aborted
  {
    assert Peek(src, State(0, []), 1) == [src.items[0]];
  }

  /** As written, `[]` and `{}` make the parser panic (see `ArrayAfterValueAborts`). */
  lemma EmptyContainersAbort(at: nat -> Position, isF64: string -> bool)
    ensures Parse(Source([Ok(Punctuation('[')), Ok(Punctuation(']'))], at, isF64)) == Aborted
    ensures Parse(Source([Ok(Punctuation('{')), Ok(Punctuation('}'))], at, isF64)) == Aborted
  {
    ArrayAfterValueAborts(Source([Ok(Punctuation('[')), Ok(Punctuation(']'))], at, isF64), State(0, []));
    ObjectAfterValueAborts(Source([Ok(Punctuation('{')), Ok(Punctuation('}'))], at, isF64), State(0, []));
  }
}
