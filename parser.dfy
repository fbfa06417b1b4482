/**
 * `Parser` of src/parsing.rs: a reader cursor and a list of diagnostics that every routine
 * updates in place. Each parsing method is proved to leave exactly the outcome and state its
 * `ParserSpec` function describes (the one of the same name; `Member` for `ParseMember`);
 * the reader operations `Peek`, `Next` and `CreateError` follow those of `Reading`.
 */
module Parsing {
  import opened Wrappers
  import opened Errors
  import opened Reading
  import opened ParserSpec

  class Parser {
    /** The reader: its items, the positions it reports, and its cursor `pos`. */
    const items: seq<Item>
    const at: nat -> Position
    /** `str::parse::<f64>` succeeds on the text. */
    const isF64: string -> bool
    var pos: nat
    /** The diagnostics recorded so far, in order. */
    var errors: seq<Error>

    function Src(): Source {
      Source(items, at, isF64)
    }

    function St(): State
      reads this
    {
      State(pos, errors)
    }

    ghost predicate Valid()
      reads this
    {
      Reading.Valid(Src(), St())
    }

    constructor (items: seq<Item>, at: nat -> Position, isF64: string -> bool)
      requires WellFormed(items)
      ensures Valid()
      ensures Src() == Source(items, at, isF64) && St() == State(0, [])
    {
      this.items := items;
      this.at := at;
      this.isF64 := isF64;
      pos := 0;
      errors := [];
    }

    function Peek(n: nat): seq<Item>
      reads this
      requires pos <= |items|
    {
      Reading.Peek(Src(), St(), n)
    }

    /** The reader's `next(n)`: returns what `peek(n)` shows and moves past it. */
    method Next(n: nat) returns (taken: seq<Item>)
      requires pos <= |items|
      modifies this
      ensures taken == old(Peek(n))
      ensures St() == Reading.Next(Src(), old(St()), n)
    {
      taken := Peek(n);
      pos := Min(pos + n, |items|);
    }

    function CreateError(code: ErrorCode): Error
      reads this
    {
      Reading.CreateError(Src(), St(), code)
    }

    /** `Parser::parse`. */
    static method Parse(items: seq<Item>, at: nat -> Position, isF64: string -> bool)
      returns (r: Outcome<Result<Value, seq<Error>>>)
      requires WellFormed(items)
      ensures r == ParserSpec.Parse(Source(items, at, isF64))
    {
      var parser := new Parser(items, at, isF64);
      var value := parser.ParseValue();
      if value.Aborted? {
        return Aborted;
      }
      if parser.errors != [] {
        return Produced(Err(parser.errors));
      }
      // `value_opt.is_none() || !rest.all(is_whitespace)`: the reader is drained only when a
      // value was produced.
      var drained := false;
      if value.Produced? {
        var rest := parser.Next(UsizeMax);
        drained := AllWhitespace(rest);
      }
      if !drained {
        return Produced(Err([parser.CreateError(EndOfFileExpected)]));
      }
      return Produced(Ok(value.value));
    }

    method ParseValue() returns (r: Outcome<Value>)
      requires Valid()
      modifies this
      decreases |items| - pos, 1
      ensures Valid() && Ran(r, St()) == ParserSpec.ParseValue(Src(), old(St()))
    {
      var taken := Next(1);
      if taken == [] {
        errors := errors + [CreateError(EndOfFileWhileParsingValue)];
        return Absent;
      }
      assert items[old(pos)] in items;
      match taken[0]
      case Err(e) =>
        errors := errors + [e];
        r := Absent;
      case Ok(Null) =>
        r := Produced(Value.Null);
      case Ok(Bool(raw)) =>
        if raw == "true" {
          r := Produced(Value.Bool(true));
        } else if raw == "false" {
          r := Produced(Value.Bool(false));
        } else {
          r := Aborted;
        }
      case Ok(String(raw)) =>
        var v := ParseString(raw);
        r := FromOption(v);
      case Ok(Number(raw)) =>
        var v := ParseNumber(raw);
        r := FromOption(v);
      case Ok(Punctuation(c)) =>
        if c == '{' {
          r := ParseObject();
        } else if c == '[' {
          r := ParseArray();
        } else if c in {',', '}', ']', '|'} {
          errors := errors + [CreateError(ExpectedToken)];
          r := Absent;
        } else {
          r := Aborted;
        }
      case Ok(_) =>
        r := Aborted;
    }

    method ParseArray() returns (r: Outcome<Value>)
      requires Valid()
      modifies this
      decreases |items| - pos, 0
      ensures Valid() && Ran(r, St()) == ParserSpec.ParseArray(Src(), old(St()))
    {
      var p := Peek(2);
      if |p| > 0 && p[0].Err? {
        errors := errors + [p[0].error];
        var _ := Next(1);
        r := Absent;
      } else if p == [Ok(Punctuation('['))] {
        var _ := Next(1);
        errors := errors + [CreateError(EndOfFileWhileParsing(']'))];
        r := Absent;
      } else if p == [Ok(Punctuation('[')), Ok(Punctuation(']'))] {
        var _ := Next(2);
        r := Produced(Array([]));
      } else if |p| > 0 && p[0] == Ok(Punctuation('[')) {
        var _ := Next(1);
        var elements := ParseArrayElements();
        r := match elements
          case Produced(elements) => Produced(Array(elements))
          case Absent => Absent
          case Aborted => Aborted;
      } else {
        r := Aborted;
      }
    }

    method ParseArrayElements() returns (r: Outcome<seq<Value>>)
      requires Valid()
      modifies this
      decreases |items| - pos, 5
      ensures Valid() && Ran(r, St()) == ParserSpec.ParseArrayElements(Src(), old(St()))
    {
      if |Peek(1)| == 0 {
        // The diagnostic is built and dropped, never pushed.
        var _ := CreateError(EndOfFileWhileParsing(']'));
        return Absent;
      }
      var elements: seq<Value> := [];
      while true
        invariant Valid() && old(pos) <= pos
        invariant ElementsLoop(Src(), St(), elements) == ParserSpec.ParseArrayElements(Src(), old(St()))
        decreases |items| - pos
      {
        var element := ParseValue();
        if element.Aborted? {
          return Aborted;
        }
        if element.Produced? {
          elements := elements + [element.value];
        }
        var resynced := ParseUntilCommaOrEnd(']');
        if resynced.Aborted? {
          return Aborted;
        }
        var reachedEnd := ParseSequenceSeparator(']');
        if reachedEnd {
          return Produced(elements);
        }
      }
    }

    method ParseObject() returns (r: Outcome<Value>)
      requires Valid()
      modifies this
      decreases |items| - pos, 0
      ensures Valid() && Ran(r, St()) == ParserSpec.ParseObject(Src(), old(St()))
    {
      var p := Peek(2);
      if |p| > 0 && p[0].Err? {
        errors := errors + [p[0].error];
        var _ := Next(1);
        r := Absent;
      } else if p == [Ok(Punctuation('{'))] {
        var _ := Next(1);
        errors := errors + [CreateError(EndOfFileWhileParsing('}'))];
        r := Absent;
      } else if p == [Ok(Punctuation('{')), Ok(Punctuation('}'))] {
        var _ := Next(2);
        r := Produced(Object(map[]));
      } else if |p| > 0 && p[0] == Ok(Punctuation('{')) {
        var _ := Next(1);
        var members := ParseObjectMembers();
        r := match members
          case Produced(members) => Produced(Object(members))
          case Absent => Absent
          case Aborted => Aborted;
      } else {
        r := Aborted;
      }
    }

    method ParseObjectMembers() returns (r: Outcome<map<string, Value>>)
      requires Valid()
      modifies this
      decreases |items| - pos, 5
      ensures Valid() && Ran(r, St()) == ParserSpec.ParseObjectMembers(Src(), old(St()))
    {
      if |Peek(1)| == 0 {
        errors := errors + [CreateError(EndOfFileWhileParsing('}'))];
        return Absent;
      }
      var members: map<string, Value> := map[];
      while true
        invariant Valid() && old(pos) <= pos
        invariant MembersLoop(Src(), St(), members) == ParserSpec.ParseObjectMembers(Src(), old(St()))
        decreases |items| - pos
      {
        var member := ParseMember(members);
        if member.Aborted? {
          return Aborted;
        }
        members := member.value;
        var resynced := ParseUntilCommaOrEnd('}');
        if resynced.Aborted? {
          return Aborted;
        }
        var reachedEnd := ParseSequenceSeparator('}');
        if reachedEnd {
          return Produced(members);
        }
      }
    }

    /** One turn of the `match` at the top of the members loop (src/parsing.rs:179-225). */
    method ParseMember(members: map<string, Value>) returns (r: Outcome<map<string, Value>>)
      requires Valid()
      modifies this
      decreases |items| - pos, 3
      ensures Valid() && Ran(r, St()) == Member(Src(), old(St()), members)
    {
      r := Produced(members);
      var p := Peek(2);
      if |p| > 0 && p[0].Err? {
        errors := errors + [p[0].error];
        var _ := Next(1);
      } else if |p| == 2 && p[0].Ok? && p[0].value.String? && p[1] == Ok(Punctuation(':')) {
        assert items[pos] in items;
        var _ := Next(2);
        var key := ParseString(p[0].value.raw);
        match key
        case Some(String(k)) =>
          var value := ParseValue();
          if value.Aborted? {
            return Aborted;
          }
          if value.Produced? {
            r := Produced(members[k := value.value]);
          }
        case Some(_) =>
          return Aborted;
        case None =>
          var value := ParseValue();
          if value.Aborted? {
            return Aborted;
          }
      } else if |p| == 2 && p[1] == Ok(Punctuation(':')) {
        errors := errors + [CreateError(KeyMustBeAString)];
        var _ := Next(2);
        var value := ParseValue();
        if value.Aborted? {
          return Aborted;
        }
      } else if |p| > 0 && p[0] == Ok(Punctuation(':')) {
        errors := errors + [CreateError(KeyMustBeAString)];
        var _ := Next(1);
        var value := ParseValue();
        if value.Aborted? {
          return Aborted;
        }
      } else if |p| > 0 && p[0].Ok? && p[0].value.String? {
        errors := errors + [CreateError(ExpectedColon)];
        var _ := Next(1);
      } else if |p| > 0 {
        errors := errors + [CreateError(KeyMustBeAString)];
        var _ := Next(1);
      } else {
        return Aborted;
      }
    }

    method ParseNumber(possibleNumber: string) returns (r: Option<Value>)
      requires pos <= |items| && |possibleNumber| > 0
      modifies this
      ensures Ran(r, St()) == ParserSpec.ParseNumber(Src(), old(St()), possibleNumber)
    {
      if isF64(possibleNumber) {
        r := Some(Value.Number(possibleNumber));
      } else {
        errors := errors + [CreateError(InvalidNumber(possibleNumber))];
        r := None;
      }
      var _ := Next(1);
    }

    method ParseString(possibleString: string) returns (r: Option<Value>)
      requires pos <= |items| && |possibleString| > 0 && possibleString[0] == '"'
      modifies this
      ensures Ran(r, St()) == ParserSpec.ParseString(Src(), old(St()), possibleString)
    {
      var numQuotations := 0;
      var i := 0;
      while i < |possibleString|
        invariant i <= |possibleString|
        invariant numQuotations + CountedQuotes(possibleString[i..]) == CountedQuotes(possibleString)
      {
        var c := possibleString[i];
        if c == '\\' && i + 1 < |possibleString| && possibleString[i + 1] == '"' {
          assert possibleString[i..][2..] == possibleString[i + 2..];
          i := i + 2;
        } else {
          assert possibleString[i..][1..] == possibleString[i + 1..];
          if c == '"' {
            numQuotations := numQuotations + 1;
          }
          i := i + 1;
        }
      }
      assert possibleString[..] == possibleString;
      var last := possibleString[|possibleString| - 1];
      if |possibleString| == 1 || numQuotations != 2 || last != '"' {
        errors := errors + [CreateError(ExpectedDoubleQuote)];
        r := None;
      } else {
        r := Some(Value.String(possibleString[1..|possibleString| - 1]));
      }
      var _ := Next(1);
    }

    method ParseSequenceSeparator(end: char) returns (reachedEnd: bool)
      requires pos <= |items|
      modifies this
      ensures Ran(reachedEnd, St()) == ParserSpec.ParseSequenceSeparator(Src(), old(St()), end)
    {
      var p := Peek(2);
      if |p| > 0 && p[0].Err? {
        errors := errors + [p[0].error];
        var _ := Next(1);
        reachedEnd := false;
      } else if p == [] || p == [Ok(Punctuation(','))] {
        var _ := Next(1);
        errors := errors + [CreateError(EndOfFileWhileParsing(end))];
        reachedEnd := true;
      } else if |p| == 2 && p[0] == Ok(Punctuation(',')) && p[1] == Ok(Punctuation(end)) {
        var _ := Next(2);
        errors := errors + [CreateError(ExpectedToken)];
        reachedEnd := true;
      } else if p[0] == Ok(Punctuation(',')) {
        var _ := Next(1);
        reachedEnd := false;
      } else if p[0] == Ok(Punctuation(end)) {
        var _ := Next(1);
        reachedEnd := true;
      } else {
        errors := errors + [CreateError(EndOfFileWhileParsing(end))];
        reachedEnd := false;
      }
    }

    method ParseUntilCommaOrEnd(end: char) returns (r: Outcome<()>)
      requires Valid()
      modifies this
      decreases |items| - pos, 3
      ensures Valid() && Ran(r, St()) == ParserSpec.ParseUntilCommaOrEnd(Src(), old(St()), end)
    {
      var seenNonCommaValue := false;
      while true
        invariant Valid() && old(pos) <= pos
        invariant UntilLoop(Src(), St(), end, seenNonCommaValue) == UntilLoop(Src(), old(St()), end, false)
        decreases |items| - pos
      {
        var p := Peek(1);
        if p == [] || p[0] == Ok(Punctuation(',')) {
          break;
        } else if p[0] == Ok(Punctuation(end)) {
          break;
        } else if p[0] == Ok(Punctuation(':')) {
          var _ := Next(1);
          var value := ParseValue();
          if value.Aborted? {
            return Aborted;
          }
        } else {
          var _ := Next(1);
          seenNonCommaValue := true;
        }
      }
      if seenNonCommaValue {
        errors := errors + [CreateError(ExpectedCommaOrEndWhileParsing(end))];
      }
      return Produced(());
    }
  }
}
