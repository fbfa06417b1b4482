/**
 * The quote-aware splitter and the literal classifier of src/lexical.rs.
 *
 * `TokenizeIntoStrings` pads punctuation outside quotes with spaces, shields whitespace inside
 * quotes with '\0', splits on whitespace and turns the shields back into ' '. Its result is
 * specified by `Tokenized` (padding, then splitting, then restoring) and, independently, by
 * `Visible`, which says character by character what survives. `TryFromToken` classifies one
 * piece, and `TryFromJson` collects either every token or every failure.
 */
module Lexical {
  import opened Wrappers

  /** Why a piece is not a literal; the strings are the offending piece and a reason. */
  datatype LiteralError =
    | ExpectedLiteral(text: string, reason: string)
    | InvalidString(text: string, reason: string)
    | InvalidNumber(text: string)

  /**
   * A classified piece. `Number` keeps the text that the 64-bit float parser accepted:
   * the float itself is not modelled.
   */
  datatype Token = Null | Bool(b: bool) | String(s: string) | Number(text: string) | Punctuation(c: char)

  const NothingToParse := "Nothing to parse"
  const NotALiteral := "Expected a JSON object, array, or literal"
  const UnmatchedQuotation := "String has unmatched quotation"
  const NotAString := "Invalid String"

  /**
   * The six JSON punctuation characters. None of them is whitespace, a digit or a quote, so a
   * punctuation character always makes a piece of its own and is never read as a literal.
   */
  predicate IsPunctuation(c: char)
    ensures IsPunctuation(c) ==> !IsWhitespace(c) && !IsDigit(c) && c != '"' && c != '\0'
  {
    c == ',' || c == ':' || c == '{' || c == '}' || c == '[' || c == ']'
  }

  /** The ASCII characters Rust's `char::is_whitespace` accepts. */
  predicate IsWhitespace(c: char) {
    c == ' ' || c == '\t' || c == '\n' || c == '\r' || c == '\U{000B}' || c == '\U{000C}'
  }

  predicate IsDigit(c: char) {
    '0' <= c <= '9'
  }

  /** The number of '"' characters in `s`. */
  function Quotes(s: string): nat {
    if s == [] then 0 else (if s[0] == '"' then 1 else 0) + Quotes(s[1..])
  }

  lemma {:induction false} QuotesConcat(a: string, b: string)
    ensures Quotes(a + b) == Quotes(a) + Quotes(b)
  {
    if a != [] {
      assert (a + b)[1..] == a[1..] + b;
      QuotesConcat(a[1..], b);
    } else {
      assert a + b == b;
    }
  }

  lemma {:induction false} QuotesZero(s: string)
    ensures Quotes(s) == 0 <==> '"' !in s
  {
    if s != [] {
      QuotesZero(s[1..]);
      assert s == [s[0]] + s[1..];
    }
  }

  // ---------------------------------------------------------------------------------------
  // Classifying one piece
  // ---------------------------------------------------------------------------------------

  /**
   * `Token::try_from_string`: a piece that starts with '"' is a string exactly when it holds
   * two quotes, its first and its last character; the text between them is kept verbatim.
   */
  function TryFromString(s: string): (r: Result<Token, LiteralError>)
    requires |s| != 0
    ensures r.Ok? <==> Quotes(s) == 2 && s[0] == '"' && s[|s| - 1] == '"'
    ensures r.Ok? ==> r.value.String? && s == "\"" + r.value.s + "\"" && '"' !in r.value.s
    ensures Quotes(s) % 2 == 1 ==> r == Err(InvalidString(s, UnmatchedQuotation))
    ensures Quotes(s) % 2 == 0 && r.Err? ==> r == Err(InvalidString(s, NotAString))
    ensures r.Err? ==> r.error.InvalidString? && r.error.text == s
  {
    var n := Quotes(s);
    if n % 2 == 1 then
      Err(InvalidString(s, UnmatchedQuotation))
    else if n != 2 || s[0] != '"' || s[|s| - 1] != '"' then
      Err(InvalidString(s, NotAString))
    else
      var inner := s[1..|s| - 1];
      assert s == [s[0]] + inner + [s[|s| - 1]];
      QuotesConcat([s[0]] + inner, [s[|s| - 1]]);
      QuotesConcat([s[0]], inner);
      QuotesZero(inner);
      Ok(String(inner))
  }

  /** Any text without a quote, put between two quotes, is read back as that text. */
  lemma StringRoundTrip(inner: string)
    requires '"' !in inner
    ensures TryFromString("\"" + inner + "\"") == Ok(String(inner))
  {
    var s := "\"" + inner + "\"";
    QuotesZero(inner);
    QuotesConcat("\"" + inner, "\"");
    QuotesConcat("\"", inner);
    assert s[1..|s| - 1] == inner;
  }

  /** `Token::try_from_number`, with the float parser as the parameter `isF64`. */
  function TryFromNumber(s: string, isF64: string -> bool): (r: Result<Token, LiteralError>)
    requires |s| != 0
    ensures r.Ok? <==> isF64(s)
    ensures r.Ok? ==> r.value == Number(s)
    ensures r.Err? ==> r.error == InvalidNumber(s)
  {
    if isF64(s) then Ok(Number(s)) else Err(InvalidNumber(s))
  }

  /** `Token::try_from_token`: classify a piece by its first character. */
  function TryFromToken(t: string, isF64: string -> bool): (r: Result<Token, LiteralError>)
    ensures t == [] ==> r == Err(ExpectedLiteral(t, NothingToParse))
    ensures t != [] && IsPunctuation(t[0]) ==> r == Ok(Punctuation(t[0]))
    ensures r.Ok? && r.value.Punctuation? ==> t != [] && IsPunctuation(t[0])
    ensures r == Ok(Token.Null) <==> t == "null"
    ensures r == Ok(Token.Bool(true)) <==> t == "true"
    ensures r == Ok(Token.Bool(false)) <==> t == "false"
    ensures r.Ok? && r.value.String? <==> t != [] && t[0] == '"' && TryFromString(t).Ok?
    ensures r.Ok? && r.value.String? ==> t == "\"" + r.value.s + "\""
    ensures t != [] && t[0] == '"' ==> r == TryFromString(t)
    ensures r.Ok? && r.value.Number? <==> t != [] && IsDigit(t[0]) && isF64(t)
    ensures r.Ok? && r.value.Number? ==> r.value.text == t
    ensures t != [] && IsDigit(t[0]) ==> r == TryFromNumber(t, isF64)
    ensures r.Err? && r.error.ExpectedLiteral? <==>
      t == [] || !(IsPunctuation(t[0]) || t in {"null", "true", "false"} || t[0] == '"' || IsDigit(t[0]))
    ensures r.Err? && r.error.ExpectedLiteral? ==> r.error.text == t
  {
    if t == [] then
      Err(ExpectedLiteral(t, NothingToParse))
    else
      var c := t[0];
      if IsPunctuation(c) then Ok(Punctuation(c))
      else if c == 'n' && t == "null" then Ok(Null)
      else if c == 'f' && t == "false" then Ok(Bool(false))
      else if c == 't' && t == "true" then Ok(Bool(true))
      else if c == '"' then TryFromString(t)
      else if IsDigit(c) then TryFromNumber(t, isF64)
      else Err(ExpectedLiteral(t, NotALiteral))
  }

  // ---------------------------------------------------------------------------------------
  // Splitting the input into pieces
  // ---------------------------------------------------------------------------------------

  /** The quote state after a character, given the state before it. */
  function Toggle(c: char, inQuotes: bool): bool {
    if c == '"' then !inQuotes else inQuotes
  }

  /** The quote state after all of `s`, starting in state `inQuotes`. */
  function QuoteStateAfter(s: string, inQuotes: bool): bool {
    if s == [] then inQuotes else QuoteStateAfter(s[1..], Toggle(s[0], inQuotes))
  }

  lemma {:induction false} QuoteStateParity(s: string, inQuotes: bool)
    ensures QuoteStateAfter(s, inQuotes) == (inQuotes != (Quotes(s) % 2 == 1))
  {
    if s != [] {
      QuoteStateParity(s[1..], Toggle(s[0], inQuotes));
    }
  }

  /** What one input character becomes before the split, given the quote state before it. */
  function PadChar(c: char, inQuotes: bool): string {
    if c == '"' then [c]
    else if inQuotes && IsWhitespace(c) then ['\0']
    else if !inQuotes && IsPunctuation(c) then [' ', c, ' ']
    else [c]
  }

  /** The text the first loop of `tokenize_into_strings` builds and joins. */
  function Padded(s: string, inQuotes: bool): string {
    if s == [] then [] else PadChar(s[0], inQuotes) + Padded(s[1..], Toggle(s[0], inQuotes))
  }

  /** `str::split_whitespace`: the maximal non-empty runs of non-whitespace characters. */
  function SplitWhitespace(s: string): seq<string> {
    SplitFrom(s, [])
  }

  /** Splitting `s` while the run `run` is still open. */
  function SplitFrom(s: string, run: string): seq<string> {
    if s == [] then Flush(run)
    else if IsWhitespace(s[0]) then Flush(run) + SplitFrom(s[1..], [])
    else SplitFrom(s[1..], run + [s[0]])
  }

  function Flush(run: string): seq<string> {
    if run == [] then [] else [run]
  }

  /** `replace("\0", " ")` on one piece. */
  function Restore(s: string): string {
    if s == [] then [] else [if s[0] == '\0' then ' ' else s[0]] + Restore(s[1..])
  }

  function RestoreEach(pieces: seq<string>): seq<string> {
    if pieces == [] then [] else [Restore(pieces[0])] + RestoreEach(pieces[1..])
  }

  /** `concat` of a list of strings, as `join("")` does. */
  function Join(pieces: seq<string>): string {
    if pieces == [] then [] else pieces[0] + Join(pieces[1..])
  }

  /** The pieces `tokenize_into_strings` returns: pad, split on whitespace, restore spaces. */
  function Tokenized(json: string): seq<string> {
    RestoreEach(SplitWhitespace(Padded(json, false)))
  }

  /**
   * A reference for the characters that survive, in order: whitespace outside quotes is
   * dropped, whitespace inside quotes and '\0' become ' ', everything else is kept.
   */
  function Visible(s: string, inQuotes: bool): string {
    if s == [] then []
    else
      var c := s[0];
      (if !inQuotes && IsWhitespace(c) then []
       else if IsWhitespace(c) || c == '\0' then [' ']
       else [c])
      + Visible(s[1..], Toggle(c, inQuotes))
  }

  predicate NoWhitespace(s: string) {
    forall c <- s :: !IsWhitespace(c)
  }

  /** `tokenize_into_strings`, with its character loop. */
  method TokenizeIntoStrings(json: string) returns (pieces: seq<string>)
    ensures pieces == Tokenized(json)
    ensures forall p <- pieces :: p != []
    ensures Join(pieces) == Visible(json, false)
  {
    var inQuotes := false;
    var tokens: seq<string> := [];
    for i := 0 to |json|
      invariant Join(tokens) + Padded(json[i..], inQuotes) == Padded(json, false)
    {
      var c := json[i];
      PaddedStep(tokens, json, i, inQuotes);
      ghost var before, old_q := tokens, inQuotes;
      if c == '"' {
        inQuotes := !inQuotes;
        tokens := tokens + [[c]];
      } else if inQuotes && IsWhitespace(c) {
        tokens := tokens + [['\0']];
      } else if !inQuotes && IsPunctuation(c) {
        tokens := tokens + [[' ', c, ' ']];
      } else {
        tokens := tokens + [[c]];
      }
      assert tokens == before + [PadChar(c, old_q)];
    }
    assert json[|json|..] == [];
    assert Join(tokens) == Padded(json, false);
    pieces := RestoreEach(SplitWhitespace(Join(tokens)));
    TokenizedNonEmpty(json);
    TokenizedVisible(json);
  }

  /** One step of the character loop keeps the joined text plus what is left to pad. */
  lemma PaddedStep(tokens: seq<string>, s: string, i: nat, inQuotes: bool)
    requires i < |s|
    ensures Join(tokens + [PadChar(s[i], inQuotes)]) + Padded(s[i + 1..], Toggle(s[i], inQuotes))
         == Join(tokens) + Padded(s[i..], inQuotes)
  {
    assert s[i..][1..] == s[i + 1..];
    JoinAppend(tokens, PadChar(s[i], inQuotes));
  }

  lemma {:induction false} JoinAppend(pieces: seq<string>, p: string)
    ensures Join(pieces + [p]) == Join(pieces) + p
  {
    if pieces != [] {
      assert (pieces + [p])[1..] == pieces[1..] + [p];
      JoinAppend(pieces[1..], p);
    }
  }

  // ---------------------------------------------------------------------------------------
  // Properties of the pieces
  // ---------------------------------------------------------------------------------------

  lemma {:induction false} SplitFromPieces(s: string, run: string)
    requires NoWhitespace(run)
    ensures forall p <- SplitFrom(s, run) :: p != [] && NoWhitespace(p)
  {
    if s != [] {
      if IsWhitespace(s[0]) {
        SplitFromPieces(s[1..], []);
      } else {
        SplitFromPieces(s[1..], run + [s[0]]);
      }
    }
  }

  lemma {:induction false} RestoreLength(s: string)
    ensures |Restore(s)| == |s|
  {
    if s != [] {
      RestoreLength(s[1..]);
    }
  }

  lemma {:induction false} RestoreEachAt(pieces: seq<string>)
    ensures |RestoreEach(pieces)| == |pieces|
    ensures forall i :: 0 <= i < |pieces| ==> RestoreEach(pieces)[i] == Restore(pieces[i])
  {
    if pieces != [] {
      RestoreEachAt(pieces[1..]);
    }
  }

  /** Every piece is non-empty. */
  lemma TokenizedNonEmpty(json: string)
    ensures forall p <- Tokenized(json) :: p != []
  {
    var split := SplitWhitespace(Padded(json, false));
    SplitFromPieces(Padded(json, false), []);
    RestoreEachAt(split);
    forall i | 0 <= i < |split| ensures Tokenized(json)[i] != [] {
      assert split[i] in split;
      RestoreLength(split[i]);
    }
  }

  /** The characters of `s` that are not whitespace, in order. */
  function NonWhitespace(s: string): string {
    if s == [] then [] else (if IsWhitespace(s[0]) then [] else [s[0]]) + NonWhitespace(s[1..])
  }

  lemma {:induction false} NonWhitespaceConcat(a: string, b: string)
    ensures NonWhitespace(a + b) == NonWhitespace(a) + NonWhitespace(b)
  {
    if a != [] {
      assert (a + b)[1..] == a[1..] + b;
      NonWhitespaceConcat(a[1..], b);
    } else {
      assert a + b == b;
    }
  }

  lemma {:induction false} RestoreConcat(a: string, b: string)
    ensures Restore(a + b) == Restore(a) + Restore(b)
  {
    if a != [] {
      assert (a + b)[1..] == a[1..] + b;
      RestoreConcat(a[1..], b);
    } else {
      assert a + b == b;
    }
  }

  lemma {:induction false} JoinSplitFrom(s: string, run: string)
    ensures Join(SplitFrom(s, run)) == run + NonWhitespace(s)
  {
    if s != [] {
      if IsWhitespace(s[0]) {
        JoinSplitFrom(s[1..], []);
        JoinConcat(Flush(run), SplitFrom(s[1..], []));
      } else {
        JoinSplitFrom(s[1..], run + [s[0]]);
      }
    }
  }

  lemma {:induction false} JoinConcat(a: seq<string>, b: seq<string>)
    ensures Join(a + b) == Join(a) + Join(b)
  {
    if a != [] {
      assert (a + b)[1..] == a[1..] + b;
      JoinConcat(a[1..], b);
    } else {
      assert a + b == b;
    }
  }

  lemma {:induction false} JoinRestoreEach(pieces: seq<string>)
    ensures Join(RestoreEach(pieces)) == Restore(Join(pieces))
  {
    if pieces != [] {
      JoinRestoreEach(pieces[1..]);
      RestoreConcat(pieces[0], Join(pieces[1..]));
    }
  }

  lemma PadCharVisible(c: char, inQuotes: bool)
    ensures Restore(NonWhitespace(PadChar(c, inQuotes)))
         == if !inQuotes && IsWhitespace(c) then []
            else if IsWhitespace(c) || c == '\0' then [' ']
            else [c]
  {
    if c == '"' {
    } else if inQuotes && IsWhitespace(c) {
      assert NonWhitespace(['\0']) == ['\0'];
    } else if !inQuotes && IsPunctuation(c) {
      assert [' ', c, ' '] == [' '] + ([c] + [' ']);
      NonWhitespaceConcat([' '], [c] + [' ']);
      NonWhitespaceConcat([c], [' ']);
    } else {
      assert PadChar(c, inQuotes) == [c];
    }
  }

  lemma {:induction false} PaddedVisible(s: string, inQuotes: bool)
    ensures Restore(NonWhitespace(Padded(s, inQuotes))) == Visible(s, inQuotes)
  {
    if s != [] {
      var c := s[0];
      PadCharVisible(c, inQuotes);
      PaddedVisible(s[1..], Toggle(c, inQuotes));
      NonWhitespaceConcat(PadChar(c, inQuotes), Padded(s[1..], Toggle(c, inQuotes)));
      RestoreConcat(NonWhitespace(PadChar(c, inQuotes)), NonWhitespace(Padded(s[1..], Toggle(c, inQuotes))));
    }
  }

  /**
   * Order preservation: joined together, the pieces are the input's characters in order,
   * without the whitespace outside quotes and with whitespace inside quotes turned into ' '.
   */
  lemma TokenizedVisible(json: string)
    ensures Join(Tokenized(json)) == Visible(json, false)
  {
    var padded := Padded(json, false);
    JoinRestoreEach(SplitWhitespace(padded));
    assert Join(SplitWhitespace(padded)) == NonWhitespace(padded) by {
      JoinSplitFrom(padded, []);
    }
    PaddedVisible(json, false);
  }

  lemma {:induction false} PaddedConcat(a: string, b: string, inQuotes: bool)
    ensures Padded(a + b, inQuotes) == Padded(a, inQuotes) + Padded(b, QuoteStateAfter(a, inQuotes))
  {
    if a != [] {
      assert (a + b)[1..] == a[1..] + b;
      PaddedConcat(a[1..], b, Toggle(a[0], inQuotes));
    } else {
      assert a + b == b;
    }
  }

  lemma {:induction false} SplitAtWhitespace(a: string, w: char, b: string, run: string)
    requires IsWhitespace(w)
    ensures SplitFrom(a + [w] + b, run) == SplitFrom(a, run) + SplitFrom(b, [])
  {
    if a == [] {
      assert a + [w] + b == [w] + b;
      assert ([w] + b)[1..] == b;
    } else {
      assert (a + [w] + b)[1..] == a[1..] + [w] + b;
      if IsWhitespace(a[0]) {
        SplitAtWhitespace(a[1..], w, b, []);
      } else {
        SplitAtWhitespace(a[1..], w, b, run + [a[0]]);
      }
    }
  }

  lemma {:induction false} SplitWord(s: string, run: string)
    requires NoWhitespace(s)
    ensures SplitFrom(s, run) == Flush(run + s)
  {
    if s != [] {
      SplitWord(s[1..], run + [s[0]]);
      assert run + [s[0]] + s[1..] == run + s;
    } else {
      assert run + s == run;
    }
  }

  lemma {:induction false} RestoreEachConcat(a: seq<string>, b: seq<string>)
    ensures RestoreEach(a + b) == RestoreEach(a) + RestoreEach(b)
  {
    if a != [] {
      assert (a + b)[1..] == a[1..] + b;
      RestoreEachConcat(a[1..], b);
    } else {
      assert a + b == b;
    }
  }

  /** Padding a character outside quotes, between `a` (even quotes) and `b`. */
  lemma {:induction false} PaddedAround(a: string, c: char, b: string)
    requires Quotes(a) % 2 == 0 && c != '"'
    ensures Padded(a + [c] + b, false) == Padded(a, false) + PadChar(c, false) + Padded(b, false)
  {
    var rest := [c] + b;
    assert a + [c] + b == a + rest;
    assert Padded(a + rest, false) == Padded(a, false) + Padded(rest, false) by {
      QuoteStateParity(a, false);
      PaddedConcat(a, rest, false);
    }
    assert Padded(rest, false) == PadChar(c, false) + Padded(b, false) by {
      assert rest[0] == c && rest[1..] == b;
    }
  }

  /**
   * Whitespace outside quotes only separates pieces: it ends the piece before it and
   * never appears in one.
   */
  lemma WhitespaceSeparates(a: string, w: char, b: string)
    requires Quotes(a) % 2 == 0 && IsWhitespace(w)
    ensures Tokenized(a + [w] + b) == Tokenized(a) + Tokenized(b)
  {
    PaddedAround(a, w, b);
    SplitAtWhitespace(Padded(a, false), w, Padded(b, false), []);
    RestoreEachConcat(SplitWhitespace(Padded(a, false)), SplitWhitespace(Padded(b, false)));
  }

  /**
   * Punctuation outside quotes becomes a one-character piece of its own, with or without
   * whitespace around it.
   */
  lemma PunctuationSeparates(a: string, p: char, b: string)
    requires Quotes(a) % 2 == 0 && IsPunctuation(p)
    ensures Tokenized(a + [p] + b) == Tokenized(a) + [[p]] + Tokenized(b)
  {
    PaddedAround(a, p, b);
    var x, y := Padded(a, false), Padded(b, false);
    SplitAroundPunctuation(x, p, y);
    RestoreEachConcat(SplitWhitespace(x) + [[p]], SplitWhitespace(y));
    RestoreEachConcat(SplitWhitespace(x), [[p]]);
    assert RestoreEach([[p]]) == [[p]] by {
      assert Restore([p]) == [p];
    }
  }

  lemma SplitAroundPunctuation(x: string, p: char, y: string)
    requires IsPunctuation(p)
    ensures SplitWhitespace(x + [' ', p, ' '] + y) == SplitWhitespace(x) + [[p]] + SplitWhitespace(y)
  {
    assert x + [' ', p, ' '] + y == x + [' '] + ([p] + [' '] + y);
    SplitAtWhitespace(x, ' ', [p] + [' '] + y, []);
    SplitAtWhitespace([p], ' ', y, []);
    SplitWord([p], []);
    assert [] + [p] == [p];
  }

  lemma {:induction false} PaddedInQuotes(q: string)
    requires '"' !in q
    ensures NoWhitespace(Padded(q, true))
    ensures Restore(Padded(q, true)) == Visible(q, true)
    ensures QuoteStateAfter(q, true)
  {
    if q != [] {
      PaddedInQuotes(q[1..]);
      RestoreConcat(PadChar(q[0], true), Padded(q[1..], true));
    }
  }

  /**
   * Between a pair of quotes, whitespace and punctuation do not split the piece, and each
   * whitespace character reappears as ' '.
   */
  lemma QuotedPiece(q: string)
    requires '"' !in q
    ensures Tokenized("\"" + q + "\"") == ["\"" + Visible(q, true) + "\""]
  {
    PaddedQuoted(q);
    var inner := Padded(q, true);
    var padded := "\"" + inner + "\"";
    assert NoWhitespace(padded) by {
      assert forall c <- padded :: c == '"' || c in inner;
    }
    SplitWord(padded, []);
    assert [] + padded == padded;
    assert RestoreEach([padded]) == [Restore(padded)] by {
      assert [padded][1..] == [];
    }
    assert SplitWhitespace(padded) == [padded];
    assert Restore(padded) == "\"" + Visible(q, true) + "\"" by {
      RestoreConcat("\"" + inner, "\"");
      RestoreConcat("\"", inner);
      assert Restore("\"") == "\"";
    }
  }

  lemma PaddedQuoted(q: string)
    requires '"' !in q
    ensures Padded("\"" + q + "\"", false) == "\"" + Padded(q, true) + "\""
    ensures NoWhitespace(Padded(q, true)) && Restore(Padded(q, true)) == Visible(q, true)
  {
    PaddedInQuotes(q);
    PaddedConcat("\"" + q, "\"", false);
    PaddedConcat("\"", q, false);
    assert QuoteStateAfter("\"" + q, false) == QuoteStateAfter(q, true) by {
      assert ("\"" + q)[1..] == q;
    }
  }

  /** A character with no role in splitting. */
  predicate IsOrdinary(c: char) {
    !IsWhitespace(c) && !IsPunctuation(c) && c != '"' && c != '\0'
  }

  lemma {:induction false} OrdinaryUnchanged(w: string)
    requires forall c <- w :: IsOrdinary(c)
    ensures Padded(w, false) == w && Restore(w) == w && Quotes(w) == 0
  {
    if w != [] {
      assert w[0] in w && forall c <- w[1..] :: c in w;
      OrdinaryUnchanged(w[1..]);
      assert w == [w[0]] + w[1..];
    }
  }

  /** A non-empty word of ordinary characters is one piece, unchanged. */
  lemma PlainWord(w: string)
    requires w != [] && forall c <- w :: IsOrdinary(c)
    ensures Tokenized(w) == [w] && Quotes(w) == 0
  {
    OrdinaryUnchanged(w);
    assert NoWhitespace(w) by {
      forall c | c in w ensures !IsWhitespace(c) {
        assert IsOrdinary(c);
      }
    }
    SplitWord(w, []);
    assert [] + w == w;
    assert SplitWhitespace(Padded(w, false)) == [w];
    assert RestoreEach([w]) == [Restore(w)] + RestoreEach([w][1..]);
    assert [w][1..] == [];
  }

  /** Words joined by single spaces. */
  function Unwords(words: seq<string>): string {
    if |words| <= 1 then (if words == [] then [] else words[0])
    else words[0] + [' '] + Unwords(words[1..])
  }

  /** Space-separated words of ordinary characters come back as exactly those words. */
  lemma {:induction false} SpaceSeparatedWords(words: seq<string>)
    requires forall w <- words :: w != [] && forall c <- w :: IsOrdinary(c)
    ensures Tokenized(Unwords(words)) == words
  {
    if words == [] {
      assert Tokenized([]) == [];
    } else {
      assert words[0] in words;
      PlainWord(words[0]);
      if |words| > 1 {
        var rest := words[1..];
        assert forall w <- rest :: w in words;
        SpaceSeparatedWords(rest);
        WhitespaceSeparates(words[0], ' ', Unwords(rest));
        assert words == [words[0]] + rest;
      }
    }
  }

  // ---------------------------------------------------------------------------------------
  // Collecting tokens or failures
  // ---------------------------------------------------------------------------------------

  /** The tokens of the pieces that convert, in order. */
  function Converted(pieces: seq<string>, isF64: string -> bool): seq<Token> {
    if pieces == [] then []
    else
      var r := TryFromToken(pieces[|pieces| - 1], isF64);
      Converted(pieces[..|pieces| - 1], isF64) + (if r.Ok? then [r.value] else [])
  }

  /** The failures of the pieces that do not convert, in order. */
  function Failures(pieces: seq<string>, isF64: string -> bool): seq<LiteralError> {
    if pieces == [] then []
    else
      var r := TryFromToken(pieces[|pieces| - 1], isF64);
      Failures(pieces[..|pieces| - 1], isF64) + (if r.Err? then [r.error] else [])
  }

  /** What `try_from_json` returns for the given pieces. */
  function Collect(pieces: seq<string>, isF64: string -> bool): Result<seq<Token>, seq<LiteralError>> {
    var errors := Failures(pieces, isF64);
    if |errors| > 0 then Err(errors) else Ok(Converted(pieces, isF64))
  }

  /** `Token::try_from_json`, with its collecting loop. */
  method TryFromJson(json: string, isF64: string -> bool) returns (r: Result<seq<Token>, seq<LiteralError>>)
    ensures r == Collect(Tokenized(json), isF64)
  {
    var pieces := TokenizeIntoStrings(json);
    var tokens: seq<Token> := [];
    var errors: seq<LiteralError> := [];
    for i := 0 to |pieces|
      invariant tokens == Converted(pieces[..i], isF64)
      invariant errors == Failures(pieces[..i], isF64)
    {
      assert pieces[..i + 1][..i] == pieces[..i];
      match TryFromToken(pieces[i], isF64)
      case Ok(t) => tokens := tokens + [t];
      case Err(e) => errors := errors + [e];
    }
    assert pieces[..|pieces|] == pieces;
    if |errors| > 0 {
      r := Err(errors);
    } else {
      r := Ok(tokens);
    }
  }

  /** Each piece lands on exactly one side: as a token or as a failure. */
  lemma {:induction false} ConvertedOrFailed(pieces: seq<string>, isF64: string -> bool)
    ensures |Converted(pieces, isF64)| + |Failures(pieces, isF64)| == |pieces|
    ensures Failures(pieces, isF64) == [] <==> forall p <- pieces :: TryFromToken(p, isF64).Ok?
  {
    if pieces != [] {
      var init := pieces[..|pieces| - 1];
      ConvertedOrFailed(init, isF64);
      assert pieces == init + [pieces[|pieces| - 1]];
    }
  }

  /** When every piece converts, the i-th token is the i-th piece's. */
  lemma {:induction false} ConvertedAt(pieces: seq<string>, isF64: string -> bool, i: nat)
    requires forall p <- pieces :: TryFromToken(p, isF64).Ok?
    requires i < |pieces|
    ensures |Converted(pieces, isF64)| == |pieces|
    ensures Converted(pieces, isF64)[i] == TryFromToken(pieces[i], isF64).value
  {
    var init := pieces[..|pieces| - 1];
    assert forall p <- init :: TryFromToken(p, isF64).Ok? by {
      forall p | p in init ensures TryFromToken(p, isF64).Ok? {
        assert p in pieces;
      }
    }
    ConvertedOrFailed(init, isF64);
    ConvertedOrFailed(pieces, isF64);
    if i < |pieces| - 1 {
      ConvertedAt(init, isF64, i);
    }
  }

  /** Failures are reported in piece order: those of a prefix come first. */
  lemma {:induction false} FailuresConcat(a: seq<string>, b: seq<string>, isF64: string -> bool)
    ensures Failures(a + b, isF64) == Failures(a, isF64) + Failures(b, isF64)
  {
    if b != [] {
      var bInit := b[..|b| - 1];
      assert (a + b)[..|a + b| - 1] == a + bInit;
      FailuresConcat(a, bInit, isF64);
    } else {
      assert a + b == a;
    }
  }

  /**
   * `try_from_json` is `Ok` exactly when every piece converts, with one token per piece in
   * order; otherwise it reports every failure, one per failing piece.
   */
  lemma CollectOutcome(pieces: seq<string>, isF64: string -> bool)
    ensures Collect(pieces, isF64).Ok? <==> forall p <- pieces :: TryFromToken(p, isF64).Ok?
    ensures Collect(pieces, isF64).Ok? ==>
      var tokens := Collect(pieces, isF64).value;
      |tokens| == |pieces| &&
      forall i :: 0 <= i < |pieces| ==> tokens[i] == TryFromToken(pieces[i], isF64).value
    ensures Collect(pieces, isF64).Err? ==>
      |Collect(pieces, isF64).error| == |pieces| - |Converted(pieces, isF64)| > 0
  {
    ConvertedOrFailed(pieces, isF64);
    if forall p <- pieces :: TryFromToken(p, isF64).Ok? {
      forall i | 0 <= i < |pieces|
        ensures Converted(pieces, isF64)[i] == TryFromToken(pieces[i], isF64).value
      {
        ConvertedAt(pieces, isF64, i);
      }
    }
  }

}
