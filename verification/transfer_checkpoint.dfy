/** The checkpoint files of src/core/transfer: their line format and the typed resume state on top of it. */
module TransferCheckpoint {
  import opened Basics
  import opened Decimal

  type Text = seq<byte>

  const NEWLINE: byte := 10
  const EQUALS: byte := 61

  // "cauth-transfer-v1"
  const VERSION_LINE: Text := [99, 97, 117, 116, 104, 45, 116, 114, 97, 110, 115, 102, 101, 114, 45, 118, 49]
  // "token=", "bytes=", "field:"
  const TOKEN_PREFIX: Text := [116, 111, 107, 101, 110, 61]
  const BYTES_PREFIX: Text := [98, 121, 116, 101, 115, 61]
  const FIELD_PREFIX: Text := [102, 105, 101, 108, 100, 58]

  datatype Field = Field(key: Text, value: Text)

  datatype Checkpoint = Checkpoint(token: Text, committedBytes: U64, fields: seq<Field>)

  datatype LoadError = CannotOpen | Truncated | UnsupportedVersion | InvalidByteCount | InvalidField | UnknownLine

  datatype LoadResult = Loaded(state: Checkpoint) | Refused(error: LoadError)

  // ---------------------------------------------------------------- Lines

  /** The number of characters before the first newline, or before the end. */
  function LineLength(text: Text): (n: nat)
    ensures n <= |text| && NEWLINE !in text[..n] && (n < |text| ==> text[n] == NEWLINE)
  {
    if text == [] || text[0] == NEWLINE then 0
    else
      var n := LineLength(text[1..]);
      assert text[..1 + n] == [text[0]] + text[1..][..n];
      1 + n
  }

  /** What is left after std::getline has taken a line and its newline. */
  function AfterLine(text: Text): (rest: Text)
    requires text != []
    ensures |rest| < |text|
  {
    if LineLength(text) == |text| then [] else text[LineLength(text) + 1..]
  }

  predicate StartsWith(line: Text, prefix: Text) { |prefix| <= |line| && line[..|prefix|] == prefix }

  /** The position of the first '=' at or after `from`, or the length. */
  function FindEquals(line: Text, from: nat): (i: nat)
    requires from <= |line|
    ensures from <= i <= |line| && (i < |line| ==> line[i] == EQUALS) && EQUALS !in line[from..i]
    decreases |line| - from
  {
    if from == |line| || line[from] == EQUALS then from
    else
      var i := FindEquals(line, from + 1);
      assert line[from..i] == [line[from]] + line[from + 1..i];
      i
  }

  // ---------------------------------------------------------------- Loading

  /** The effect of one line after the version line. */
  function ApplyLine(state: Checkpoint, line: Text): LoadResult {
    if StartsWith(line, TOKEN_PREFIX) then Loaded(state.(token := line[6..]))
    else if StartsWith(line, BYTES_PREFIX) then
      match Stoull(line[6..])
      case None => Refused(InvalidByteCount)
      case Some(count) => Loaded(state.(committedBytes := count))
    else if StartsWith(line, FIELD_PREFIX) then
      var separator := FindEquals(line, 6);
      if separator == |line| then Refused(InvalidField)
      else Loaded(state.(fields := state.fields + [Field(line[6..separator], line[separator + 1..])]))
    else if line == [] then Loaded(state)
    else Refused(UnknownLine)
  }

  function ApplyLines(state: Checkpoint, text: Text): LoadResult
    decreases |text|
  {
    if text == [] then Loaded(state)
    else
      var applied := ApplyLine(state, text[..LineLength(text)]);
      if applied.Refused? then applied else ApplyLines(applied.state, AfterLine(text))
  }

  const EMPTY := Checkpoint([], 0, [])

  /** The checkpoint that a file holds. */
  function Load(text: Text): LoadResult {
    if text == [] then Refused(Truncated)
    else if text[..LineLength(text)] != VERSION_LINE then Refused(UnsupportedVersion)
    else ApplyLines(EMPTY, AfterLine(text))
  }

  method LoadCheckpoint(file: Option<Text>) returns (result: LoadResult)
    ensures result == match file case None => Refused(CannotOpen) case Some(text) => Load(text)
  {
    if file == None {
      return Refused(CannotOpen);
    }
    var input := file.value;
    if input == [] {
      return Refused(Truncated);
    }
    var line := input[..LineLength(input)];
    input := AfterLine(input);
    if line != VERSION_LINE {
      return Refused(UnsupportedVersion);
    }
    var state := EMPTY;
    while input != []
      invariant ApplyLines(EMPTY, AfterLine(file.value)) == ApplyLines(state, input)
      decreases |input|
    {
      line := input[..LineLength(input)];
      var applied := ApplyLine(state, line);
      if applied.Refused? {
        return applied;
      }
      state := applied.state;
      input := AfterLine(input);
    }
    return Loaded(state);
  }

  // ---------------------------------------------------------------- Saving

  function FieldLine(field: Field): Text {
    FIELD_PREFIX + field.key + [EQUALS] + field.value + [NEWLINE]
  }

  function FieldLines(fields: seq<Field>): Text {
    if fields == [] then [] else FieldLines(fields[..|fields| - 1]) + FieldLine(fields[|fields| - 1])
  }

  function Header(token: Text, committedBytes: U64): Text {
    VERSION_LINE + [NEWLINE] + (TOKEN_PREFIX + token + [NEWLINE])
        + (BYTES_PREFIX + ToDecimal(committedBytes) + [NEWLINE])
  }

  function Saved(state: Checkpoint): Text {
    Header(state.token, state.committedBytes) + FieldLines(state.fields)
  }

  method SaveCheckpoint(state: Checkpoint) returns (output: Text)
    ensures output == Saved(state)
  {
    output := VERSION_LINE + [NEWLINE];
    output := output + TOKEN_PREFIX + state.token + [NEWLINE];
    output := output + BYTES_PREFIX + ToDecimal(state.committedBytes) + [NEWLINE];
    assert output == Header(state.token, state.committedBytes);
    for i := 0 to |state.fields|
      invariant output == Header(state.token, state.committedBytes) + FieldLines(state.fields[..i])
    {
      var field := state.fields[i];
      assert state.fields[..i + 1][..i] == state.fields[..i];
      output := output + FIELD_PREFIX + field.key + [EQUALS] + field.value + [NEWLINE];
    }
    assert state.fields[..|state.fields|] == state.fields;
  }

  // ---------------------------------------------------------------- Round trip

  predicate FieldFits(field: Field) {
    NEWLINE !in field.key && EQUALS !in field.key && NEWLINE !in field.value
  }

  /** What the line format can carry. */
  predicate Fits(state: Checkpoint) {
    NEWLINE !in state.token && forall i :: 0 <= i < |state.fields| ==> FieldFits(state.fields[i])
  }

  lemma {:induction false} LineLengthIs(line: Text, rest: Text)
    requires NEWLINE !in line && (rest == [] || rest[0] == NEWLINE)
    ensures LineLength(line + rest) == |line|
  {
    if line == [] {
      assert line + rest == rest;
    } else {
      LineLengthIs(line[1..], rest);
      assert (line + rest)[1..] == line[1..] + rest;
    }
  }

  /** A complete line is taken off, and applied. */
  lemma ApplyFirstLine(state: Checkpoint, line: Text, rest: Text)
    requires NEWLINE !in line
    ensures ApplyLines(state, line + [NEWLINE] + rest)
         == if ApplyLine(state, line).Refused? then ApplyLine(state, line)
            else ApplyLines(ApplyLine(state, line).state, rest)
  {
    hide ApplyLine;
    var text := line + [NEWLINE] + rest;
    LineLengthIs(line, [NEWLINE] + rest);
    assert text == line + ([NEWLINE] + rest);
    assert text[..|line|] == line && text[|line| + 1..] == rest;
  }

  lemma ApplyTokenLine(state: Checkpoint, token: Text)
    ensures ApplyLine(state, TOKEN_PREFIX + token) == Loaded(state.(token := token))
  {
    assert (TOKEN_PREFIX + token)[..6] == TOKEN_PREFIX && (TOKEN_PREFIX + token)[6..] == token;
  }

  lemma ApplyBytesLine(state: Checkpoint, digits: Text)
    ensures ApplyLine(state, BYTES_PREFIX + digits)
         == if Stoull(digits) == None then Refused(InvalidByteCount)
            else Loaded(state.(committedBytes := Stoull(digits).value))
  {
    assert (BYTES_PREFIX + digits)[..6] == BYTES_PREFIX && (BYTES_PREFIX + digits)[6..] == digits;
    assert (BYTES_PREFIX + digits)[0] != TOKEN_PREFIX[0];
  }

  lemma ApplyFieldLine(state: Checkpoint, field: Field)
    requires EQUALS !in field.key
    ensures ApplyLine(state, FIELD_PREFIX + field.key + [EQUALS] + field.value)
         == Loaded(state.(fields := state.fields + [field]))
  {
    var line := FIELD_PREFIX + field.key + [EQUALS] + field.value;
    assert line[..6] == FIELD_PREFIX && line[0] == FIELD_PREFIX[0];
    FindEqualsAt(line, 6, 6 + |field.key|);
    assert line[6..6 + |field.key|] == field.key && line[7 + |field.key|..] == field.value;
  }

  lemma {:induction false} FindEqualsAt(line: Text, from: nat, i: nat)
    requires from <= i < |line| && line[i] == EQUALS && EQUALS !in line[from..i]
    ensures FindEquals(line, from) == i
    decreases i - from
  {
    if from < i {
      assert line[from..i] == [line[from]] + line[from + 1..i];
      FindEqualsAt(line, from + 1, i);
    }
  }

  lemma {:induction false} ApplyFieldLines(state: Checkpoint, fields: seq<Field>, rest: Text)
    requires forall i :: 0 <= i < |fields| ==> FieldFits(fields[i])
    ensures ApplyLines(state, FieldLines(fields) + rest)
         == ApplyLines(state.(fields := state.fields + fields), rest)
    decreases |fields|
  {
    hide ApplyLine, ApplyLines;
    if fields == [] {
      assert [] + rest == rest && state.fields + fields == state.fields;
    } else {
      var before, field := fields[..|fields| - 1], fields[|fields| - 1];
      ApplyFieldLines(state, before, FieldLine(field) + rest);
      assert FieldLines(fields) + rest == FieldLines(before) + (FieldLine(field) + rest);
      var line := FIELD_PREFIX + field.key + [EQUALS] + field.value;
      assert FieldLine(field) + rest == line + [NEWLINE] + rest;
      var middle := state.(fields := state.fields + before);
      ApplyFieldLine(middle, field);
      ApplyFirstLine(middle, line, rest);
      assert middle.fields + [field] == state.fields + fields;
    }
  }

  /** The version line leads to the token and byte count lines. */
  lemma LoadAfterVersion(rest: Text)
    ensures Load(VERSION_LINE + [NEWLINE] + rest) == ApplyLines(EMPTY, rest)
  {
    hide ApplyLines;
    var text := VERSION_LINE + [NEWLINE] + rest;
    LineLengthIs(VERSION_LINE, [NEWLINE] + rest);
    assert text == VERSION_LINE + ([NEWLINE] + rest);
    assert text[..17] == VERSION_LINE && text[18..] == rest;
  }

  lemma DigitsAreNotNewlines(n: nat)
    ensures NEWLINE !in ToDecimal(n)
  {
    assert forall i :: 0 <= i < |ToDecimal(n)| ==> IsDigit(ToDecimal(n)[i]);
  }

  lemma LoadHeader(token: Text, committedBytes: U64, rest: Text)
    requires NEWLINE !in token
    ensures Load(Header(token, committedBytes) + rest) == ApplyLines(Checkpoint(token, committedBytes, []), rest)
  {
    hide ApplyLine, ApplyLines, Load, ToDecimal;
    var digits := ToDecimal(committedBytes);
    var tokenLine, bytesLine := TOKEN_PREFIX + token, BYTES_PREFIX + digits;
    var afterToken := bytesLine + [NEWLINE] + rest;
    LoadAfterVersion(tokenLine + [NEWLINE] + afterToken);
    assert Header(token, committedBytes) + rest == VERSION_LINE + [NEWLINE] + (tokenLine + [NEWLINE] + afterToken);
    ApplyTokenLine(EMPTY, token);
    ApplyFirstLine(EMPTY, tokenLine, afterToken);
    DigitsAreNotNewlines(committedBytes);
    DecimalRoundTrips(committedBytes);
    ApplyBytesLine(EMPTY.(token := token), digits);
    ApplyFirstLine(EMPTY.(token := token), bytesLine, rest);
  }

  lemma SavedLoads(state: Checkpoint)
    requires Fits(state)
    ensures Load(Saved(state)) == Loaded(state)
  {
    hide Load, ApplyLine;
    LoadHeader(state.token, state.committedBytes, FieldLines(state.fields));
    ApplyFieldLines(Checkpoint(state.token, state.committedBytes, []), state.fields, []);
    assert FieldLines(state.fields) + [] == FieldLines(state.fields);
    assert [] + state.fields == state.fields;
  }

  lemma LineFits(state: Checkpoint, line: Text)
    requires Fits(state) && NEWLINE !in line && ApplyLine(state, line).Loaded?
    ensures Fits(ApplyLine(state, line).state)
  {
    hide Stoull;
  }

  lemma {:induction false} LinesFit(state: Checkpoint, text: Text)
    requires Fits(state) && ApplyLines(state, text).Loaded?
    ensures Fits(ApplyLines(state, text).state)
    decreases |text|
  {
    hide ApplyLine, Fits;
    if text != [] {
      LineFits(state, text[..LineLength(text)]);
      LinesFit(ApplyLine(state, text[..LineLength(text)]).state, AfterLine(text));
    }
  }

  /** Nothing that does not fit is ever loaded, whatever the file holds. */
  lemma LoadedFits(text: Text)
    requires Load(text).Loaded?
    ensures Fits(Load(text).state)
  {
    LinesFit(EMPTY, AfterLine(text));
  }

  /** A saved checkpoint loads back unchanged, exactly if token and values have no newline and keys have
      neither newline nor '='. */
  lemma CheckpointRoundTrips(state: Checkpoint)
    ensures Load(Saved(state)) == Loaded(state) <==> Fits(state)
  {
    if Fits(state) {
      SavedLoads(state);
    } else if Load(Saved(state)) == Loaded(state) {
      LoadedFits(Saved(state));
    }
  }

  // ---------------------------------------------------------------- Tokens with newlines

  /** Complete lines are applied before what follows them. */
  lemma {:induction false} ApplyLinesInTurn(state: Checkpoint, text: Text, rest: Text)
    requires text == [] || text[|text| - 1] == NEWLINE
    ensures ApplyLines(state, text + rest)
         == if ApplyLines(state, text).Refused? then ApplyLines(state, text)
            else ApplyLines(ApplyLines(state, text).state, rest)
    decreases |text|
  {
    hide ApplyLine, ApplyLines;
    if text == [] {
      assert text + rest == rest;
      NothingApplied();
    } else {
      var n := LineLength(text);
      var line, after := text[..n], text[n + 1..];
      assert text == line + [NEWLINE] + after;
      assert text + rest == line + [NEWLINE] + (after + rest);
      ApplyFirstLine(state, line, after);
      ApplyFirstLine(state, line, after + rest);
      if ApplyLine(state, line).Loaded? {
        ApplyLinesInTurn(ApplyLine(state, line).state, after, rest);
      }
    }
  }

  /** What the lines of a token say, when a saved checkpoint is loaded. */
  function TokenLines(token: Text): LoadResult { ApplyLines(EMPTY, TOKEN_PREFIX + token + [NEWLINE]) }

  /** Loading what was saved, for every token. */
  lemma LoadSavedToken(token: Text, committedBytes: U64)
    ensures Load(Saved(Checkpoint(token, committedBytes, [])))
         == if TokenLines(token).Refused? then TokenLines(token)
            else Loaded(TokenLines(token).state.(committedBytes := committedBytes))
  {
    hide Load, ApplyLine, ApplyLines, ToDecimal;
    var tokenPart := TOKEN_PREFIX + token + [NEWLINE];
    var digits := ToDecimal(committedBytes);
    var bytesPart := BYTES_PREFIX + digits + [NEWLINE];
    assert Saved(Checkpoint(token, committedBytes, [])) == VERSION_LINE + [NEWLINE] + (tokenPart + bytesPart);
    LoadAfterVersion(tokenPart + bytesPart);
    ApplyLinesInTurn(EMPTY, tokenPart, bytesPart);
    if TokenLines(token).Loaded? {
      var state := TokenLines(token).state;
      DigitsAreNotNewlines(committedBytes);
      DecimalRoundTrips(committedBytes);
      ApplyBytesLine(state, digits);
      assert bytesPart == BYTES_PREFIX + digits + [NEWLINE] + [];
      ApplyFirstLine(state, BYTES_PREFIX + digits, []);
      NothingApplied();
    }
  }

  /** A token without newline says just itself; none with a newline does. */
  lemma PlainTokenLines(token: Text)
    ensures TokenLines(token) == Loaded(Checkpoint(token, 0, [])) <==> NEWLINE !in token
    ensures TokenLines(token).Loaded? ==> Fits(TokenLines(token).state)
  {
    if NEWLINE !in token {
      hide ApplyLine, ApplyLines;
      assert TOKEN_PREFIX + token + [NEWLINE] == TOKEN_PREFIX + token + [NEWLINE] + [];
      ApplyTokenLine(EMPTY, token);
      ApplyFirstLine(EMPTY, TOKEN_PREFIX + token, []);
      NothingApplied();
    }
    if TokenLines(token).Loaded? {
      LinesFit(EMPTY, TOKEN_PREFIX + token + [NEWLINE]);
    }
  }

  /** A token that reads like two token lines says the second one. */
  lemma SplitTokenLines(first: Text, second: Text)
    requires NEWLINE !in first && NEWLINE !in second
    ensures TokenLines(first + [NEWLINE] + TOKEN_PREFIX + second) == Loaded(Checkpoint(second, 0, []))
  {
    hide ApplyLine, ApplyLines;
    var token := first + [NEWLINE] + TOKEN_PREFIX + second;
    var rest := TOKEN_PREFIX + second + [NEWLINE];
    assert TOKEN_PREFIX + token + [NEWLINE] == TOKEN_PREFIX + first + [NEWLINE] + rest;
    ApplyTokenLine(EMPTY, first);
    ApplyFirstLine(EMPTY, TOKEN_PREFIX + first, rest);
    assert rest == TOKEN_PREFIX + second + [NEWLINE] + [];
    ApplyTokenLine(EMPTY.(token := first), second);
    ApplyFirstLine(EMPTY.(token := first), TOKEN_PREFIX + second, []);
    NothingApplied();
  }

  // ---------------------------------------------------------------- Torn files

  /** A file that the writer did not finish, of a checkpoint without fields: when it shows a byte count at
      all, its token is complete. */
  lemma TornHeader(token: Text, committedBytes: U64, torn: Text)
    requires NEWLINE !in token && torn <= Header(token, committedBytes)
    requires Load(torn).Loaded? && Load(torn).state.committedBytes > 0
    ensures Load(torn).state.token == token
  {
    hide Load, ToDecimal, ApplyLines;
    var rest := TOKEN_PREFIX + token + [NEWLINE] + BytesLine(committedBytes);
    assert Header(token, committedBytes) == VERSION_LINE + [NEWLINE] + rest;
    if |torn| < 18 {
      TornVersion(torn, rest);
    } else {
      PrefixSplits(torn, VERSION_LINE + [NEWLINE], rest);
      LoadAfterVersion(torn[18..]);
      TornBody(EMPTY, token, committedBytes, torn[18..]);
    }
  }

  function BytesLine(committedBytes: U64): Text { BYTES_PREFIX + ToDecimal(committedBytes) + [NEWLINE] }

  /** A token with a newline in it can read like two token lines; then the second one counts, also in a file that
      was not finished. */
  lemma TornSplitHeader(first: Text, second: Text, committedBytes: U64, torn: Text)
    requires NEWLINE !in first && NEWLINE !in second
    requires torn <= Header(first + [NEWLINE] + TOKEN_PREFIX + second, committedBytes)
    requires Load(torn).Loaded? && Load(torn).state.committedBytes > 0
    ensures Load(torn).state.token == second
  {
    hide Load, ToDecimal, ApplyLine, ApplyLines;
    var body := TOKEN_PREFIX + second + [NEWLINE] + BytesLine(committedBytes);
    var rest := TOKEN_PREFIX + first + [NEWLINE] + body;
    assert Header(first + [NEWLINE] + TOKEN_PREFIX + second, committedBytes) == VERSION_LINE + [NEWLINE] + rest;
    if |torn| < 18 {
      TornVersion(torn, rest);
    } else {
      PrefixSplits(torn, VERSION_LINE + [NEWLINE], rest);
      var left := torn[18..];
      LoadAfterVersion(left);
      if |left| <= 6 + |first| {
        assert left == (TOKEN_PREFIX + first)[..|left|];
        TornToken(EMPTY, first, left);
      } else {
        PrefixSplits(left, TOKEN_PREFIX + first + [NEWLINE], body);
        ApplyTokenLine(EMPTY, first);
        ApplyFirstLine(EMPTY, TOKEN_PREFIX + first, left[7 + |first|..]);
        TornBody(EMPTY.(token := first), second, committedBytes, left[7 + |first|..]);
      }
    }
  }

  /** The token line and the byte count line, not finished. */
  lemma TornBody(state: Checkpoint, token: Text, committedBytes: U64, rest: Text)
    requires NEWLINE !in token && state.committedBytes == 0
    requires rest <= TOKEN_PREFIX + token + [NEWLINE] + BytesLine(committedBytes)
    ensures var r := ApplyLines(state, rest);
            r.Loaded? && r.state.committedBytes > 0 ==> r.state.token == token
  {
    hide ToDecimal, ApplyLine, ApplyLines;
    var line := TOKEN_PREFIX + token;
    if |rest| <= |line| {
      assert rest == line[..|rest|];
      TornToken(state, token, rest);
    } else {
      PrefixSplits(rest, line + [NEWLINE], BytesLine(committedBytes));
      ApplyTokenLine(state, token);
      ApplyFirstLine(state, line, rest[|line| + 1..]);
      TornBytes(state.(token := token), committedBytes, rest[|line| + 1..]);
    }
  }

  lemma PrefixSplits(torn: Text, first: Text, rest: Text)
    requires torn <= first + rest && |first| <= |torn|
    ensures torn == first + torn[|first|..] && torn[|first|..] <= rest
  {
    assert torn == (first + rest)[..|torn|];
  }

  lemma TornVersion(torn: Text, rest: Text)
    requires |torn| < 18 && torn <= VERSION_LINE + [NEWLINE] + rest
    ensures Load(torn).Loaded? ==> Load(torn).state == EMPTY
  {
    if torn != [] {
      assert torn == VERSION_LINE[..|torn|];
      LineLengthIs(torn, []);
      assert torn + [] == torn;
    }
  }

  /** The last line of a file, without a newline. */
  lemma ApplyLastLine(state: Checkpoint, line: Text)
    requires NEWLINE !in line
    ensures ApplyLines(state, line) == if line == [] then Loaded(state) else ApplyLine(state, line)
  {
    hide ApplyLine;
    if line != [] {
      LineLengthIs(line, []);
      assert line + [] == line && line[..|line|] == line;
    }
  }

  lemma TornToken(state: Checkpoint, token: Text, line: Text)
    requires NEWLINE !in token && line <= TOKEN_PREFIX + token
    ensures ApplyLines(state, line).Loaded? ==> ApplyLines(state, line).state.committedBytes == state.committedBytes
  {
    hide ApplyLines;
    assert NEWLINE !in TOKEN_PREFIX + token;
    ApplyLastLine(state, line);
    if line != [] {
      assert line[0] == TOKEN_PREFIX[0];
    }
  }

  lemma TornBytes(state: Checkpoint, committedBytes: U64, rest: Text)
    requires rest <= BYTES_PREFIX + ToDecimal(committedBytes) + [NEWLINE]
    ensures var r := ApplyLines(state, rest);
            r.Loaded? ==> r.state == state.(committedBytes := r.state.committedBytes)
  {
    hide ToDecimal, Stoull, ApplyLines;
    DigitsAreNotNewlines(committedBytes);
    var line := BYTES_PREFIX + ToDecimal(committedBytes);
    if rest == [] {
      NothingApplied();
    } else if |rest| <= |line| {
      assert rest == line[..|rest|];
      ApplyLastLine(state, rest);
      assert rest[0] == BYTES_PREFIX[0];
    } else {
      assert rest == line + [NEWLINE] + [];
      ApplyFirstLine(state, line, []);
      ApplyBytesLine(state, ToDecimal(committedBytes));
      NothingApplied();
    }
  }

  /** A file that the writer did not finish is torn in the version line, in the lines of the token, or after
      them, where it says what they say but for the byte count. */
  lemma TornAnyHeader(token: Text, committedBytes: U64, torn: Text)
    requires torn <= Header(token, committedBytes)
    ensures var body := TOKEN_PREFIX + token;
            (Load(torn).Loaded? ==> Load(torn).state.committedBytes == 0)
            || (18 <= |torn| <= 18 + |body| && Load(torn) == ApplyLines(EMPTY, body[..|torn| - 18]))
            || (TokenLines(token).Refused? && Load(torn) == TokenLines(token))
            || (TokenLines(token).Loaded?
                && (Load(torn).Loaded? ==>
                      Load(torn).state == TokenLines(token).state.(committedBytes := Load(torn).state.committedBytes)))
  {
    hide Load, ToDecimal, ApplyLine, ApplyLines;
    var body, bytesPart := TOKEN_PREFIX + token, BytesLine(committedBytes);
    var rest := body + [NEWLINE] + bytesPart;
    assert Header(token, committedBytes) == VERSION_LINE + [NEWLINE] + rest;
    if |torn| < 18 {
      TornVersion(torn, rest);
    } else {
      PrefixSplits(torn, VERSION_LINE + [NEWLINE], rest);
      var left := torn[18..];
      LoadAfterVersion(left);
      if |left| <= |body| {
        assert left == body[..|left|];
      } else {
        PrefixSplits(left, body + [NEWLINE], bytesPart);
        ApplyLinesInTurn(EMPTY, body + [NEWLINE], left[|body| + 1..]);
        if TokenLines(token).Loaded? {
          TornBytes(TokenLines(token).state, committedBytes, left[|body| + 1..]);
        }
      }
    }
  }

  /** Each of the beginnings of a token's lines can be what is left. */
  lemma TornInToken(token: Text, committedBytes: U64, k: nat)
    requires k <= |TOKEN_PREFIX + token|
    ensures var torn := VERSION_LINE + [NEWLINE] + (TOKEN_PREFIX + token)[..k];
            torn <= Header(token, committedBytes) && Load(torn) == ApplyLines(EMPTY, (TOKEN_PREFIX + token)[..k])
  {
    hide ToDecimal, Load, ApplyLines;
    var part := (TOKEN_PREFIX + token)[..k];
    var torn, header := VERSION_LINE + [NEWLINE] + part, Header(token, committedBytes);
    LoadAfterVersion(part);
    assert header == VERSION_LINE + [NEWLINE] + (TOKEN_PREFIX + token) + ([NEWLINE] + BytesLine(committedBytes));
    assert header[..|torn|] == torn;
  }

  lemma NothingApplied()
    ensures forall state :: ApplyLines(state, []) == Loaded(state)
  {}
}
