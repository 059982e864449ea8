/** The files of transfer checkpoints, character by character. */
module TransferFormat {
  import opened Basics
  import opened Decimal
  import opened TransferCheckpoint
  import opened TransferResume

  lemma Names()
    ensures VERSION_LINE == Ascii("cauth-transfer-v1")
    ensures TOKEN_PREFIX == Ascii("token=") && BYTES_PREFIX == Ascii("bytes=") && FIELD_PREFIX == Ascii("field:")
    ensures GROUP_ID == Ascii("group_id") && BATCH_ID == Ascii("batch_id")
    ensures ITEM_INDEX == Ascii("item_index") && FILE_INDEX == Ascii("file_index")
    ensures ITEM_TOKEN == Ascii("item_token") && FILE_TOKEN == Ascii("file_token")
  {}

  /** What is written for a checkpoint of one field; further fields add a line of the same form each. */
  lemma SavedByLines(token: Text, count: U64, key: Text, value: Text)
    ensures Saved(Checkpoint(token, count, [Field(key, value)]))
         == Ascii("cauth-transfer-v1\n") + (Ascii("token=") + token + Ascii("\n"))
            + (Ascii("bytes=") + ToDecimal(count) + Ascii("\n"))
            + (Ascii("field:") + key + Ascii("=") + value + Ascii("\n"))
  {
    hide ToDecimal;
    Names();
    OneFieldLine(Field(key, value));
    assert Ascii("cauth-transfer-v1\n") == Ascii("cauth-transfer-v1") + [NEWLINE];
    assert Ascii("\n") == [NEWLINE] && Ascii("=") == [EQUALS];
  }

  lemma OneFieldLine(field: Field)
    ensures FieldLines([field]) == FieldLine(field)
  {
    assert FieldLines([]) + FieldLine(field) == FieldLine(field);
  }

  lemma MoreFieldLines(state: Checkpoint, key: Text, value: Text)
    ensures Saved(state.(fields := state.fields + [Field(key, value)]))
         == Saved(state) + (Ascii("field:") + key + Ascii("=") + value + Ascii("\n"))
  {
    Names();
    assert Ascii("\n") == [NEWLINE] && Ascii("=") == [EQUALS];
    assert (state.fields + [Field(key, value)])[..|state.fields|] == state.fields;
  }

  /** What a line says: a token or a count takes the place of an earlier one, a field is added, split at its first '=',
      an empty line is nothing, and every other line is refused. */
  lemma LinesMean(state: Checkpoint, line: Text, rest: Text)
    ensures ApplyLine(state, Ascii("token=") + rest) == Loaded(Checkpoint(rest, state.committedBytes, state.fields))
    ensures ApplyLine(state, Ascii("bytes=") + rest)
         == if Stoull(rest) == None then Refused(InvalidByteCount)
            else Loaded(Checkpoint(state.token, Stoull(rest).value, state.fields))
    ensures ApplyLine(state, []) == Loaded(state)
    ensures |line| > 0 && !(Ascii("token=") <= line) && !(Ascii("bytes=") <= line) && !(Ascii("field:") <= line) ==>
              ApplyLine(state, line) == Refused(UnknownLine)
  {
    hide Stoull;
    Names();
    ApplyTokenLine(state, rest);
    ApplyBytesLine(state, rest);
  }

  lemma FieldLinesMean(state: Checkpoint, rest: Text, key: Text, value: Text)
    requires EQUALS !in key
    ensures ApplyLine(state, Ascii("field:") + key + Ascii("=") + value)
         == Loaded(Checkpoint(state.token, state.committedBytes, state.fields + [Field(key, value)]))
    ensures EQUALS !in rest ==> ApplyLine(state, Ascii("field:") + rest) == Refused(InvalidField)
  {
    hide FindEquals;
    Names();
    assert Ascii("=") == [EQUALS];
    ApplyFieldLine(state, Field(key, value));
    var line := FIELD_PREFIX + rest;
    assert line[..6] == FIELD_PREFIX && line[0] == FIELD_PREFIX[0];
    if EQUALS !in rest {
      NoEquals(rest);
    }
  }

  lemma NoEquals(rest: Text)
    requires EQUALS !in rest
    ensures FindEquals(FIELD_PREFIX + rest, 6) == |FIELD_PREFIX + rest|
  {
    hide FindEquals;
    var line := FIELD_PREFIX + rest;
    var i := FindEquals(line, 6);
    assert forall k :: 6 <= k < |line| ==> line[k] == rest[k - 6] && rest[k - 6] in rest;
  }

  /** The first line decides whether the rest is read. */
  lemma FirstLineMeans(line: Text, rest: Text)
    requires NEWLINE !in line
    ensures Load([]) == Refused(Truncated)
    ensures Load(line + Ascii("\n") + rest)
         == if line == Ascii("cauth-transfer-v1") then ApplyLines(Checkpoint([], 0, []), rest)
            else Refused(UnsupportedVersion)
  {
    hide ApplyLines;
    Names();
    var text := line + [NEWLINE] + rest;
    assert Ascii("\n") == [NEWLINE];
    LineLengthIs(line, [NEWLINE] + rest);
    assert text == line + ([NEWLINE] + rest);
    assert text[..|line|] == line && text[|line| + 1..] == rest;
  }

  // ---------------------------------------------------------------- The typed state

  /** Each of the three values is read from its field, under its present or its former name; a number that cannot be
      read is refused. */
  lemma NamesDiffer()
    ensures GROUP_ID != BATCH_ID && GROUP_ID != ITEM_INDEX && GROUP_ID != FILE_INDEX && GROUP_ID != ITEM_TOKEN
            && GROUP_ID != FILE_TOKEN
    ensures ITEM_INDEX != FILE_INDEX && ITEM_INDEX != ITEM_TOKEN && ITEM_INDEX != FILE_TOKEN && ITEM_INDEX != BATCH_ID
    ensures ITEM_TOKEN != FILE_TOKEN && ITEM_TOKEN != BATCH_ID && ITEM_TOKEN != FILE_INDEX
    ensures FILE_INDEX != BATCH_ID && FILE_INDEX != FILE_TOKEN && FILE_TOKEN != BATCH_ID
  {
    assert GROUP_ID[0] == 103 && BATCH_ID[0] == 98 && ITEM_INDEX[0] == 105 && FILE_INDEX[0] == 102;
    assert ITEM_INDEX[5] != ITEM_TOKEN[5] && FILE_INDEX[5] != FILE_TOKEN[5];
  }

  lemma FindOfThree(a: Field, b: Field, c: Field, name: Text)
    ensures FindField([a, b, c], name) == if a.key == name then Some(a.value) else if b.key == name then Some(b.value)
                                          else if c.key == name then Some(c.value) else None
  {
    assert [a, b, c][1..] == [b, c] && [b, c][1..] == [c] && [c][1..] == [];
    assert FindField([c], name) == if c.key == name then Some(c.value) else None;
    assert FindField([b, c], name) == if b.key == name then Some(b.value) else FindField([c], name);
  }

  lemma ReadByNames(token: Text, count: U64, group: Text, index: Text, item: Text, former: bool)
    ensures var fields := if former then [Field(Ascii("batch_id"), group), Field(Ascii("file_index"), index),
                                          Field(Ascii("file_token"), item)]
                          else [Field(Ascii("group_id"), group), Field(Ascii("item_index"), index),
                                Field(Ascii("item_token"), item)];
            FromCheckpoint(Loaded(Checkpoint(token, count, fields)))
            == if Stoull(group) == None then InvalidGroupId
               else if Stoull(index) == None then InvalidItemIndex
               else Resumed(ResumeState(token, count, Stoull(group).value, Stoull(index).value, item))
  {
    hide Stoull, FindField;
    Names();
    NamesDiffer();
    var a, b, c := Field(if former then BATCH_ID else GROUP_ID, group),
                   Field(if former then FILE_INDEX else ITEM_INDEX, index),
                   Field(if former then FILE_TOKEN else ITEM_TOKEN, item);
    FindOfThree(a, b, c, GROUP_ID);
    FindOfThree(a, b, c, BATCH_ID);
    FindOfThree(a, b, c, ITEM_INDEX);
    FindOfThree(a, b, c, FILE_INDEX);
    FindOfThree(a, b, c, ITEM_TOKEN);
    FindOfThree(a, b, c, FILE_TOKEN);
  }

  /** And written to it under its present name, if it is not zero or empty. */
  lemma WrittenByNames(state: ResumeState)
    ensures ToCheckpoint(state)
         == Checkpoint(state.token, state.committedBytes,
                       (if state.groupId != 0 then [Field(Ascii("group_id"), ToDecimal(state.groupId))] else [])
                       + (if state.itemIndex != 0 then [Field(Ascii("item_index"), ToDecimal(state.itemIndex))] else [])
                       + (if state.itemToken != [] then [Field(Ascii("item_token"), state.itemToken)] else []))
  {
    hide ToDecimal, ToFields;
    Names();
    FieldsWritten(state);
  }

  lemma FieldsWritten(state: ResumeState)
    ensures ToFields(state)
         == (if state.groupId != 0 then [Field(GROUP_ID, ToDecimal(state.groupId))] else [])
            + (if state.itemIndex != 0 then [Field(ITEM_INDEX, ToDecimal(state.itemIndex))] else [])
            + (if state.itemToken != [] then [Field(ITEM_TOKEN, state.itemToken)] else [])
  {
    hide ToDecimal, OptionalField;
    NamesDiffer();
    var group := if state.groupId != 0 then [Field(GROUP_ID, ToDecimal(state.groupId))] else [];
    var index := if state.itemIndex != 0 then [Field(ITEM_INDEX, ToDecimal(state.itemIndex))] else [];
    OptionalNew([], state.groupId != 0, GROUP_ID, ToDecimal(state.groupId));
    assert [] + group == group;
    OptionalNew(group, state.itemIndex != 0, ITEM_INDEX, ToDecimal(state.itemIndex));
    OptionalNew(group + index, state.itemToken != [], ITEM_TOKEN, state.itemToken);
  }

  lemma OptionalNew(fields: seq<Field>, present: bool, key: Text, value: Text)
    requires forall i :: 0 <= i < |fields| ==> fields[i].key != key
    ensures OptionalField(fields, present, key, value) == fields + if present then [Field(key, value)] else []
  {
    hide SetField;
    SetNew(fields, key, value);
  }

  lemma {:induction false} SetNew(fields: seq<Field>, key: Text, value: Text)
    requires forall i :: 0 <= i < |fields| ==> fields[i].key != key
    ensures SetField(fields, key, value) == fields + [Field(key, value)]
  {
    if fields != [] {
      SetNew(fields[1..], key, value);
    }
  }
}
