/** Checkpoint fields, and the typed resume state kept in them (src/core/transfer/transfer_resume.cpp). */
module TransferResume {
  import opened Basics
  import opened Decimal
  import opened TransferCheckpoint

  // ---------------------------------------------------------------- Fields

  /** The value of the first field with the key. */
  function FindField(fields: seq<Field>, key: Text): Option<Text> {
    if fields == [] then None
    else if fields[0].key == key then Some(fields[0].value)
    else FindField(fields[1..], key)
  }

  /** Replace the value of the first field with the key, or add a field at the end. */
  function SetField(fields: seq<Field>, key: Text, value: Text): seq<Field> {
    if fields == [] then [Field(key, value)]
    else if fields[0].key == key then [Field(key, value)] + fields[1..]
    else [fields[0]] + SetField(fields[1..], key, value)
  }

  function EraseField(fields: seq<Field>, key: Text): seq<Field> {
    if fields == [] then []
    else (if fields[0].key == key then [] else [fields[0]]) + EraseField(fields[1..], key)
  }

  lemma {:induction false} FindAfterSet(fields: seq<Field>, key: Text, value: Text, other: Text)
    ensures FindField(SetField(fields, key, value), other) == if other == key then Some(value)
            else FindField(fields, other)
  {
    if fields != [] {
      var rest := SetField(fields[1..], key, value);
      FindAfterSet(fields[1..], key, value, other);
      assert ([fields[0]] + rest)[1..] == rest;
      assert ([Field(key, value)] + fields[1..])[1..] == fields[1..];
    }
  }

  lemma {:induction false} FindAfterErase(fields: seq<Field>, key: Text, other: Text)
    ensures FindField(EraseField(fields, key), other) == if other == key then None else FindField(fields, other)
  {
    if fields != [] {
      var rest := EraseField(fields[1..], key);
      FindAfterErase(fields[1..], key, other);
      assert ([fields[0]] + rest)[1..] == rest;
      assert [] + rest == rest;
    }
  }

  /** A value is replaced where the key first is, or put at the end. */
  lemma {:induction false} SetInPlace(fields: seq<Field>, key: Text, value: Text) returns (i: nat)
    ensures i <= |fields| && forall j :: 0 <= j < i ==> fields[j].key != key
    ensures i < |fields| ==> fields[i].key == key && FindField(fields, key) == Some(fields[i].value)
    ensures SetField(fields, key, value)
            == if i < |fields| then fields[i := Field(key, value)] else fields + [Field(key, value)]
    ensures i == |fields| ==> FindField(fields, key) == None
  {
    if fields == [] || fields[0].key == key {
      i := 0;
    } else {
      i := SetInPlace(fields[1..], key, value);
      i := i + 1;
    }
  }

  /** Erasing goes over the fields one by one. */
  lemma {:induction false} EraseEach(fields: seq<Field>, field: Field, key: Text)
    ensures EraseField([], key) == []
    ensures EraseField(fields + [field], key) == EraseField(fields, key) + if field.key == key then [] else [field]
  {
    if fields == [] {
      assert [] + [field] == [field] && [field][1..] == [];
    } else {
      EraseEach(fields[1..], field, key);
      assert (fields + [field])[1..] == fields[1..] + [field];
    }
  }

  class CheckpointState {
    var token: Text
    var committedBytes: U64
    var fields: seq<Field>

    function Value(): Checkpoint
      reads this
    {
      Checkpoint(token, committedBytes, fields)
    }

    constructor (token: Text, committedBytes: U64)
      ensures Value() == Checkpoint(token, committedBytes, [])
    {
      this.token, this.committedBytes, fields := token, committedBytes, [];
    }

    method Find(key: Text) returns (value: Option<Text>)
      ensures value == FindField(fields, key)
    {
      for i := 0 to |fields|
        invariant FindField(fields, key) == FindField(fields[i..], key)
      {
        if fields[i].key == key {
          return Some(fields[i].value);
        }
      }
      return None;
    }

    method Set(key: Text, value: Text)
      modifies this`fields
      ensures fields == SetField(old(fields), key, value)
    {
      for i := 0 to |fields|
        invariant fields == old(fields)
        invariant SetField(fields, key, value) == fields[..i] + SetField(fields[i..], key, value)
      {
        if fields[i].key == key {
          assert SetField(fields[i..], key, value) == [Field(key, value)] + fields[i..][1..];
          assert fields[i..][1..] == fields[i + 1..];
          assert fields[i := Field(key, value)] == fields[..i] + ([Field(key, value)] + fields[i + 1..]);
          fields := fields[i := Field(key, value)];
          return;
        }
        assert fields[..i] + ([fields[i]] + SetField(fields[i + 1..], key, value))
            == fields[..i + 1] + SetField(fields[i + 1..], key, value);
      }
      assert fields[..|fields|] == fields;
      fields := fields + [Field(key, value)];
    }

    method Erase(key: Text)
      modifies this`fields
      ensures fields == EraseField(old(fields), key)
    {
      var kept: seq<Field> := [];
      for i := 0 to |fields|
        invariant fields == old(fields)
        invariant EraseField(fields, key) == kept + EraseField(fields[i..], key)
      {
        assert fields[i..][1..] == fields[i + 1..];
        if fields[i].key != key {
          assert kept + ([fields[i]] + EraseField(fields[i + 1..], key))
              == (kept + [fields[i]]) + EraseField(fields[i + 1..], key);
          kept := kept + [fields[i]];
        } else {
          assert [] + EraseField(fields[i + 1..], key) == EraseField(fields[i + 1..], key);
        }
      }
      fields := kept;
    }
  }

  // ---------------------------------------------------------------- The typed state

  datatype ResumeState = ResumeState(token: Text, committedBytes: U64, groupId: U64, itemIndex: U64, itemToken: Text)

  datatype ResumeResult = Resumed(state: ResumeState) | Unreadable(error: LoadError) | InvalidGroupId | InvalidItemIndex

  // "group_id", "batch_id", "item_index", "file_index", "item_token", "file_token"
  const GROUP_ID: Text := [103, 114, 111, 117, 112, 95, 105, 100]
  const BATCH_ID: Text := [98, 97, 116, 99, 104, 95, 105, 100]
  const ITEM_INDEX: Text := [105, 116, 101, 109, 95, 105, 110, 100, 101, 120]
  const FILE_INDEX: Text := [102, 105, 108, 101, 95, 105, 110, 100, 101, 120]
  const ITEM_TOKEN: Text := [105, 116, 101, 109, 95, 116, 111, 107, 101, 110]
  const FILE_TOKEN: Text := [102, 105, 108, 101, 95, 116, 111, 107, 101, 110]

  /** The field under its name, or else under its former name. */
  function FindResumeField(fields: seq<Field>, primary: Text, legacy: Text): Option<Text> {
    var value := FindField(fields, primary);
    if value.Some? then value else if legacy != [] then FindField(fields, legacy) else None
  }

  /** An absent field counts as zero; None where the field is there but no number. */
  function NumberField(field: Option<Text>): (r: Option<nat>)
    ensures r.Some? ==> r.value <= MAX_U64
  {
    if field == None then Some(0) else Stoull(field.value)
  }

  function FromCheckpoint(loaded: LoadResult): ResumeResult {
    if loaded.Refused? then Unreadable(loaded.error)
    else
      var fields := loaded.state.fields;
      var groupId := NumberField(FindResumeField(fields, GROUP_ID, BATCH_ID));
      var itemIndex := NumberField(FindResumeField(fields, ITEM_INDEX, FILE_INDEX));
      var itemToken := FindResumeField(fields, ITEM_TOKEN, FILE_TOKEN);
      if groupId == None then InvalidGroupId
      else if itemIndex == None then InvalidItemIndex
      else Resumed(ResumeState(loaded.state.token, loaded.state.committedBytes, groupId.value, itemIndex.value,
                               if itemToken == None then [] else itemToken.value))
  }

  function OptionalField(fields: seq<Field>, present: bool, key: Text, value: Text): seq<Field> {
    if present then SetField(fields, key, value) else fields
  }

  /** Zero numbers and an empty item token are not written. */
  function ToFields(state: ResumeState): seq<Field> {
    var group := OptionalField([], state.groupId != 0, GROUP_ID, ToDecimal(state.groupId));
    var index := OptionalField(group, state.itemIndex != 0, ITEM_INDEX, ToDecimal(state.itemIndex));
    OptionalField(index, state.itemToken != [], ITEM_TOKEN, state.itemToken)
  }

  function ToCheckpoint(state: ResumeState): Checkpoint {
    Checkpoint(state.token, state.committedBytes, ToFields(state))
  }

  method SaveResumeState(state: ResumeState) returns (output: Text)
    ensures output == Saved(ToCheckpoint(state))
  {
    var checkpoint := new CheckpointState(state.token, state.committedBytes);
    if state.groupId != 0 {
      checkpoint.Set(GROUP_ID, ToDecimal(state.groupId));
    }
    if state.itemIndex != 0 {
      checkpoint.Set(ITEM_INDEX, ToDecimal(state.itemIndex));
    }
    if state.itemToken != [] {
      checkpoint.Set(ITEM_TOKEN, state.itemToken);
    }
    output := SaveCheckpoint(checkpoint.Value());
  }

  method LoadResumeState(file: Option<Text>) returns (result: ResumeResult)
    ensures result == FromCheckpoint(if file == None then Refused(CannotOpen) else Load(file.value))
  {
    hide Load, Stoull;
    var loaded := LoadCheckpoint(file);
    if loaded.Refused? {
      return Unreadable(loaded.error);
    }
    var fields := loaded.state.fields;
    var groupId: U64, itemIndex: U64, itemToken: Text := 0, 0, [];
    var field := FindResumeField(fields, GROUP_ID, BATCH_ID);
    if field.Some? {
      var parsed := Stoull(field.value);
      if parsed == None {
        return InvalidGroupId;
      }
      groupId := parsed.value;
    }
    field := FindResumeField(fields, ITEM_INDEX, FILE_INDEX);
    if field.Some? {
      var parsed := Stoull(field.value);
      if parsed == None {
        return InvalidItemIndex;
      }
      itemIndex := parsed.value;
    }
    field := FindResumeField(fields, ITEM_TOKEN, FILE_TOKEN);
    if field.Some? {
      itemToken := field.value;
    }
    return Resumed(ResumeState(loaded.state.token, loaded.state.committedBytes, groupId, itemIndex, itemToken));
  }

  lemma FieldsOfState(state: ResumeState)
    ensures FindResumeField(ToFields(state), GROUP_ID, BATCH_ID)
         == if state.groupId != 0 then Some(ToDecimal(state.groupId)) else None
    ensures FindResumeField(ToFields(state), ITEM_INDEX, FILE_INDEX)
         == if state.itemIndex != 0 then Some(ToDecimal(state.itemIndex)) else None
    ensures FindResumeField(ToFields(state), ITEM_TOKEN, FILE_TOKEN)
         == if state.itemToken != [] then Some(state.itemToken) else None
  {
    forall name ensures FindField(ToFields(state), name)
        == if name == GROUP_ID && state.groupId != 0 then Some(ToDecimal(state.groupId))
           else if name == ITEM_INDEX && state.itemIndex != 0 then Some(ToDecimal(state.itemIndex))
           else if name == ITEM_TOKEN && state.itemToken != [] then Some(state.itemToken)
           else None
    {
      FieldsByName(state, name);
    }
  }

  lemma FieldsByName(state: ResumeState, name: Text)
    ensures FindField(ToFields(state), name)
        == if name == GROUP_ID && state.groupId != 0 then Some(ToDecimal(state.groupId))
           else if name == ITEM_INDEX && state.itemIndex != 0 then Some(ToDecimal(state.itemIndex))
           else if name == ITEM_TOKEN && state.itemToken != [] then Some(state.itemToken)
           else None
  {
    hide SetField, ToDecimal;
    var group := OptionalField([], state.groupId != 0, GROUP_ID, ToDecimal(state.groupId));
    var index := OptionalField(group, state.itemIndex != 0, ITEM_INDEX, ToDecimal(state.itemIndex));
    FindAfterSet([], GROUP_ID, ToDecimal(state.groupId), name);
    FindAfterSet(group, ITEM_INDEX, ToDecimal(state.itemIndex), name);
    FindAfterSet(index, ITEM_TOKEN, state.itemToken, name);
  }

  lemma {:induction false} SetFits(fields: seq<Field>, key: Text, value: Text)
    ensures (forall i :: 0 <= i < |SetField(fields, key, value)| ==> FieldFits(SetField(fields, key, value)[i]))
        <== (forall i :: 0 <= i < |fields| ==> FieldFits(fields[i])) && FieldFits(Field(key, value))
  {
    if fields != [] {
      SetFits(fields[1..], key, value);
    }
  }

  lemma StateFits(state: ResumeState)
    requires NEWLINE !in state.token && NEWLINE !in state.itemToken
    ensures Fits(ToCheckpoint(state))
  {
    hide SetField, ToDecimal;
    var group := OptionalField([], state.groupId != 0, GROUP_ID, ToDecimal(state.groupId));
    var index := OptionalField(group, state.itemIndex != 0, ITEM_INDEX, ToDecimal(state.itemIndex));
    DigitsAreNotNewlines(state.groupId);
    DigitsAreNotNewlines(state.itemIndex);
    SetFits([], GROUP_ID, ToDecimal(state.groupId));
    SetFits(group, ITEM_INDEX, ToDecimal(state.itemIndex));
    SetFits(index, ITEM_TOKEN, state.itemToken);
  }

  lemma {:induction false} FoundFits(fields: seq<Field>, key: Text)
    requires forall i :: 0 <= i < |fields| ==> FieldFits(fields[i])
    ensures FindField(fields, key).Some? ==> NEWLINE !in FindField(fields, key).value
  {
    if fields != [] {
      FoundFits(fields[1..], key);
    }
  }

  /** The typed state survives being saved and loaded, although zeros and empty tokens are not written,
      exactly if its two tokens have no newline. */
  lemma ResumeStateRoundTrips(state: ResumeState)
    ensures FromCheckpoint(Load(Saved(ToCheckpoint(state)))) == Resumed(state)
            <==> NEWLINE !in state.token && NEWLINE !in state.itemToken
  {
    hide Load, Saved, ToFields, FindField, ToDecimal, Stoull;
    if NEWLINE !in state.token && NEWLINE !in state.itemToken {
      StateFits(state);
      CheckpointRoundTrips(ToCheckpoint(state));
      FieldsOfState(state);
      DecimalRoundTrips(state.groupId);
      DecimalRoundTrips(state.itemIndex);
    } else if Load(Saved(ToCheckpoint(state))).Loaded? {
      LoadedFits(Saved(ToCheckpoint(state)));
      var fields := Load(Saved(ToCheckpoint(state))).state.fields;
      FoundFits(fields, ITEM_TOKEN);
      FoundFits(fields, FILE_TOKEN);
    }
  }

  /** A field under its former name is read exactly where the present name is absent: where it is there, it wins
      whatever the former one says, and whichever of the two has been set first. */
  lemma LegacyNamesAreRead(fields: seq<Field>, primary: Text, legacy: Text, former: Text, present: Text)
    requires primary != legacy && legacy != []
    ensures FindField(fields, primary) == None ==>
              FindResumeField(SetField(fields, legacy, former), primary, legacy) == Some(former)
    ensures FindResumeField(SetField(SetField(fields, legacy, former), primary, present), primary, legacy)
            == Some(present)
    ensures FindResumeField(SetField(SetField(fields, primary, present), legacy, former), primary, legacy)
            == Some(present)
  {
    FindAfterSet(fields, legacy, former, primary);
    FindAfterSet(fields, legacy, former, legacy);
    FindAfterSet(SetField(fields, legacy, former), primary, present, primary);
    FindAfterSet(fields, primary, present, primary);
    FindAfterSet(SetField(fields, primary, present), legacy, former, primary);
  }
}
