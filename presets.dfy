/**
 * The preset store of spring_tool/presets.py: one JSON document of shape
 * character -> body part -> record, which every operation reads whole and
 * every successful mutation rewrites whole.
 */
module Presets {
  import opened Wrappers

  /**
   * A body-part record. A field is None when its key is absent from the
   * JSON object or holds `null`; readers cannot tell the two apart. `extra`
   * names the keys the object holds beyond the known fields it carries: keys
   * other than the five, and known keys holding `null`. Such keys make the
   * object non-empty without giving it a value.
   */
  datatype Record = Record(
    springMode: Option<string>,
    springValue: Option<real>,
    springRigidity: Option<real>,
    decay: Option<real>,
    position: Option<seq<real>>,
    extra: set<string>)

  /** The JSON object `{}`, the only record Python treats as false. */
  const EmptyRecord: Record := Record(None, None, None, None, None, {})

  /**
   * The value stored under a body part: a JSON object, JSON `null`, or any
   * other JSON value (a list, a string, a number, a boolean).
   */
  datatype Entry = Obj(rec: Record) | Null | NonObject

  /** The body parts of one character. */
  type Character = map<string, Entry>

  /** The whole preset document. */
  type Doc = map<string, Character>

  /** The record save_preset stores for the five values it is given. */
  function SavedRecord(springMode: string, spring: real, springRigidity: real,
                       decay: real, position: seq<real>): Record
  {
    Record(Some(springMode), Some(spring), Some(springRigidity), Some(decay), Some(position), {})
  }

  // ---------------------------------------------------------------------
  // Loading and lookups
  // ---------------------------------------------------------------------

  /**
   * load_presets: no path gives None, a missing file (`file == None`) the
   * empty document, and otherwise the parsed file.
   */
  function LoadPresets(path: string, file: Option<Doc>): (r: Option<Doc>)
    ensures r.None? <==> path == ""
    ensures path != "" && file.None? ==> r == Some(map[])
    ensures path != "" && file.Some? ==> r == file
  {
    if path == "" then None
    else if file.None? then Some(map[])
    else file
  }

  /** `not presets`: no document, or an empty one. */
  predicate IsEmptyStore(store: Option<Doc>) {
    store.None? || store.value == map[]
  }

  /** `presets.get(character, {})`. */
  function PartsOf(d: Doc, character: string): Character {
    if character in d then d[character] else map[]
  }

  /** The store holds something under `character` and then `bodyPart`. */
  predicate HasPreset(store: Option<Doc>, character: string, bodyPart: string) {
    store.Some? && character in store.value && bodyPart in store.value[character]
  }

  /** No character maps to an empty set of body parts. */
  predicate NoEmptyCharacters(d: Doc) {
    forall c :: c in d ==> d[c] != map[]
  }

  /**
   * get_preset: None when the store is missing or empty or the character or
   * body part is absent, and also when the body part holds `null` (which
   * `.get` cannot tell from an absent key); otherwise exactly the stored value.
   */
  function GetPreset(store: Option<Doc>, character: string, bodyPart: string): (r: Option<Entry>)
    ensures r.Some? <==> HasPreset(store, character, bodyPart) && !store.value[character][bodyPart].Null?
    ensures r.Some? ==> r.value == store.value[character][bodyPart]
  {
    if IsEmptyStore(store) then None
    else
      var parts := PartsOf(store.value, character);
      if bodyPart in parts && !parts[bodyPart].Null? then Some(parts[bodyPart]) else None
  }

  /**
   * get_available_characters: None for a missing and for an empty store
   * alike; otherwise exactly the top-level keys.
   */
  function GetAvailableCharacters(store: Option<Doc>): (r: Option<set<string>>)
    ensures r.None? <==> IsEmptyStore(store)
    ensures r.Some? ==> r.value == store.value.Keys && r.value != {}
  {
    if IsEmptyStore(store) then None
    else
      assert store.value.Keys != {} by {
        var c :| c in store.value;
      }
      Some(store.value.Keys)
  }

  /**
   * get_available_body_parts: None for a missing or empty store, the empty
   * set for an absent character, and otherwise that character's keys.
   */
  function GetAvailableBodyParts(store: Option<Doc>, character: string): (r: Option<set<string>>)
    ensures r.None? <==> IsEmptyStore(store)
    ensures r.Some? && character !in store.value ==> r.value == {}
    ensures r.Some? && character in store.value ==> r.value == store.value[character].Keys
  {
    if IsEmptyStore(store) then None
    else Some(PartsOf(store.value, character).Keys)
  }

  // ---------------------------------------------------------------------
  // get_all_data and the tuple it returns
  // ---------------------------------------------------------------------

  /** A point `(x, y, z)`. */
  datatype Triple = Triple(x: real, y: real, z: real)

  /** A Python value in the tuple get_all_data returns. */
  datatype Value = PyNone | Str(s: string) | Num(n: real) | Points(points: seq<Triple>)

  function StrOrNone(o: Option<string>): Value {
    if o.Some? then Str(o.value) else PyNone
  }

  function NumOrNone(o: Option<real>): Value {
    if o.Some? then Num(o.value) else PyNone
  }

  /**
   * Every guard of get_all_data passes: the store, the character and the
   * record are present and non-empty, and the record is a JSON object.
   */
  predicate HasRecordData(store: Option<Doc>, character: string, bodyPart: string) {
    && !IsEmptyStore(store)
    && character in store.value
    && store.value[character] != map[]
    && bodyPart in store.value[character]
    && store.value[character][bodyPart].Obj?
    && store.value[character][bodyPart].rec != EmptyRecord
  }

  /** The tuple of four Nones that get_all_data returns when a guard fails. */
  const NoneTuple4: seq<Value> := [PyNone, PyNone, PyNone, PyNone]

  /**
   * get_all_data: four Nones when a guard fails; otherwise the five fields,
   * with the position wrapped as `[(x, y, z)]` when it is a non-empty list and
   * None when it is absent or empty. A list of one or two numbers makes the
   * wrapping raise IndexError.
   */
  function GetAllData(store: Option<Doc>, character: string, bodyPart: string): (r: Result<seq<Value>, PyError>)
    ensures !HasRecordData(store, character, bodyPart) ==> r == Success(NoneTuple4)
    ensures HasRecordData(store, character, bodyPart) ==>
              var rec := store.value[character][bodyPart].rec;
              && (r.Failure? <==> rec.position.Some? && 0 < |rec.position.value| < 3)
              && (r.Failure? ==> r.error == IndexError)
              && (r.Success? ==>
                    && |r.value| == 5
                    && r.value[0] == StrOrNone(rec.springMode)
                    && r.value[1] == NumOrNone(rec.springValue)
                    && r.value[2] == NumOrNone(rec.springRigidity)
                    && r.value[3] == NumOrNone(rec.decay))
              && (r.Success? && (rec.position.None? || rec.position.value == []) ==> r.value[4] == PyNone)
              && (r.Success? && rec.position.Some? && |rec.position.value| >= 3 ==>
                    var p := rec.position.value;
                    r.value[4] == Points([Triple(p[0], p[1], p[2])]))
  {
    if IsEmptyStore(store) then Success(NoneTuple4)
    else
      var characterData := store.value;
      if character !in characterData || characterData[character] == map[] then Success(NoneTuple4)
      else
        var parts := characterData[character];
        if bodyPart !in parts || !parts[bodyPart].Obj? || parts[bodyPart].rec == EmptyRecord then
          Success(NoneTuple4)
        else
          var rec := parts[bodyPart].rec;
          var fields := [StrOrNone(rec.springMode), NumOrNone(rec.springValue),
                         NumOrNone(rec.springRigidity), NumOrNone(rec.decay)];
          if rec.position.None? || rec.position.value == [] then Success(fields + [PyNone])
          else if |rec.position.value| < 3 then Failure(IndexError)
          else
            var p := rec.position.value;
            Success(fields + [Points([Triple(p[0], p[1], p[2])])])
  }

  /** The five values a caller unpacks from get_all_data's tuple. */
  datatype Fields = Fields(springMode: Value, springValue: Value, springRigidity: Value, decay: Value, position: Value)

  /**
   * `spring_mode, spring_value, spring_rigidity, decay, pos = t`, as the
   * preset admin window writes it: anything but five values raises ValueError.
   */
  function UnpackFive(t: seq<Value>): (r: Result<Fields, PyError>)
    ensures r.Success? <==> |t| == 5
    ensures r.Failure? ==> r.error == ValueError
    ensures r.Success? ==> [r.value.springMode, r.value.springValue, r.value.springRigidity,
                            r.value.decay, r.value.position] == t
  {
    if |t| == 5 then Success(Fields(t[0], t[1], t[2], t[3], t[4])) else Failure(ValueError)
  }

  /**
   * As written, every failed guard in get_all_data breaks its caller's
   * five-way unpacking.
   */
  lemma GetAllDataBreaksUnpacking(store: Option<Doc>, character: string, bodyPart: string)
    requires !HasRecordData(store, character, bodyPart)
    ensures GetAllData(store, character, bodyPart).Success?
    ensures UnpackFive(GetAllData(store, character, bodyPart).value) == Failure(ValueError)
  {
  }

  /**
   * An object with keys but no known value, such as `{"note": "x"}` or
   * `{"spring_mode": null}`, passes every guard: get_all_data reads it as
   * five Nones, which the caller does unpack.
   */
  lemma NoValueRecordReadsFiveNones(character: string, bodyPart: string, extra: set<string>)
    requires extra != {}
    ensures var store := Some(map[character := map[bodyPart := Obj(Record(None, None, None, None, None, extra))]]);
            && GetAllData(store, character, bodyPart) == Success([PyNone, PyNone, PyNone, PyNone, PyNone])
            && UnpackFive(GetAllData(store, character, bodyPart).value).Success?
  {
    var store := Some(map[character := map[bodyPart := Obj(Record(None, None, None, None, None, extra))]]);
    var rec := Record(None, None, None, None, None, extra);
    assert rec != EmptyRecord by { assert rec.extra != EmptyRecord.extra; }
    assert store.value[character] != map[] by { assert bodyPart in store.value[character]; }
    assert HasRecordData(store, character, bodyPart);
    var r := GetAllData(store, character, bodyPart);
    assert r.Success? && |r.value| == 5;
    assert r.value == [r.value[0], r.value[1], r.value[2], r.value[3], r.value[4]];
  }

  /** For instance a body part stored as the empty object `{}`. */
  lemma EmptyRecordBreaksUnpacking(character: string, bodyPart: string)
    ensures UnpackFive(GetAllData(Some(map[character := map[bodyPart := Obj(EmptyRecord)]]), character, bodyPart).value)
              == Failure(ValueError)
  {
    GetAllDataBreaksUnpacking(Some(map[character := map[bodyPart := Obj(EmptyRecord)]]), character, bodyPart);
  }

  /** get_all_data as evidently intended: five Nones when a guard fails. */
  function GetAllDataFixed(store: Option<Doc>, character: string, bodyPart: string): (r: Result<seq<Value>, PyError>)
    ensures HasRecordData(store, character, bodyPart) ==> r == GetAllData(store, character, bodyPart)
    ensures !HasRecordData(store, character, bodyPart) ==> r == Success(NoneTuple4 + [PyNone])
  {
    if HasRecordData(store, character, bodyPart) then GetAllData(store, character, bodyPart)
    else Success(NoneTuple4 + [PyNone])
  }

  /** The corrected tuple always unpacks into five values. */
  lemma GetAllDataFixedUnpacks(store: Option<Doc>, character: string, bodyPart: string)
    ensures GetAllDataFixed(store, character, bodyPart).Success? ==>
              UnpackFive(GetAllDataFixed(store, character, bodyPart).value).Success?
  {
  }

  /** Saved values read back exactly through get_all_data. */
  lemma GetAllDataReadsSavedRecord(store: Option<Doc>, character: string, bodyPart: string,
                                   springMode: string, spring: real, springRigidity: real,
                                   decay: real, position: seq<real>)
    requires HasPreset(store, character, bodyPart)
    requires store.value[character][bodyPart] == Obj(SavedRecord(springMode, spring, springRigidity, decay, position))
    requires |position| == 3
    ensures GetAllData(store, character, bodyPart) ==
              Success([Str(springMode), Num(spring), Num(springRigidity), Num(decay),
                       Points([Triple(position[0], position[1], position[2])])])
  {
    assert store.value[character] != map[] by {
      assert bodyPart in store.value[character];
    }
    var rec := SavedRecord(springMode, spring, springRigidity, decay, position);
    assert rec != EmptyRecord by { assert rec.springMode != EmptyRecord.springMode; }
    assert HasRecordData(store, character, bodyPart);
    var r := GetAllData(store, character, bodyPart);
    assert r.Success? && |r.value| == 5;
    assert r.value == [r.value[0], r.value[1], r.value[2], r.value[3], r.value[4]];
  }

  // ---------------------------------------------------------------------
  // rename_key on one level of the document
  // ---------------------------------------------------------------------

  /**
   * `m[newKey] = m.pop(oldKey)` when `oldKey` is present: `newKey` takes the
   * old value (overwriting what it held), `oldKey` is gone unless it is
   * `newKey`, and every other entry stays. Without `oldKey`, nothing changes.
   */
  function RenameIn<V>(m: map<string, V>, oldKey: string, newKey: string): (r: map<string, V>)
    ensures oldKey !in m ==> r == m
    ensures oldKey in m ==> r.Keys == (m.Keys - {oldKey}) + {newKey} && r[newKey] == m[oldKey]
    ensures forall k :: k in m && k != oldKey && k != newKey ==> k in r && r[k] == m[k]
  {
    if oldKey in m then (m - {oldKey})[newKey := m[oldKey]] else m
  }

  /** Renaming back undoes a rename onto a fresh key. */
  lemma RenameInUndo<V>(m: map<string, V>, oldKey: string, newKey: string)
    requires oldKey in m && newKey !in m
    ensures RenameIn(RenameIn(m, oldKey, newKey), newKey, oldKey) == m
  {
    var r := RenameIn(RenameIn(m, oldKey, newKey), newKey, oldKey);
    assert r.Keys == m.Keys;
    assert forall k :: k in m ==> r[k] == m[k];
  }

  /** The keys edit_preset assigns: those of the given values. */
  function AssignedKeys(springMode: Option<string>, spring: Option<real>,
                        springRigidity: Option<real>, decay: Option<real>,
                        position: Option<seq<real>>): set<string>
  {
    (if springMode.Some? then {"spring_mode"} else {}) +
    (if spring.Some? then {"spring_value"} else {}) +
    (if springRigidity.Some? then {"spring_rigidity"} else {}) +
    (if decay.Some? then {"decay"} else {}) +
    (if position.Some? then {"position"} else {})
  }

  /**
   * The fields of `rec` after edit_preset: each given value replaces its
   * field, and its key then holds a value, so it leaves `extra`.
   */
  function Edited(rec: Record, springMode: Option<string>, spring: Option<real>,
                  springRigidity: Option<real>, decay: Option<real>,
                  position: Option<seq<real>>): (r: Record)
    ensures springMode.Some? ==> r.springMode == springMode
    ensures springMode.None? ==> r.springMode == rec.springMode
    ensures spring.Some? ==> r.springValue == spring
    ensures spring.None? ==> r.springValue == rec.springValue
    ensures springRigidity.Some? ==> r.springRigidity == springRigidity
    ensures springRigidity.None? ==> r.springRigidity == rec.springRigidity
    ensures decay.Some? ==> r.decay == decay
    ensures decay.None? ==> r.decay == rec.decay
    ensures position.Some? ==> r.position == position
    ensures position.None? ==> r.position == rec.position
    ensures r.extra == rec.extra - AssignedKeys(springMode, spring, springRigidity, decay, position)
  {
    var r1 := if springMode.Some? then rec.(springMode := springMode, extra := rec.extra - {"spring_mode"}) else rec;
    var r2 := if spring.Some? then r1.(springValue := spring, extra := r1.extra - {"spring_value"}) else r1;
    var r3 := if springRigidity.Some? then r2.(springRigidity := springRigidity, extra := r2.extra - {"spring_rigidity"}) else r2;
    var r4 := if decay.Some? then r3.(decay := decay, extra := r3.extra - {"decay"}) else r3;
    if position.Some? then r4.(position := position, extra := r4.extra - {"position"}) else r4
  }

  /** Assigning keys never empties an object: an edited record that was non-empty stays so. */
  lemma EditedKeepsNonEmpty(rec: Record, springMode: Option<string>, spring: Option<real>,
                            springRigidity: Option<real>, decay: Option<real>,
                            position: Option<seq<real>>)
    requires rec != EmptyRecord
    ensures Edited(rec, springMode, spring, springRigidity, decay, position) != EmptyRecord
  {
    var r := Edited(rec, springMode, spring, springRigidity, decay, position);
    var given := AssignedKeys(springMode, spring, springRigidity, decay, position);
    if r.extra == {} && given == {} {
      assert springMode.None? by { assert springMode.Some? ==> "spring_mode" in given; }
      assert spring.None? by { assert spring.Some? ==> "spring_value" in given; }
      assert springRigidity.None? by { assert springRigidity.Some? ==> "spring_rigidity" in given; }
      assert decay.None? by { assert decay.Some? ==> "decay" in given; }
      assert position.None? by { assert position.Some? ==> "position" in given; }
    }
  }

  // ---------------------------------------------------------------------
  // The store: the file at one path, read and rewritten by each mutation
  // ---------------------------------------------------------------------

  class PresetStore {
    /** The configured path; "" when no preset path is set. */
    const path: string
    /** The parsed contents of the file at `path`; None while it does not exist. */
    var file: Option<Doc>

    constructor (path: string, file: Option<Doc>)
      ensures this.path == path && this.file == file
    {
      this.path := path;
      this.file := file;
    }

    /** What load_presets gives for this path now. */
    function Loaded(): Option<Doc>
      reads this
    {
      LoadPresets(path, file)
    }

    /**
     * save_preset. Without a path the membership test on None raises
     * TypeError; an existing (character, body part) raises ValueError; in both
     * cases nothing is written. Otherwise the character is created if absent,
     * the record holds exactly the five values, and the file is rewritten.
     */
    method SavePreset(character: string, bodyPart: string, springMode: string, spring: real,
                      springRigidity: real, decay: real, position: seq<real>)
      returns (r: Outcome<PyError>)
      modifies this
      ensures path == "" ==> r == Fail(TypeError) && file == old(file)
      ensures path != "" && HasPreset(old(Loaded()), character, bodyPart) ==>
                r == Fail(ValueError) && file == old(file)
      ensures path != "" && !HasPreset(old(Loaded()), character, bodyPart) ==>
                var before := old(Loaded()).value;
                && r == Pass
                && file == Some(before[character := PartsOf(before, character)[bodyPart :=
                                  Obj(SavedRecord(springMode, spring, springRigidity, decay, position))]])
      ensures r.Pass? ==>
                GetPreset(Loaded(), character, bodyPart) ==
                  Some(Obj(SavedRecord(springMode, spring, springRigidity, decay, position)))
      ensures r.Pass? ==> Loaded().value.Keys == old(Loaded()).value.Keys + {character}
      ensures r.Pass? ==> forall c, b :: (c, b) != (character, bodyPart) ==>
                GetPreset(Loaded(), c, b) == GetPreset(old(Loaded()), c, b)
      ensures NoEmptyCharacters(old(file).GetOr(map[])) ==> NoEmptyCharacters(file.GetOr(map[]))
    {
      var presets := LoadPresets(path, file);
      if presets.None? {
        return Fail(TypeError);
      }
      var d := presets.value;
      if character !in d {
        d := d[character := map[]];
      }
      if bodyPart in d[character] {
        return Fail(ValueError);
      }
      var rec := SavedRecord(springMode, spring, springRigidity, decay, position);
      d := d[character := d[character][bodyPart := Obj(rec)]];
      ghost var before := presets.value;
      assert d == before[character := PartsOf(before, character)[bodyPart := Obj(rec)]];
      file := Some(d);
      r := Pass;
    }

    /**
     * remove_preset. False, with nothing written, when the store is missing
     * or empty, the character is absent, or a given body part is absent.
     * Otherwise True: without a body part the character goes; with one, that
     * body part goes, and the character too once it has no body part left.
     */
    method RemovePreset(character: string, bodyPart: Option<string>) returns (removed: bool)
      modifies this
      ensures !removed ==> file == old(file)
      ensures removed <==>
                && !IsEmptyStore(old(Loaded()))
                && character in old(Loaded()).value
                && (bodyPart.Some? ==> bodyPart.value in old(Loaded()).value[character])
      ensures removed && bodyPart.None? ==> file == Some(old(Loaded()).value - {character})
      ensures removed && bodyPart.Some? ==>
                var before := old(Loaded()).value;
                var parts := before[character] - {bodyPart.value};
                file == Some(if parts == map[] then before - {character} else before[character := parts])
      ensures removed ==> forall c :: c in old(Loaded()).value && c != character ==>
                c in Loaded().value && Loaded().value[c] == old(Loaded()).value[c]
      ensures NoEmptyCharacters(old(file).GetOr(map[])) ==> NoEmptyCharacters(file.GetOr(map[]))
    {
      var presets := LoadPresets(path, file);
      if IsEmptyStore(presets) || character !in presets.value {
        return false;
      }
      var d := presets.value;
      if bodyPart.None? {
        d := d - {character};
      } else {
        if bodyPart.value in d[character] {
          d := d[character := d[character] - {bodyPart.value}];
        } else {
          return false;
        }
        if d[character] == map[] {
          d := d - {character};
          assert d == presets.value - {character};
        }
      }
      file := Some(d);
      removed := true;
    }

    /**
     * rename_key on the file's contents, followed by the rewrite the rename
     * dialog does. Without `parentText` the rename is of a top-level
     * (character) key; with it, of a key inside that character, and nothing
     * happens when the character is absent. Every other entry is unchanged.
     */
    method RenameKey(oldKey: string, newKey: string, parentText: Option<string>)
      requires path != "" && file.Some?
      modifies this
      ensures parentText.None? ==> file == Some(RenameIn(old(file).value, oldKey, newKey))
      ensures parentText.Some? && parentText.value !in old(file).value ==> file == old(file)
      ensures parentText.Some? && parentText.value in old(file).value ==>
                var before := old(file).value;
                var p := parentText.value;
                file == Some(before[p := RenameIn(before[p], oldKey, newKey)])
      ensures parentText.Some? ==> file.value.Keys == old(file).value.Keys
      ensures NoEmptyCharacters(old(file).value) ==> NoEmptyCharacters(file.value)
    {
      var d := file.value;
      if parentText.None? {
        if oldKey in d {
          var v := d[oldKey];
          d := (d - {oldKey})[newKey := v];
        }
      } else {
        var p := parentText.value;
        if p in d {
          if oldKey in d[p] {
            var v := d[p][oldKey];
            d := d[p := (d[p] - {oldKey})[newKey := v]];
          } else {
            assert d == d[p := RenameIn(d[p], oldKey, newKey)];
          }
        }
      }
      file := Some(d);
    }

    /**
     * edit_preset. A missing character or body part raises KeyError (TypeError
     * without a path); a stored value that is not an object, `null` included,
     * raises TypeError as soon as one field is to be set. Otherwise every given value replaces
     * its field, every None leaves its field, and nothing else changes.
     */
    method EditPreset(character: string, bodyPart: string, springMode: Option<string>,
                      spring: Option<real>, springRigidity: Option<real>, decay: Option<real>,
                      position: Option<seq<real>>)
      returns (r: Outcome<PyError>)
      modifies this
      ensures r.Fail? ==> file == old(file)
      ensures path == "" ==> r == Fail(TypeError)
      ensures path != "" && !HasPreset(old(Loaded()), character, bodyPart) ==> r == Fail(KeyError)
      ensures HasPreset(old(Loaded()), character, bodyPart) && !old(Loaded()).value[character][bodyPart].Obj? ==>
                && (r.Pass? <==> springMode.None? && spring.None? && springRigidity.None? && decay.None? && position.None?)
                && (r.Fail? ==> r.error == TypeError)
                && file == old(file)
      ensures HasPreset(old(Loaded()), character, bodyPart) && old(Loaded()).value[character][bodyPart].Obj? ==>
                var before := old(Loaded()).value;
                var rec := before[character][bodyPart].rec;
                && r == Pass
                && file == Some(before[character := before[character][bodyPart :=
                                  Obj(Edited(rec, springMode, spring, springRigidity, decay, position))]])
      ensures NoEmptyCharacters(old(file).GetOr(map[])) ==> NoEmptyCharacters(file.GetOr(map[]))
    {
      var presets := LoadPresets(path, file);
      if presets.None? {
        return Fail(TypeError);
      }
      var d := presets.value;
      if character !in d || bodyPart !in d[character] {
        return Fail(KeyError);
      }
      var preset: Entry := d[character][bodyPart];
      if !preset.Obj? {
        if springMode.Some? || spring.Some? || springRigidity.Some? || decay.Some? || position.Some? {
          return Fail(TypeError);
        }
      } else {
        var rec: Record := preset.rec;
        if springMode.Some? {
          rec := rec.(springMode := springMode, extra := rec.extra - {"spring_mode"});
        }
        if spring.Some? {
          rec := rec.(springValue := spring, extra := rec.extra - {"spring_value"});
        }
        if springRigidity.Some? {
          rec := rec.(springRigidity := springRigidity, extra := rec.extra - {"spring_rigidity"});
        }
        if decay.Some? {
          rec := rec.(decay := decay, extra := rec.extra - {"decay"});
        }
        if position.Some? {
          rec := rec.(position := position, extra := rec.extra - {"position"});
        }
        d := d[character := d[character][bodyPart := Obj(rec)]];
      }
      file := Some(d);
      r := Pass;
    }
  }
}
