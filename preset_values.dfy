/**
 * How the main window turns a stored preset into widget settings
 * (set_values_from_preset in spring_tool/spring_tool.py): each missing field
 * falls back to the tool's default.
 */
module PresetValues {
  import opened Wrappers
  import opened Presets

  const DefaultSpringMode: string := "rotation"
  const DefaultSpringValue: real := 0.45
  const DefaultDecayValue: real := 1.2
  const DefaultRigidityValue: real := 7.0

  /**
   * `spring_mode == 'rotation' or spring_mode is None`: the rotation button is
   * checked, in the main window and in the save-preset popup alike.
   */
  predicate IsRotationMode(springMode: Option<string>) {
    springMode.None? || springMode.value == "rotation"
  }

  /** The values set_values_from_preset puts into the window. */
  datatype Settings = Settings(
    rotation: bool,
    springValue: real,
    springRigidity: real,
    decay: real,
    position: Option<seq<real>>)

  /**
   * set_values_from_preset on what get_preset returned. No preset, or a
   * stored value that is not an object, has no `.get`: AttributeError.
   * Otherwise every field is the stored one when present and the default
   * when absent, and rotation mode is chosen exactly when the mode is absent
   * or is 'rotation'.
   */
  function ResolvePreset(preset: Option<Entry>): (r: Result<Settings, PyError>)
    ensures r.Failure? <==> preset.None? || !preset.value.Obj?
    ensures r.Failure? ==> r.error == AttributeError
    ensures r.Success? ==>
              var rec := preset.value.rec;
              && (r.value.rotation <==> rec.springMode.None? || rec.springMode == Some("rotation"))
              && (rec.springValue.Some? ==> r.value.springValue == rec.springValue.value)
              && (rec.springValue.None? ==> r.value.springValue == 0.45)
              && (rec.springRigidity.Some? ==> r.value.springRigidity == rec.springRigidity.value)
              && (rec.springRigidity.None? ==> r.value.springRigidity == 7.0)
              && (rec.decay.Some? ==> r.value.decay == rec.decay.value)
              && (rec.decay.None? ==> r.value.decay == 1.2)
              && r.value.position == rec.position
  {
    if preset.None? || !preset.value.Obj? then Failure(AttributeError)
    else
      var rec := preset.value.rec;
      var springMode := rec.springMode.GetOr(DefaultSpringMode);
      Success(Settings(
        IsRotationMode(Some(springMode)),
        rec.springValue.GetOr(DefaultSpringValue),
        rec.springRigidity.GetOr(DefaultRigidityValue),
        rec.decay.GetOr(DefaultDecayValue),
        rec.position))
  }

  /** A preset the store saved resolves to exactly the saved values. */
  lemma ResolveSavedPreset(store: Option<Doc>, character: string, bodyPart: string,
                           springMode: string, spring: real, springRigidity: real,
                           decay: real, position: seq<real>)
    requires GetPreset(store, character, bodyPart) ==
               Some(Obj(SavedRecord(springMode, spring, springRigidity, decay, position)))
    ensures ResolvePreset(GetPreset(store, character, bodyPart)) ==
              Success(Settings(springMode == "rotation", spring, springRigidity, decay, Some(position)))
  {
  }

  /** A preset that is absent from the store makes set_values_from_preset raise. */
  lemma ResolveMissingPreset(store: Option<Doc>, character: string, bodyPart: string)
    requires !HasPreset(store, character, bodyPart)
    ensures ResolvePreset(GetPreset(store, character, bodyPart)) == Failure(AttributeError)
  {
  }
}
