# Spring tool: preset store and naming helpers

Spring tool is a Maya animation helper. It makes rig controllers follow a
particle goal, so they overshoot and settle like a spring, and then bakes the
result as keys. This project models the two parts of it that are not UI or
host calls, and proves properties of them.

- **The preset store** (`spring_tool/presets.py`). It is one JSON document of
  shape `character -> body part -> record`. A record has the fields
  `spring_mode`, `spring_value`, `spring_rigidity`, `decay` and `position`.
  - `load_presets` is modelled as a function of the configured path and the
    parsed file. The path is `""` when no path is set; the file is `None`
    when it does not exist.
  - The lookups (`get_preset`, `get_available_characters`,
    `get_available_body_parts`, `get_all_data`) are functions.
  - The mutations (`save_preset`, `remove_preset`, `rename_key`,
    `edit_preset`) are methods of the class `PresetStore`. Each one updates
    the `file` field in place, the way the source rewrites the whole file.
  - Python exceptions become the `PyError` values of a `Result` or `Outcome`.
- **Helpers in `spring_tool/spring_tool.py`.**
  - Namespace stripping: `rpartition(':')` and `split(':')[-1]`.
  - Animation-layer names.
  - Mirror-name lookup over the `MIRROR` table. Maya's `objExists` is passed
    in as a predicate.
  - The aim axis chosen by `get_direction`, and the `AIM_VECTORS` table it
    feeds.
  - The two goal-weight clamps.
  - The defaults `set_values_from_preset` falls back to.

The modules are `Wrappers` (Option, Result, Outcome, PyError), `Presets`,
`Naming`, `Aim`, `Weights` and `PresetValues`.

Some behaviour of `spring_tool/presets.py` worth knowing before the table:

- `save_preset` compares body-part names exactly, so the comparison is
  case-sensitive. It has no overwrite option: a second save of the same key
  always raises ValueError.
- `get_available_characters` and `get_available_body_parts` return None both
  when the store is missing and when it is empty, so those two cases are
  indistinguishable.
- `rename_key` of an absent key or parent does nothing and reports nothing.
- `edit_preset` of an absent preset raises KeyError; it is not a no-op.

## Model

| member | source | states |
|---|---|---|
| Presets.LoadPresets | spring_tool/presets.py:69-76 | no path gives None; a missing file gives the empty document; otherwise the parsed file |
| Presets.GetPreset | spring_tool/presets.py:79-83 | a result exists iff the store holds the character and then the body part, and that body part is not JSON `null` (for which `.get` also gives None); it is exactly the stored value |
| Presets.GetAvailableCharacters | spring_tool/presets.py:118-122 | None iff the store is missing or empty; otherwise exactly the top-level keys, never empty |
| Presets.GetAvailableBodyParts | spring_tool/presets.py:125-129 | None iff the store is missing or empty; the empty set for an absent character; otherwise that character's keys |
| Presets.GetAllData | spring_tool/presets.py:159-183 | four Nones when any guard fails (missing/empty store, missing/empty character, missing/empty/non-object record, where an object holding only unknown or `null`-valued keys is not empty); otherwise five values, with the position as `[(x, y, z)]` or None; IndexError exactly when the position has one or two numbers |
| Presets.UnpackFive | spring_tool/presets_admin.py:253-259 | the five-name unpacking succeeds iff the tuple has five values, and then yields them in order; otherwise ValueError |
| Presets.GetAllDataBreaksUnpacking | spring_tool/presets.py:163-172 | as written, whenever a guard fails the four-None tuple comes back, and unpacking it into five names raises ValueError |
| Presets.EmptyRecordBreaksUnpacking | spring_tool/presets.py:170-172 | a body part stored as `{}` is one such input |
| Presets.NoValueRecordReadsFiveNones | spring_tool/presets.py:170-183 | an object with keys but no known value, such as `{"note": "x"}` or `{"spring_mode": null}`, passes the guards and reads as five Nones, which do unpack |
| Presets.GetAllDataFixed | spring_tool/presets.py:159-183 | corrected get_all_data: the same as the original when every guard passes, five Nones otherwise |
| Presets.GetAllDataFixedUnpacks | spring_tool/presets_admin.py:253-259 | every successful result of the corrected get_all_data unpacks into five names |
| Presets.GetAllDataReadsSavedRecord | spring_tool/presets.py:150-156 | a record save_preset stored, with a three-number position, reads back through get_all_data as exactly the five saved values |
| Presets.RenameIn | spring_tool/presets.py:227-239 | with the old key present: the keys lose the old key and gain the new one, and the new key holds the old value, overwriting anything there; with it absent: no change; every other entry is unchanged |
| Presets.RenameInUndo | spring_tool/presets.py:230-231 | renaming onto a fresh key and then back restores the map |
| Presets.Edited | spring_tool/presets.py:252-262 | each given field replaces the stored one; each None leaves it as stored; every assigned key now holds a value, so it leaves the unknown-or-null keys and no other key does |
| Presets.EditedKeepsNonEmpty | spring_tool/presets.py:252-262 | edit_preset only assigns keys, so a non-empty object stays non-empty |
| Presets.PresetStore.SavePreset | spring_tool/presets.py:132-156 | TypeError without a path and ValueError for an existing (character, body part), with nothing written; otherwise the exact new document, get_preset then returns the saved record, the characters gain only this one, every other lookup is unchanged, and no character is left empty |
| Presets.PresetStore.RemovePreset | spring_tool/presets.py:186-224 | True iff the store is non-empty, holds the character, and holds the body part when one is given; False writes nothing; without a body part the character goes, with one only that body part goes and the character goes once empty; other characters are untouched; no character is left empty |
| Presets.PresetStore.RenameKey | spring_tool/presets.py:227-239 | a top-level rename or one inside the parent character, as RenameIn states; nothing happens for an absent parent; a nested rename keeps the characters; no character is left empty |
| Presets.PresetStore.EditPreset | spring_tool/presets.py:242-267 | TypeError without a path and KeyError for an absent preset, with nothing written; a value that is not an object (`null` included) raises TypeError as soon as one field is given; otherwise only that record changes, as Edited states; no character is left empty |
| Naming.LastColon | spring_tool/spring_tool.py:203 | None iff the name holds no ':'; otherwise the index of a ':' with none after it |
| Naming.LastColonAt | spring_tool/spring_tool.py:203 | a ':' with no ':' after it is the one LastColon finds |
| Naming.RPartition | spring_tool/spring_tool.py:203 | the control part holds no ':'; without ':' the namespace is empty and the control part is the whole name; otherwise name == namespace + ':' + control |
| Naming.RPartitionOfJoin | spring_tool/spring_tool.py:203 | partitioning `ns:ctl` gives back `ns` and `ctl` |
| Naming.Split | spring_tool/spring_tool.py:859 | `split(':')` yields at least one piece, and no piece holds ':' |
| Naming.Shortname | spring_tool/spring_tool.py:855-859 | the short name holds no ':' |
| Naming.ShortnameStep | spring_tool/spring_tool.py:859 | the short name of a name ending in ':' is empty; otherwise it is the short name of the rest followed by the last character |
| Naming.ControlStep | spring_tool/spring_tool.py:203 | the same step for the control part of rpartition(':') |
| Naming.ShortnameIsControl | spring_tool/spring_tool.py:855-859 | the last piece of `split(':')` is the text after the last ':' (the whole name without one) |
| Naming.ShortnameWithoutNamespace | spring_tool/spring_tool.py:855-859 | a name without ':' is its own short name |
| Naming.ShortnameOfJoin | spring_tool/spring_tool.py:855-859 | a namespace prefix does not change the short name |
| Naming.LayerName | spring_tool/spring_tool.py:1022-1023 | reference definition of the layer name: `SPTL_layer_` followed by the short name; the same name is built at spring_tool/spring_tool.py:1036 and 1045 |
| Naming.LayerNameShape | spring_tool/spring_tool.py:1022-1023 | a layer name is `SPTL_layer`, one '_', and then exactly the controller's short name, which holds no ':' |
| Naming.MergedLayerName | spring_tool/spring_tool.py:1126-1128 | the merged layer is the first controller's layer name followed by `_merged` |
| Naming.LayerNameSharedAcrossNamespaces | spring_tool/spring_tool.py:1045 | two controllers get the same layer iff their short names agree |
| Naming.LayerNameStripsNamespace | spring_tool/spring_tool.py:1022-1023 | the layer of `ns:ctl` is `SPTL_layer_ctl` |
| Naming.FindFrom | spring_tool/spring_tool.py:205 | the first index at or after the start where the pattern occurs, or None iff there is none |
| Naming.Contains | spring_tool/spring_tool.py:205 | reference definition of `pattern in control`, through FindFrom |
| Naming.ContainsIffOccurs | spring_tool/spring_tool.py:205 | `p in s` holds iff `p` occurs in `s` at some index |
| Naming.ReplaceFirst | spring_tool/spring_tool.py:206-208 | reference definition of `control.replace(pattern, opposite, 1)` |
| Naming.ReplaceFirstIsFirstOccurrence | spring_tool/spring_tool.py:206-208 | without an occurrence the text is unchanged; otherwise exactly the earliest occurrence is cut out and the replacement put in its place |
| Naming.ReplaceFirstNoColon | spring_tool/spring_tool.py:206-208 | replacing with colon-free text keeps a colon-free control name colon-free |
| Naming.ReplaceFirstLength | spring_tool/spring_tool.py:206-208 | a replacement that happens changes the length by the difference of the two patterns |
| Naming.MirrorOppositesAreNames | spring_tool/spring_tool.py:125-138 | every opposite pattern of MIRROR is non-empty and holds no ':' |
| Naming.Candidate | spring_tool/spring_tool.py:203-211 | reference definition of the name pair `i` proposes: the control part with the first occurrence of the pattern replaced, with the namespace put back when there is one |
| Naming.Hit | spring_tool/spring_tool.py:205-213 | reference definition of a hit: the pattern of pair `i` occurs in the control part and its candidate exists |
| Naming.OppositeFrom | spring_tool/spring_tool.py:204-216 | reference definition of the scan of MIRROR from pair `i` on: the candidate of the first hit, or None |
| Naming.OppositeName | spring_tool/spring_tool.py:202-216 | reference definition of find_opposite_name: the scan from the first pair |
| Naming.FirstHit | spring_tool/spring_tool.py:204-216 | reference definition of a scan over any table: the answer at the first index that hits, or None |
| Naming.FirstHitNone | spring_tool/spring_tool.py:204-216 | a scan finds nothing iff no index from the start on hits |
| Naming.FirstHitSome | spring_tool/spring_tool.py:204-216 | what a scan finds is the answer of the earliest index that hits, and no earlier index hits |
| Naming.OppositeFromIsFirstHit | spring_tool/spring_tool.py:204-216 | the scan over MIRROR is that generic scan over its pairs |
| Naming.OppositeFromStep | spring_tool/spring_tool.py:204-214 | one step of the scan: pair `i` hits, or the scan goes on from the next pair |
| Naming.OppositeFromNone | spring_tool/spring_tool.py:204-216 | scanning MIRROR from a pair on finds nothing iff no later pair has a pattern that occurs and a candidate that exists |
| Naming.OppositeFromSome | spring_tool/spring_tool.py:204-216 | what the scan from a pair on finds is the candidate of the earliest later pair that hits |
| Naming.OppositeNameIsFirstHit | spring_tool/spring_tool.py:202-216 | None iff no pair hits; otherwise the candidate exists and comes from the earliest pair in table order that hits |
| Naming.CandidateKeepsNamespace | spring_tool/spring_tool.py:203-211 | a candidate has the namespace of the name, and its control part is the control part with the first occurrence of the pattern replaced |
| Naming.OppositeNameKeepsNamespace | spring_tool/spring_tool.py:202-216 | an opposite that is found keeps the namespace and is never empty |
| Naming.OppositeNameExists | spring_tool/spring_tool.py:212-213 | an opposite that is found exists in the scene |
| Naming.TryPair | spring_tool/spring_tool.py:205-213 | one pass of the loop body: a name comes back iff pair `i` hits, and it is that pair's candidate |
| Naming.FindOppositeName | spring_tool/spring_tool.py:202-216 | the loop over MIRROR returns the first-hit opposite, and a result exists in the scene |
| Naming.OppositeList | spring_tool/spring_tool.py:219-226 | the list of opposites is no longer than the input, and every element exists in the scene |
| Naming.Found | spring_tool/spring_tool.py:219-226 | collecting the found names is never longer than the input |
| Naming.FoundAppend | spring_tool/spring_tool.py:219-226 | the names found for a concatenation are those found for each part, in order, so input order is kept |
| Naming.FoundEmpty | spring_tool/spring_tool.py:219-226 | nothing is found iff no control has a match |
| Naming.FoundFromControls | spring_tool/spring_tool.py:219-226 | every name found is the match of some input control |
| Naming.OppositesExist | spring_tool/spring_tool.py:219-226 | every opposite in the list exists in the scene |
| Naming.OppositeListEmpty | spring_tool/spring_tool.py:674-678 | the list is empty (the "No opposite found" case) iff no control has an opposite |
| Naming.GetOppositeCtlList | spring_tool/spring_tool.py:219-226 | the loop skips controls without an opposite and returns the opposite list |
| Aim.AimVectorsAsWrittenAreOffAxis | spring_tool/spring_tool.py:111-118 | the table's keys are the six directions; as written, the +z entry's aim vector equals its up vector, and neither the +y nor the +z entry aims along its own axis |
| Aim.AimVectorsIntendedAreOnAxis | spring_tool/spring_tool.py:111-118 | in the corrected table every entry aims along its own signed axis, with an up vector at right angles |
| Aim.AimAndUp | spring_tool/spring_tool.py:979 | the lookup `AIM_VECTORS[direction]` over the corrected table: the aim vector for a direction is its signed axis, and the up vector is perpendicular to it |
| Aim.AimAndUpAgreesWithTable | spring_tool/spring_tool.py:111-118 | outside +y and +z, the corrected lookup gives exactly the entry of the table as written |
| Aim.FirstMaxAbsUnique | spring_tool/spring_tool.py:804 | the first element of largest absolute value is unique |
| Aim.Direction | spring_tool/spring_tool.py:799-807 | the direction is one of ±1, ±2, ±3, a key of AIM_VECTORS; `abs(d) - 1` indexes the first component of largest absolute value; d < 0 iff that component is negative |
| Aim.DirectionOfFirstMax | spring_tool/spring_tool.py:804-806 | the direction is the signed 1-based index of the first component of largest absolute value |
| Aim.FirstEqualIsFirstMax | spring_tool/spring_tool.py:804 | the first position holding the first largest element is that element's own position |
| Aim.MaxByAbs | spring_tool/spring_tool.py:804 | `max(axes, key=abs)` returns the first element of largest absolute value |
| Aim.IndexOf | spring_tool/spring_tool.py:804 | `axes.index(v)` returns the first position holding v |
| Aim.SpringToolWindow.constructor | spring_tool/spring_tool.py:261 | the window starts with axes `[0, 0, 0]` |
| Aim.SpringToolWindow.GetDirection | spring_tool/spring_tool.py:799-807 | axes becomes the locator translation, and the result is Direction of it, a key of AIM_VECTORS |
| Weights.Clamp01 | spring_tool/spring_tool.py:817 | the result lies in [0, 1], equals its input there, and is 0 below and 1 above |
| Weights.UserSpringWeight | spring_tool/spring_tool.py:816-818 | the weight lies in [0, 1] and is `1 - spring` for spring in [0, 1], 1 below and 0 above |
| Weights.UserSpringWeightAntitone | spring_tool/spring_tool.py:817 | a larger spring value never gives a larger weight |
| Weights.OverlapWeightMath | spring_tool/spring_tool.py:836-839 | ZeroDivisionError iff decay is 0; otherwise the rounded quotient brought into [0, 1]: the quotient itself when it is already there, 0 below and 1 above |
| PresetValues.IsRotationMode | spring_tool/spring_tool.py:768-771 | reference definition of the mode test: rotation iff the mode is None or 'rotation'; the edit popup uses the same test at spring_tool/presets.py:369 |
| PresetValues.ResolvePreset | spring_tool/spring_tool.py:747-771 | AttributeError iff there is no preset or it is not an object; otherwise each field is the stored one or its default (0.45, 7.0, 1.2, no position), and rotation mode iff the mode is absent or 'rotation' |
| PresetValues.ResolveSavedPreset | spring_tool/spring_tool.py:753-771 | a preset that save_preset stored resolves to exactly the saved values |
| PresetValues.ResolveMissingPreset | spring_tool/spring_tool.py:753-760 | a preset absent from the store makes set_values_from_preset raise AttributeError |

## Left out

- Qt UI: every dialog, widget, signal and slot, including the preset popups and the whole admin window. The exception is the five-way unpacking in `spring_tool/presets_admin.py`, which is modelled because it shows a finding.
- Maya host calls: locators, constraints, particles, baking, animation layers, preferences, viewport evaluation modes, selection and undo. Only `objExists` enters, as a predicate parameter. Only the locator translation enters, as three numbers. `align_locator` is a single host call and is not modelled.
- MEL command-string assembly, beyond the layer names that go into it.
- File input and output: JSON parsing and writing, `create_preset_file` and `get_presets_file_path`. A write that fails is not modelled. A file that exists but holds malformed JSON is not modelled either.
- JSON `null` fields inside a record: a known field holding `null` reads as None, like an absent one, and its key is kept among the record's `extra` keys, which also hold every key other than the five. So such keys make a record non-empty, as in Python. A body part stored as `null` is the `Null` entry.
- Presets.GetAllData: a known field holding a value of another JSON type is not modelled. For instance, a string position `"abc"` would become `[('a', 'b', 'c')]`, and a number as position would raise TypeError. A top-level file value that is not an object is not modelled either.
- PresetValues.ResolvePreset: a known numeric key holding `null` hands None to its spin box, which is a Qt call; the model gives the default, as for an absent key. A `null` mode chooses rotation in both.
- JSON key order: listings are modelled as sets.
- A character value that is not an object: every character value is a map. Only body-part values may be non-objects.
- Presets.PresetStore.RenameKey: requires a configured path and an existing file. The rename dialog opens that path before calling `rename_key` (spring_tool/presets.py:323-331), so without either it fails there, before the rename.
- Weights.OverlapWeightMath: the `'{:.2f}'` rounding is the parameter `round2`, so the contract gives the result in terms of `round2` and says nothing about the rounding itself. Floating-point arithmetic is modelled with exact reals.
- Slider and spin-box scaling, and `round(coord, 2)` in `get_aim_loc_position`: these are Qt and floating-point conversions.
- The flow that chains these helpers (`launch_bake`, `launch_all`, `launch_for_opposite`) runs host calls between each step. It is not modelled beyond the facts about its inputs stated above.
- The global single-window lifecycle.
- The admin window's rename action calls `presets.rename_preset`, which does not exist in `spring_tool/presets.py`. There is nothing to model there.

## Findings

| source | as written | input that shows it | evidently intended | confidence | as-written member | corrected member |
|---|---|---|---|---|---|---|
| spring_tool/presets.py:163-172 | every guard of `get_all_data` returns a tuple of four Nones, while its caller at spring_tool/presets_admin.py:253-259 unpacks five names | a body part stored as the empty object `{}`, or as a value that is not an object, or absent: the unpacking raises ValueError | five Nones, so that any result unpacks; the edit popup then still takes `position[0]` of a None position (spring_tool/presets.py:366), which raises TypeError, and that popup is not modelled | medium, not executed | Presets.GetAllDataBreaksUnpacking, Presets.EmptyRecordBreaksUnpacking, Presets.NoValueRecordReadsFiveNones | Presets.GetAllDataFixed, Presets.GetAllDataFixedUnpacks |
| spring_tool/spring_tool.py:111-118 | `AIM_VECTORS[3]` is `((1,0,0),(1,0,0))`: its aim and up vectors coincide. `AIM_VECTORS[2]` aims along z | a locator offset mostly along +z (direction 3) or along +y (direction 2) | +y aims `(0,1,0)` with up `(0,0,1)`, and +z aims `(0,0,1)` with up `(1,0,0)`, mirroring the -y and -z rows | medium, not executed | Aim.AimVectorsAsWrittenAreOffAxis | Aim.AimVectorsIntendedAreOnAxis, Aim.AimAndUp |
