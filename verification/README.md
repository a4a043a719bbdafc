# Mode enumeration of the logbook, in Dafny

This project models the `Mode` class of the logbook. `Mode` is a closed enumeration of radio transmission modes. Each of its 44 singleton constants carries a description string, and `toString` returns that description. The class has two external encodings of the ADIF mode field, and each one goes back to a mode through a constant lookup table whose fallback is `Unknown`:

- an integer code, resolved by the table built from `_intlookupData`;
- a name string, resolved by the table built from `_strlookupData`.

`getValues` returns the registry: the ordered list of the 43 constants other than `Unknown`.

The model has three modules:

- `LookupTable` (`lookup_table.dfy`) is a generic immutable table built from an ordered association list and a fallback. The two table classes the registry instantiates, `IntToObject` and `StringToObject`, are not part of this model. Their behaviour is an ASSUMPTION, read off the constructor calls at `Mode.java:292-293`:
  - entries are inserted in list order;
  - a later entry for a key replaces an earlier one;
  - keys match by exact equality;
  - an absent key answers the fallback.
- `Modes` (`mode.dfy`) holds the data, written out as the class declares it:
  - a `Mode` datatype with one constructor per constant;
  - `ToString`;
  - the registry list `Values`;
  - the two association lists `IntLookupData` and `StrLookupData`;
  - the two tables built from them;
  - the lookups `ByCode` and `ByName`;
  - the facts about the constant data, proved by evaluating it.
- `ModeLaws` (`mode_laws.dfy`) holds the laws a client of the two encodings relies on:
  - round trips between a mode and its name or code;
  - exact matching of names;
  - the empty name;
  - the harmless duplicate `"TOR"` entry.

What the data turns out to hold:

- The integer table mimics the registry: entry `i` is `(i, Values[i])` for all 43 positions.
- The name table has 41 entries and 40 distinct keys, because `"TOR"` is entered twice, both times for `TOR`.
- Every name key is the description of the mode it maps to.
- `"Unknown"` is itself a registered name, and it answers `Unknown`.
- Four registry members have no name entry: `LSB`, `USB`, `ASCI` and `THOR`. Their descriptions answer `Unknown`.
- All 44 descriptions are pairwise distinct.

Three facts about the class itself shape the model:

- The Javadoc of `getValues` (`Mode.java:74-76`) says it returns all objects the class represents. The `_values` array it returns (`Mode.java:145-190`) lists 43 of the 44 constants and leaves `Unknown` out.
- The names in `_strlookupData` are not unique: `"TOR"` is listed at `Mode.java:253` and again at `Mode.java:283`.
- `getValues` returns the class's own mutable array (`Mode.java:78-80`). The model represents it as an immutable sequence (see Left out).

## Model

| member | source | states |
|---|---|---|
| Modes.GetValues | openlogbook/src/main/java/openlogbook/jlog/util/Mode.java:78-80 | the registry has 43 entries, holds every mode except Unknown, and lists each exactly once |
| Modes.ToStringInjective | openlogbook/src/main/java/openlogbook/jlog/util/Mode.java:100-143 | two constants with the same description are the same constant, Unknown and Blank included |
| Modes.DescriptionDecodes | openlogbook/src/main/java/openlogbook/jlog/util/Mode.java:91-93 | the description toString returns determines the mode: an independent decoder recovers every mode from it |
| Modes.IntLookupMimicsValues | openlogbook/src/main/java/openlogbook/jlog/util/Mode.java:193-240 | the integer associations have the registry's length and entry i is (i, Values[i]), as the comment requires |
| Modes.IntTableFollowsPositions | openlogbook/src/main/java/openlogbook/jlog/util/Mode.java:292 | the built integer table has exactly the keys 0..42 and key c answers Values[c] |
| Modes.GetIntToModeType | openlogbook/src/main/java/openlogbook/jlog/util/Mode.java:60-62 | the integer table answers Unknown for absent keys, its keys are exactly the registry positions, and position c answers Values[c] |
| Modes.ByCode | openlogbook/src/main/java/openlogbook/jlog/util/Mode.java:196-240 | a code in 0..42 answers Values[code]; the answer is Unknown exactly when the code is negative or at least 43 |
| Modes.StrKeysAreDescriptions | openlogbook/src/main/java/openlogbook/jlog/util/Mode.java:247-290 | every name key equals the description of the mode it is paired with |
| Modes.UnnamedHaveNoEntry | openlogbook/src/main/java/openlogbook/jlog/util/Mode.java:247-290 | no entry of the name table maps to LSB, USB, ASCI or THOR |
| Modes.NamedModes | openlogbook/src/main/java/openlogbook/jlog/util/Mode.java:247-290 | a mode's description is a name key exactly when the mode is not LSB, USB, ASCI or THOR |
| Modes.TorEntries | openlogbook/src/main/java/openlogbook/jlog/util/Mode.java:253 | the name "TOR" is entered at positions 5 and 34 (lines 253 and 283), both times for TOR |
| Modes.StrTableFollowsDescriptions | openlogbook/src/main/java/openlogbook/jlog/util/Mode.java:293 | every key of the built name table answers the mode it describes |
| Modes.GetStrToModeType | openlogbook/src/main/java/openlogbook/jlog/util/Mode.java:69-71 | the name table answers Unknown for absent keys, its keys are the listed names, each key answers the mode it describes, and a mode's description is a key exactly when the mode is named |
| Modes.ByName | openlogbook/src/main/java/openlogbook/jlog/util/Mode.java:247-293 | a registered name answers a mode whose description is that name; any other string answers Unknown |
| LookupTable.Resolve | openlogbook/src/main/java/openlogbook/jlog/util/Mode.java:292-293 | an absent key answers the fallback, a present key its stored value; so any answer other than the fallback is the value stored for that key |
| LookupTable.LastIndex | openlogbook/src/main/java/openlogbook/jlog/util/Mode.java:292-293 | finds the last entry for a key, and returns -1 exactly when the list has no entry for it |
| LookupTable.Insert | openlogbook/src/main/java/openlogbook/jlog/util/Mode.java:292-293 | in-order insertion yields a map whose keys are exactly the listed keys |
| LookupTable.Build | openlogbook/src/main/java/openlogbook/jlog/util/Mode.java:292-293 | a built table keeps the given fallback and holds exactly the listed keys |
| LookupTable.InsertLastWins | openlogbook/src/main/java/openlogbook/jlog/util/Mode.java:292-293 | the value stored for a key is the one carried by its last entry in the list |
| LookupTable.ResolveBuilt | openlogbook/src/main/java/openlogbook/jlog/util/Mode.java:292-293 | a lookup answers the fallback for an absent key, and otherwise the last entry's value, a value the list pairs with that key |
| LookupTable.ConsistentInsertOrderIrrelevant | openlogbook/src/main/java/openlogbook/jlog/util/Mode.java:292-293 | when repeated keys repeat the same value, first-wins and last-wins insertion build the same map |
| ModeLaws.ByNameInvertsToString | openlogbook/src/main/java/openlogbook/jlog/util/Mode.java:247-293 | for a mode other than Unknown, a name answers it exactly when the name is its description and the mode has a name entry |
| ModeLaws.NameRoundTrip | openlogbook/src/main/java/openlogbook/jlog/util/Mode.java:91-93 | looking up the rendered name gives the mode back exactly when the mode is not LSB, USB, ASCI or THOR; for those four it gives Unknown |
| ModeLaws.UnnamedAreRegistered | openlogbook/src/main/java/openlogbook/jlog/util/Mode.java:145-190 | LSB, USB, ASCI and THOR are in the registry, yet their descriptions answer Unknown |
| ModeLaws.ByNameUnknown | openlogbook/src/main/java/openlogbook/jlog/util/Mode.java:249 | a name answers Unknown exactly when it is unregistered or is the registered name "Unknown" |
| ModeLaws.EmptyNameIsBlank | openlogbook/src/main/java/openlogbook/jlog/util/Mode.java:248 | the empty string is a registered name and answers Blank, which is not Unknown |
| ModeLaws.RegisteredNamesResolve | openlogbook/src/main/java/openlogbook/jlog/util/Mode.java:253 | "SSB" answers SSB, and the twice-entered "TOR" answers TOR |
| ModeLaws.ByNameDecodesDescription | openlogbook/src/main/java/openlogbook/jlog/util/Mode.java:247-293 | name lookup equals a table-free reference: decode the string as a description, and keep the decoded mode only if the string is its description and the mode has a name entry; otherwise Unknown |
| ModeLaws.NamesAreCaseSensitive | openlogbook/src/main/java/openlogbook/jlog/util/Mode.java:250 | matching does no case folding: "ssb" answers Unknown |
| ModeLaws.NamesAreNotTrimmed | openlogbook/src/main/java/openlogbook/jlog/util/Mode.java:250 | matching does no trimming: " SSB" answers Unknown |
| ModeLaws.CodeRoundTrip | openlogbook/src/main/java/openlogbook/jlog/util/Mode.java:196-240 | every mode other than Unknown has exactly one code, its registry position; a code answers Unknown exactly when it is outside 0..42 |
| ModeLaws.CodeAndNameAgree | openlogbook/src/main/java/openlogbook/jlog/util/Mode.java:196-290 | for every code in 0..42, the answered mode is recovered from its name exactly when it has a name entry, and it is never Unknown |
| ModeLaws.NameEntriesConsistent | openlogbook/src/main/java/openlogbook/jlog/util/Mode.java:247-290 | entries with equal names always carry equal modes, the repeated "TOR" included |
| ModeLaws.DuplicateNameHarmless | openlogbook/src/main/java/openlogbook/jlog/util/Mode.java:283 | first-wins insertion of the name list builds the same map as the table the class builds |

## Left out

- The internals of `IntToObject` and `StringToObject` are not part of this model. Their insertion order, last-wins policy, exact key matching and fallback are assumed, as described above.
- Java object identity and boxing are left out. This covers the private constructor, `new Integer` and `new String`. Modes are datatype values compared by equality, keys are `int` and `string`, and `Object[][]` rows are typed pairs.
- Aliasing of the mutable array returned by `getValues` is left out. The registry is an immutable sequence, so a caller that writes into the array is not modelled.
- Static-initialisation order and thread safety are left out. Everything is constant after class loading, so there is nothing concurrent to verify.
- Conformance to the ADIF standard is left out. The class names no section of it, and the table includes modes added after ADIF 1.0 (FT8, FT4). Only the internal consistency of the tables is checked.
- The helpers have no row, because each is only a definition or a proof device for the members above. In `LookupTable` they are `KeysOf`, `LastFor`, `Consistent` and `InsertFirstWins`. In `Modes` they are `Position`, `NameSlot` and `DescribedMode`, the lemma `ValuesEnumerateRegistry` that proves the contract of `GetValues`, and the lemmas that evaluate a slice of the constant data.
- Two kinds of Java lookup argument cannot be expressed, because a name is a Dafny `string`, a sequence of Unicode scalar values. One is a `null` name; what `StringToObject` does with it is unknown. The other is a Java `String` holding an unpaired UTF-16 surrogate. Every registered name is ASCII, so no law stated here would change for either.
- The ADIF file I/O and the user interface that consume these tables are left out.
