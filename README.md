# SimpleMissileMod configuration core, in Dafny

SimpleMissileMod is a MelonLoader mod that overwrites missile parameters in
the game with values read from plain-text files. For each `Missile` in the
scene, `ProcessMissilesInScene` does the following:

- It takes the second `.`-separated segment of the missile's part display
  name and reads `<segment>.cfg` from the mod's directory.
- It parses that file line by line into a fresh `MissileConfig` with every
  field at zero. Blank lines, comment lines (`#` after leading white space)
  and lines without `=` are skipped. Other lines are split at the first `=`.
  The key is matched case-insensitively against eleven names, and its
  value goes through `float.Parse`. `dragCoeffs` takes three comma-separated
  numbers.
- If the file parses, `ApplyConfigToMissile` copies all eleven fields onto
  the missile and, when the missile has one, its IR seeker.

This project models that code as follows:

- **Text** (`text.dfy`): the .NET string operations the parser uses —
  trimming, ASCII lower-casing, `Split`. It proves `Split`/`Join` round
  trips and that trimming is determined by its input.
- **MissileConfigs** (`config.dfy`): `MissileConfig` as a value, with a
  getter and setter per field and the `switch` labels.
- **ConfigLines** (`lines.dfy`): how a single line is classified.
- **ConfigParser** (`parser.dfy`):
  - a specification of the parse as a fold over classified lines;
  - the imperative loop `ParseConfig`, proved equal to that fold;
  - lemmas that describe the outcome field by field.
- **Log** (`log.dfy`): the messages the mod logs.
- **Missiles** (`missile.dfy`): the game objects as classes, and
  `ApplyConfigToMissile` as a method that updates their fields.
- **Core** (`core.dfy`): the config file name, and the per-missile and
  per-scene loops with the log they produce.

`float.Parse` is a parameter `parse: string -> Option<Num>`; `None` means it
throws. `Num` is `real`. The mod's directory is a map from file names to the
lines of those files.

Points where the code's behaviour may surprise, all modelled as written:

- Fields a file does not mention are reset to zero, not left alone.
- A `[Section]` line is skipped only because it has no `=`; `[a=b]` is an
  entry with key `[a`.
- An empty key or value is not rejected. An empty key is logged as unknown.
  An empty value of a scalar key goes to `float.Parse` and throws if that
  fails; for `dragCoeffs` it splits into one part and gets the format
  warning; for an unknown key nothing is parsed.
- A parse failure discards the whole file, including the lines before it.
- A display name without a `.` makes the source throw outside any handler.
  The model requires the name to contain a `.`.

## Model

| member | source | states |
|---|---|---|
| Text.AllWhiteSpaceIffTrimEmpty | SimpleMissileMod/Core.cs:82 | `string.IsNullOrWhiteSpace` on a non-null line holds exactly when trimming it leaves nothing |
| Text.TrimStart | SimpleMissileMod/Core.cs:82 | the result is a suffix of the input, what was dropped is all white space, and the result does not start with white space |
| Text.Trim | SimpleMissileMod/Core.cs:89-90 | the result is a slice of the input with only white space before and after it, and has no white space at either end |
| Text.ToLower | SimpleMissileMod/Core.cs:92 | the result has the input's length; its meaning (each ASCII capital lowered, every other character kept) is carried by the body |
| Text.TrimPadded | SimpleMissileMod/Core.cs:89-90 | trimming white space + t + white space gives back exactly t when t has no white space at its ends |
| Text.SplitFirst | SimpleMissileMod/Core.cs:85-87 | no part exactly when the separator is absent; otherwise the text before the first separator (free of it) and the rest, which re-assemble the input |
| Text.Split | SimpleMissileMod/Core.cs:117 | at least one part, a single part exactly when the separator is absent, and no part holds the separator |
| Text.SplitJoin | SimpleMissileMod/Core.cs:60 | splitting a join of separator-free parts gives back those parts |
| Text.JoinSplit | SimpleMissileMod/Core.cs:117 | joining the parts of a split with the separator gives back the text |
| MissileConfigs.LookupKey | SimpleMissileMod/Core.cs:92-142 | a key selects a field only if its lower-cased form is that field's case label |
| MissileConfigs.LookupKeyIff | SimpleMissileMod/Core.cs:92-142 | a key selects field f exactly when its lower-cased form is the case label of f, so any other key falls to `default` |
| MissileConfigs.LookupKeyName | SimpleMissileMod/Core.cs:94-139 | every case label selects its own field |
| MissileConfigs.Set | SimpleMissileMod/Core.cs:185-197 | a property setter writes its own field and leaves every other field as it was |
| MissileConfigs.DefaultIsZero | SimpleMissileMod/Core.cs:185-197 | a fresh MissileConfig has every float at 0 and the drag vector at zero |
| MissileConfigs.FieldsDetermineConfig | SimpleMissileMod/Core.cs:182-198 | a config is nothing but its eleven properties |
| ConfigLines.CommentIffTrimmedHash | SimpleMissileMod/Core.cs:82 | TrimStart().StartsWith("#") holds exactly when the first non-white-space character is # |
| ConfigLines.ClassifyLine | SimpleMissileMod/Core.cs:82-90 | a line is skipped iff it is blank, a comment or has no '='; otherwise it is the trimmed text before and after its first '=' |
| ConfigParser.ParseVector | SimpleMissileMod/Core.cs:120-124 | a vector exactly when all three parts parse, and then the vector of the three parsed numbers in order |
| ConfigParser.ParseConfigLine | SimpleMissileMod/Core.cs:92-142 | the switch for one line computes the step the fold specifies |
| ConfigParser.ParseConfig | SimpleMissileMod/Core.cs:76-144 | the loop over the lines produces exactly the outcome of the fold over the classified lines, stopping at the first throwing line |
| ConfigParser.ParseLineSpec | SimpleMissileMod/Core.cs:92-142 | a line throws iff its key is known and its value does not parse; otherwise it logs its own warnings and changes exactly the field its key names |
| ConfigParser.ParseFileSucceeds | SimpleMissileMod/Core.cs:76-144 | with no throwing line the file parses, its warnings are every line's in order, and each field holds the last value written to it or zero |
| ConfigParser.ParseFileFails | SimpleMissileMod/Core.cs:76-153 | at the first throwing line the parse fails with the warnings of the lines before it |
| ConfigParser.ParseFileFailsIff | SimpleMissileMod/Core.cs:76-153 | a file fails exactly when one of its lines throws |
| ConfigParser.IgnoredLineHasNoEffect | SimpleMissileMod/Core.cs:82-87 | inserting a blank, comment or '='-less line anywhere does not change the outcome |
| ConfigParser.LaterLineWins | SimpleMissileMod/Core.cs:92-139 | a field takes the value of the last line that assigns it |
| ConfigParser.UnassignedFieldIsZero | SimpleMissileMod/Core.cs:185-197 | a field no line assigns stays at its zero default |
| Missiles.State | SimpleMissileMod/Core.cs:171-172 | the observed state has seeker values exactly when the missile has a seeker |
| Missiles.AppliedAttributes | SimpleMissileMod/Core.cs:159-180 | after an apply, every missile attribute holds its config field; the seeker attributes do too when there is a seeker and are absent otherwise |
| Missiles.AppliedOverwritesAll | SimpleMissileMod/Core.cs:156-181 | the result does not depend on the previous values, and applying twice equals applying once |
| Missiles.ApplyConfigToMissile | SimpleMissileMod/Core.cs:156-181 | the missile and its seeker hold the config's values and the log has the missing-seeker warning exactly when there is no seeker |
| Core.ConfigFileName | SimpleMissileMod/Core.cs:60-63 | the file name ends in ".cfg" and its stem contains no '.' |
| Core.ConfigFileNameOfSegments | SimpleMissileMod/Core.cs:60-63 | a display name of two or more `.`-free segments is read from the file named by its second segment |
| Core.WarningEntries | SimpleMissileMod/Core.cs:128-141 | one log entry per parser warning, in order: entry i is the unknown-key or invalid-drag message for warning i, naming the file |
| Core.ProcessMissile | SimpleMissileMod/Core.cs:54-153 | a missile is configured from its file, or left exactly as it was when the file is missing or fails, and its log entries are those its turn specifies |
| Core.ProcessMissilesInScene | SimpleMissileMod/Core.cs:41-155 | an empty scene logs only that no missiles were found; otherwise every missile ends configured or unchanged as above, and the log is each missile's entries in order |
| Core.ConfiguredMissileFollowsFile | SimpleMissileMod/Core.cs:76-181 | with a file that parses, each missile attribute ends with the last value the file gives it, or zero |
| Core.FailedFileLeavesMissileAlone | SimpleMissileMod/Core.cs:150-153 | a file with a throwing line leaves the missile untouched |

## Left out

- The MelonLoader lifecycle (`OnSceneWasLoaded`, the coroutine that waits for the craft) is not modelled. The model starts at `ProcessMissilesInScene`.
- `FindObjectsOfType` is not modelled; its result is the `missiles` sequence. The model requires the missiles to be distinct and each seeker to belong to one missile. A null array is modelled as an empty one.
- `GetComponent<IRSeeker>` is not modelled; its result is the missile's `seeker` field, fixed for the whole run.
- File I/O is a map from file names to lines. `File.Exists` is key membership. `Path.Combine` and the mods directory are not modelled, so the log carries the file name rather than the full path. A read error thrown by `File.ReadAllLines` is not modelled.
- `float.Parse` is not modelled. It is the `parse` parameter, so single-precision rounding and the culture's number format are outside the model.
- `ToLower` folds only ASCII letters, and `StartsWith("#")` is compared ordinally. The culture-sensitive .NET behaviour for other characters is not modelled.
- The log entries carry the names and keys but not the message text, and not the exception message.
- The unguarded `parts[1]` for a display name without a `.` is a crash in the source. It is a precondition of `Core.ConfigFileName` here.
- `ConfigParser.ParseConfig` is split from its `switch`, `ConfigParser.ParseConfigLine`, and works on lines already classified by `ConfigLines.ClassifyLine`. The order of evaluation is the same.
