/** The messages ProcessMissilesInScene and ApplyConfigToMissile (Core.cs)
    write to the host's log, in the order they are written. Only their
    kind and the names they mention are kept, not their wording. */
module Log {

  datatype LogEntry =
    | NoMissilesFound                           // message, line 49
    | ProcessingMissile(name: string)           // message, line 57
    | ConfigNotFound(name: string, file: string) // error, line 68
    | InvalidDragCoeffs(file: string)           // warning, line 128
    | UnknownConfigKey(key: string, file: string) // warning, line 141
    | ConfigApplied(name: string)               // message, line 148
    | ConfigError(file: string)                 // error, line 152
    | NoSeekerComponent(name: string)           // warning, line 179
}
