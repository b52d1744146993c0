/** ProcessMissilesInScene (Core.cs lines 41-155): for every missile in
    the scene, derive the name of its config file from the missile's
    display name, parse that file, and apply the result to the missile,
    each missile on its own so that a bad file spoils only its own missile.

    The mods directory is a map from config file names to the lines of
    those files; float.Parse is the parameter `parse`. */
module Core {
  import opened Wrappers
  import opened Text
  import opened MissileConfigs
  import opened ConfigLines
  import opened ConfigParser
  import opened Log
  import opened Missiles

  /** Lines 60-63: the second `.`-separated segment of the display name,
      followed by `.cfg`. The source indexes the segments without a check,
      so a name without a `.` is excluded here. */
  function ConfigFileName(displayName: string): (file: string)
    requires '.' in displayName
    ensures |file| >= 4 && file[|file| - 4..] == ".cfg"
    ensures '.' !in file[..|file| - 4]
  {
    var segment := Split(displayName, '.')[1];
    assert (segment + ".cfg")[..|segment|] == segment;
    segment + ".cfg"
  }

  /** A display name made of two or more `.`-separated segments is read
      from the file named by its second segment: `Missiles.AIM9` and
      `Missiles.AIM9.Variant1` both from `AIM9.cfg`. */
  lemma ConfigFileNameOfSegments(segments: seq<string>)
    requires |segments| >= 2
    requires forall i | 0 <= i < |segments| :: '.' !in segments[i]
    ensures '.' in Join(segments, '.')
    ensures ConfigFileName(Join(segments, '.')) == segments[1] + ".cfg"
  {
    SplitJoinSecond(segments, '.');
  }

  /** The config a missile ends up with: None when its file is missing or a
      number in it does not parse. */
  function ConfigFor(displayName: string, files: map<string, seq<string>>, parse: string -> Option<Num>): Option<MissileConfig>
    requires '.' in displayName
  {
    var file := ConfigFileName(displayName);
    if file !in files then None
    else match ParseFile(files[file], parse)
      case Parsed(config, _) => Some(config)
      case Failed(_) => None
  }

  /** A missile's state after its turn in the loop: the config applied, or
      nothing changed at all. */
  function AfterProcessing(s: MissileState, config: Option<MissileConfig>): MissileState {
    match config
    case Some(c) => Applied(s, c)
    case None => s
  }

  /** A parser warning as it appears in the log of `file`. */
  function WarningEntry(w: Warning, file: string): LogEntry {
    match w
    case UnknownKey(key) => UnknownConfigKey(key, file)
    case InvalidDragFormat => InvalidDragCoeffs(file)
  }

  /** The parser's warnings as they appear in the log: one entry per
      warning, in the same order. */
  function WarningEntries(ws: seq<Warning>, file: string): (log: seq<LogEntry>)
    ensures |log| == |ws|
    ensures forall i | 0 <= i < |ws| :: log[i] == WarningEntry(ws[i], file)
  {
    if ws == [] then []
    else [WarningEntry(ws[0], file)] + WarningEntries(ws[1..], file)
  }

  /** What one missile's turn writes to the log. */
  function MissileLog(m: Missile, files: map<string, seq<string>>, parse: string -> Option<Num>): seq<LogEntry>
    requires '.' in m.displayName
  {
    var name := m.displayName;
    var file := ConfigFileName(name);
    [ProcessingMissile(name)] +
    if file !in files then [ConfigNotFound(name, file)]
    else match ParseFile(files[file], parse)
      case Failed(ws) => WarningEntries(ws, file) + [ConfigError(file)]
      case Parsed(_, ws) =>
        WarningEntries(ws, file) +
        (if m.seeker == null then [NoSeekerComponent(name)] else []) +
        [ConfigApplied(name)]
  }

  /** What the turns of the missiles write to the log, in order. */
  function MissilesLog(ms: seq<Missile>, files: map<string, seq<string>>, parse: string -> Option<Num>): seq<LogEntry>
    requires forall i | 0 <= i < |ms| :: '.' in ms[i].displayName
  {
    if ms == [] then []
    else MissilesLog(ms[..|ms| - 1], files, parse) + MissileLog(ms[|ms| - 1], files, parse)
  }

  /** The body of the `foreach` (lines 56-153) for one missile. */
  method ProcessMissile(missile: Missile, files: map<string, seq<string>>, parse: string -> Option<Num>)
    returns (log: seq<LogEntry>)
    requires '.' in missile.displayName
    modifies missile, missile.seeker
    ensures State(missile) == AfterProcessing(old(State(missile)), ConfigFor(missile.displayName, files, parse))
    ensures log == MissileLog(missile, files, parse)
  {
    var name := missile.displayName;
    log := [ProcessingMissile(name)];
    var file := ConfigFileName(name);
    if file !in files {
      log := log + [ConfigNotFound(name, file)];
      return;
    }
    var outcome := ParseConfig(files[file], parse);
    match outcome {
      case Failed(ws) =>
        log := log + WarningEntries(ws, file) + [ConfigError(file)];
      case Parsed(config, ws) =>
        log := log + WarningEntries(ws, file);
        var applyLog := ApplyConfigToMissile(missile, config);
        log := log + applyLog + [ConfigApplied(name)];
    }
  }

  /** Lines 41-155: every missile in the scene, in order. Each missile is
      either configured from its file or left exactly as it was, and the
      log holds each missile's messages in turn. FindObjectsOfType returns
      each missile once, and each seeker belongs to one missile. */
  method ProcessMissilesInScene(missiles: seq<Missile>, files: map<string, seq<string>>, parse: string -> Option<Num>)
    returns (log: seq<LogEntry>)
    requires forall i | 0 <= i < |missiles| :: '.' in missiles[i].displayName
    requires forall i, j | 0 <= i < j < |missiles| :: missiles[i] != missiles[j]
    requires forall i, j | 0 <= i < j < |missiles| ::
      missiles[i].seeker == null || missiles[i].seeker != missiles[j].seeker
    modifies set m | m in missiles
    modifies set m | m in missiles && m.seeker != null :: m.seeker
    ensures forall i | 0 <= i < |missiles| ::
      State(missiles[i]) == AfterProcessing(old(State(missiles[i])), ConfigFor(missiles[i].displayName, files, parse))
    ensures log == if missiles == [] then [NoMissilesFound] else MissilesLog(missiles, files, parse)
  {
    if |missiles| == 0 {
      return [NoMissilesFound];
    }
    log := [];
    for i := 0 to |missiles|
      invariant log == MissilesLog(missiles[..i], files, parse)
      invariant forall j | 0 <= j < i ::
        State(missiles[j]) == AfterProcessing(old(State(missiles[j])), ConfigFor(missiles[j].displayName, files, parse))
      invariant forall j | i <= j < |missiles| :: State(missiles[j]) == old(State(missiles[j]))
    {
      var entries := ProcessMissile(missiles[i], files, parse);
      log := log + entries;
      assert missiles[..i + 1][..i] == missiles[..i];
    }
    assert missiles[..|missiles|] == missiles;
  }

  /** End to end: a missile whose file is present and has no value that
      fails to parse ends up with, for every config field, the value of the
      last line in the file that assigns it, or 0 / the zero vector when no
      line does; its seeker fields are written only if it has a seeker. */
  lemma ConfiguredMissileFollowsFile(s: MissileState, lines: seq<string>, parse: string -> Option<Num>)
    requires forall i | 0 <= i < |lines| :: !Throws(ClassifyAll(lines)[i], parse)
    ensures ParseFile(lines, parse).Parsed?
    ensures forall f: Field :: (Attribute(Applied(s, ParseFile(lines, parse).config), f) ==
      if IsSeekerField(f) && s.seeker.None? then None
      else Some(LastAssigned(ClassifyAll(lines), f, parse).GetOr(Get(DefaultConfig, f))))
  {
    ParseFileSucceeds(lines, parse);
    AppliedAttributes(s, ParseFile(lines, parse).config);
  }

  /** A missile whose file has a value that fails to parse keeps every
      field it had: nothing is applied in part. */
  lemma FailedFileLeavesMissileAlone(s: MissileState, displayName: string, files: map<string, seq<string>>, parse: string -> Option<Num>, i: nat)
    requires '.' in displayName
    requires ConfigFileName(displayName) in files
    requires i < |files[ConfigFileName(displayName)]|
    requires Throws(ClassifyAll(files[ConfigFileName(displayName)])[i], parse)
    ensures AfterProcessing(s, ConfigFor(displayName, files, parse)) == s
  {
    var lines := files[ConfigFileName(displayName)];
    var first := FirstThrowing(ClassifyAll(lines), parse);
    ParseFileFails(lines, first, parse);
    assert ConfigFor(displayName, files, parse) == None;
  }
}
