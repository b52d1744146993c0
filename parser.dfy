/** The config-file parser of ProcessMissilesInScene (Core.cs lines 76-144):
    a loop over the lines of one file that fills a fresh MissileConfig,
    line by line.

    The behaviour is given twice. `ParseLine` and `ParseFile` are the
    specification, a left fold of one step per classified line;
    `ParseConfig` is the loop itself, proved equal to `ParseFile`. The
    lemmas then describe `ParseFile` field by field, against definitions
    that look at one line at a time (`Assigned`, `Throws`, `LineWarnings`). */
module ConfigParser {
  import opened Wrappers
  import opened Text
  import opened MissileConfigs
  import opened ConfigLines

  /** The warnings the parser logs; neither stops the file. */
  datatype Warning = UnknownKey(key: string) | InvalidDragFormat

  /** The three numbers of a `dragCoeffs` value, when all of them parse. */
  function ParseVector(parts: seq<string>, parse: string -> Option<Num>): (r: Option<Vector3>)
    requires |parts| == 3
    ensures r.Some? <==> parse(parts[0]).Some? && parse(parts[1]).Some? && parse(parts[2]).Some?
    ensures r.Some? ==> r.value == Vector3(parse(parts[0]).value, parse(parts[1]).value, parse(parts[2]).value)
  {
    match (parse(parts[0]), parse(parts[1]), parse(parts[2]))
    case (Some(x), Some(y), Some(z)) => Some(Vector3(x, y, z))
    case _ => None
  }

  /** What one line does to the config: the new config and the warnings
      it logs, or `Throw` when float.Parse throws. */
  datatype Step = Next(config: MissileConfig, warnings: seq<Warning>) | Throw

  /** The body of the loop (lines 89-143) for a line that was not skipped. */
  function ParseLine(c: MissileConfig, line: Line, parse: string -> Option<Num>): Step {
    match line
    case Ignored => Next(c, [])
    case Entry(key, value) =>
      match LookupKey(key)
      case None => Next(c, [UnknownKey(key)])
      case Some(f) =>
        if f == DragCoeffs then
          var parts := Split(value, ',');
          if |parts| != 3 then Next(c, [InvalidDragFormat])
          else match ParseVector(parts, parse)
            case None => Throw
            case Some(v) => Next(Set(c, DragCoeffs, Vector(v)), [])
        else
          match parse(value)
          case None => Throw
          case Some(n) => Next(Set(c, f, Scalar(n)), [])
  }

  /** The result of parsing one file: the config and the warnings logged,
      or the warnings logged before float.Parse threw. */
  datatype ParseOutcome =
    | Parsed(config: MissileConfig, warnings: seq<Warning>)
    | Failed(warnings: seq<Warning>)

  /** The remaining lines folded into the config `c`, after the warnings `ws`. */
  function Fold(c: MissileConfig, ws: seq<Warning>, lines: seq<Line>, parse: string -> Option<Num>): ParseOutcome
    decreases |lines|
  {
    if lines == [] then Parsed(c, ws)
    else match ParseLine(c, lines[0], parse)
      case Throw => Failed(ws)
      case Next(c', w) => Fold(c', ws + w, lines[1..], parse)
  }

  /** A whole file, starting from `new MissileConfig()`. */
  function ParseFile(lines: seq<string>, parse: string -> Option<Num>): ParseOutcome {
    Fold(DefaultConfig, [], ClassifyAll(lines), parse)
  }

  /** Lines 89-143, the `switch` on the lower-cased key, for one line that
      was not skipped: the config after the line, and its warnings, or
      `Throw` where float.Parse throws. This is the statement form of
      `ParseLine`, which the loop calls; what a step does is stated by
      `ParseLineSpec`. */
  method ParseConfigLine(config: MissileConfig, line: Line, parse: string -> Option<Num>) returns (step: Step)
    ensures step == ParseLine(config, line, parse)
  {
    match line {
      case Ignored =>
        return Next(config, []);
      case Entry(key, value) =>
        match LookupKey(key) {
          case None =>
            return Next(config, [UnknownKey(key)]);
          case Some(f) =>
            if f == DragCoeffs {
              var parts := Split(value, ',');
              if |parts| == 3 {
                var x, y, z := parse(parts[0]), parse(parts[1]), parse(parts[2]);
                if x.None? || y.None? || z.None? {
                  return Throw;
                }
                return Next(Set(config, DragCoeffs, Vector(Vector3(x.value, y.value, z.value))), []);
              } else {
                return Next(config, [InvalidDragFormat]);
              }
            } else {
              var n := parse(value);
              if n.None? {
                return Throw;
              }
              return Next(Set(config, f, Scalar(n.value)), []);
            }
        }
    }
  }

  /** Lines 76-144: the loop that parses one file into a fresh config.
      A float.Parse failure leaves the loop at once, as the exception does
      in the source, and the config built so far is dropped. */
  method ParseConfig(lines: seq<string>, parse: string -> Option<Num>) returns (outcome: ParseOutcome)
    ensures outcome == ParseFile(lines, parse)
  {
    var config := DefaultConfig;
    var warnings: seq<Warning> := [];
    for i := 0 to |lines|
      invariant Fold(config, warnings, ClassifyAll(lines)[i..], parse) == ParseFile(lines, parse)
    {
      ghost var rest := ClassifyAll(lines)[i..];
      ClassifyAllAt(lines, i);
      assert rest[0] == ClassifyLine(lines[i]) && rest[1..] == ClassifyAll(lines)[i + 1..];
      var step := ParseConfigLine(config, ClassifyLine(lines[i]), parse);
      match step {
        case Throw => return Failed(warnings);
        case Next(c, w) => config, warnings := c, warnings + w;
      }
    }
    return Parsed(config, warnings);
  }

  // ---------------------------------------------------------------------
  // One line at a time

  /** The value a line writes into field `f`, if it writes one: its key
      selects `f` and its value parses (for `dragCoeffs`, as three numbers). */
  function Assigned(line: Line, f: Field, parse: string -> Option<Num>): (r: Option<Value>)
    ensures r.Some? ==> Fits(f, r.value)
  {
    match line
    case Ignored => None
    case Entry(key, value) =>
      if LookupKey(key) != Some(f) then None
      else if f == DragCoeffs then
        var parts := Split(value, ',');
        if |parts| == 3 && ParseVector(parts, parse).Some? then Some(Vector(ParseVector(parts, parse).value))
        else None
      else if parse(value).Some? then Some(Scalar(parse(value).value))
      else None
  }

  /** The line has a known key whose value fails to parse. */
  predicate Throws(line: Line, parse: string -> Option<Num>) {
    match line
    case Ignored => false
    case Entry(key, value) =>
      LookupKey(key).Some? &&
      if LookupKey(key) == Some(DragCoeffs) then
        var parts := Split(value, ',');
        |parts| == 3 && ParseVector(parts, parse).None?
      else parse(value).None?
  }

  /** The warning a line logs: an unknown key (the empty key included), or
      a `dragCoeffs` value that does not have exactly three comma parts. */
  function LineWarnings(line: Line): seq<Warning> {
    match line
    case Ignored => []
    case Entry(key, value) =>
      if LookupKey(key).None? then [UnknownKey(key)]
      else if LookupKey(key) == Some(DragCoeffs) && |Split(value, ',')| != 3 then [InvalidDragFormat]
      else []
  }

  /** The last value the lines write into `f`. */
  function LastAssigned(lines: seq<Line>, f: Field, parse: string -> Option<Num>): (r: Option<Value>)
    ensures r.Some? ==> Fits(f, r.value)
  {
    if lines == [] then None
    else match LastAssigned(lines[1..], f, parse)
      case Some(v) => Some(v)
      case None => Assigned(lines[0], f, parse)
  }

  /** The warnings of all the lines, in order. */
  function Warnings(lines: seq<Line>): seq<Warning> {
    if lines == [] then [] else LineWarnings(lines[0]) + Warnings(lines[1..])
  }

  /** One step of the loop: it throws exactly on a line that `Throws`;
      otherwise it logs that line's warnings and sets each field to what
      the line assigns it, leaving every other field as it was. So a known
      scalar key sets its own field and no other, a `dragCoeffs` value of
      three parts sets the vector, and a `dragCoeffs` value of another
      number of parts or an unknown key warns and changes nothing. */
  lemma ParseLineSpec(c: MissileConfig, line: Line, parse: string -> Option<Num>)
    ensures ParseLine(c, line, parse).Throw? <==> Throws(line, parse)
    ensures ParseLine(c, line, parse).Next? ==>
      ParseLine(c, line, parse).warnings == LineWarnings(line) &&
      forall f: Field :: Get(ParseLine(c, line, parse).config, f) == Assigned(line, f, parse).GetOr(Get(c, f))
  {
    ParseLineWarnings(c, line, parse);
    match line
    case Ignored =>
    case Entry(key, value) =>
      match LookupKey(key)
      case None =>
      case Some(g) =>
        if g == DragCoeffs {
          var parts := Split(value, ',');
          if |parts| == 3 && ParseVector(parts, parse).Some? {
            var c' := Set(c, DragCoeffs, Vector(ParseVector(parts, parse).value));
            assert ParseLine(c, line, parse) == Next(c', []);
          }
        } else if parse(value).Some? {
          var c' := Set(c, g, Scalar(parse(value).value));
          assert ParseLine(c, line, parse) == Next(c', []);
        }
  }

  /** The part of ParseLineSpec about throwing and warnings alone. */
  lemma ParseLineWarnings(c: MissileConfig, line: Line, parse: string -> Option<Num>)
    ensures ParseLine(c, line, parse).Throw? <==> Throws(line, parse)
    ensures ParseLine(c, line, parse).Next? ==> ParseLine(c, line, parse).warnings == LineWarnings(line)
  {
  }

  /** When no line throws, folding the lines logs all their warnings and
      leaves each field at the last value a line assigns it, or at its
      starting value if no line assigns it. */
  lemma {:induction false} FoldNoThrow(c: MissileConfig, ws: seq<Warning>, lines: seq<Line>, parse: string -> Option<Num>)
    requires forall i | 0 <= i < |lines| :: !Throws(lines[i], parse)
    ensures Fold(c, ws, lines, parse).Parsed?
    ensures Fold(c, ws, lines, parse).warnings == ws + Warnings(lines)
    ensures forall f: Field :: Get(Fold(c, ws, lines, parse).config, f) == LastAssigned(lines, f, parse).GetOr(Get(c, f))
    decreases |lines|
  {
    if lines != [] {
      var c' := ParseLine(c, lines[0], parse).config;
      FoldStep(c, ws, lines, parse);
      NoThrowInTail(lines, |lines|, parse);
      FoldNoThrow(c', ws + LineWarnings(lines[0]), lines[1..], parse);
      assert ws + LineWarnings(lines[0]) + Warnings(lines[1..]) == ws + Warnings(lines);
      forall f: Field
        ensures Get(Fold(c, ws, lines, parse).config, f) == LastAssigned(lines, f, parse).GetOr(Get(c, f))
      {
        ParseLineSpec(c, lines[0], parse);
      }
    }
  }

  /** A line that does not throw moves the fold on by one line. */
  lemma FoldStep(c: MissileConfig, ws: seq<Warning>, lines: seq<Line>, parse: string -> Option<Num>)
    requires lines != [] && !Throws(lines[0], parse)
    ensures ParseLine(c, lines[0], parse).Next?
    ensures Fold(c, ws, lines, parse) ==
      Fold(ParseLine(c, lines[0], parse).config, ws + LineWarnings(lines[0]), lines[1..], parse)
  {
    ParseLineWarnings(c, lines[0], parse);
  }

  /** A line that throws ends the fold with the warnings logged so far. */
  lemma FoldThrowHere(c: MissileConfig, ws: seq<Warning>, lines: seq<Line>, parse: string -> Option<Num>)
    requires lines != [] && Throws(lines[0], parse)
    ensures Fold(c, ws, lines, parse) == Failed(ws)
  {
    ParseLineWarnings(c, lines[0], parse);
  }

  /** The warnings of the first `i` lines: the first line's, then those of
      the next `i - 1`. */
  lemma WarningsPrefix(lines: seq<Line>, i: nat)
    requires 0 < i <= |lines|
    ensures Warnings(lines[..i]) == LineWarnings(lines[0]) + Warnings(lines[1..][..i - 1])
  {
    assert lines[..i][0] == lines[0];
    assert lines[..i][1..] == lines[1..][..i - 1];
  }

  /** When line `i` is the first that throws, folding the lines fails with
      the warnings of the lines before it: nothing after it is looked at. */
  lemma {:induction false} FoldFirstThrow(c: MissileConfig, ws: seq<Warning>, lines: seq<Line>, i: nat, parse: string -> Option<Num>)
    requires i < |lines| && Throws(lines[i], parse)
    requires forall j | 0 <= j < i :: !Throws(lines[j], parse)
    ensures Fold(c, ws, lines, parse) == Failed(ws + Warnings(lines[..i]))
    decreases i
  {
    if i == 0 {
      FoldThrowHere(c, ws, lines, parse);
      assert lines[..0] == [];
    } else {
      var c' := ParseLine(c, lines[0], parse).config;
      FoldStep(c, ws, lines, parse);
      NoThrowInTail(lines, i, parse);
      assert lines[1..][i - 1] == lines[i];
      FoldFirstThrow(c', ws + LineWarnings(lines[0]), lines[1..], i - 1, parse);
      WarningsPrefix(lines, i);
      assert ws + LineWarnings(lines[0]) + Warnings(lines[1..][..i - 1]) == ws + Warnings(lines[..i]);
    }
  }

  /** If none of the first `n` lines throws, none of the first `n - 1`
      lines of the tail does. */
  lemma NoThrowInTail(lines: seq<Line>, n: nat, parse: string -> Option<Num>)
    requires 0 < n <= |lines|
    requires forall j | 0 <= j < n :: !Throws(lines[j], parse)
    ensures forall j | 0 <= j < n - 1 :: !Throws(lines[1..][j], parse)
  {
    forall j | 0 <= j < n - 1 ensures !Throws(lines[1..][j], parse) {
      assert lines[1..][j] == lines[j + 1];
    }
  }

  /** A file in which no value fails to parse yields a config whose every
      field holds the value of the LAST line that assigns it, or the
      default 0 / zero vector when no line does, and its warnings are
      those of all its lines in order. */
  lemma ParseFileSucceeds(lines: seq<string>, parse: string -> Option<Num>)
    requires forall i | 0 <= i < |lines| :: !Throws(ClassifyAll(lines)[i], parse)
    ensures ParseFile(lines, parse).Parsed?
    ensures ParseFile(lines, parse).warnings == Warnings(ClassifyAll(lines))
    ensures forall f: Field :: (Get(ParseFile(lines, parse).config, f) ==
      LastAssigned(ClassifyAll(lines), f, parse).GetOr(Get(DefaultConfig, f)))
  {
    FoldNoThrow(DefaultConfig, [], ClassifyAll(lines), parse);
    assert [] + Warnings(ClassifyAll(lines)) == Warnings(ClassifyAll(lines));
  }

  /** A file in which some value fails to parse yields no config at all,
      only the warnings of the lines before the first failing one. */
  lemma ParseFileFails(lines: seq<string>, i: nat, parse: string -> Option<Num>)
    requires i < |lines| && Throws(ClassifyAll(lines)[i], parse)
    requires forall j | 0 <= j < i :: !Throws(ClassifyAll(lines)[j], parse)
    ensures ParseFile(lines, parse) == Failed(Warnings(ClassifyAll(lines)[..i]))
  {
    var ls := ClassifyAll(lines);
    assert ParseFile(lines, parse) == Failed([] + Warnings(ls[..i])) by {
      FoldFirstThrow(DefaultConfig, [], ls, i, parse);
    }
    assert [] + Warnings(ls[..i]) == Warnings(ls[..i]);
  }

  /** The index of the first line that throws. */
  lemma FirstThrowing(lines: seq<Line>, parse: string -> Option<Num>) returns (i: nat)
    requires exists i | 0 <= i < |lines| :: Throws(lines[i], parse)
    ensures i < |lines| && Throws(lines[i], parse)
    ensures forall j | 0 <= j < i :: !Throws(lines[j], parse)
  {
    var throws := (line: Line) => Throws(line, parse);
    var k :| 0 <= k < |lines| && Throws(lines[k], parse);
    assert throws(lines[k]);
    i := FirstWhere(lines, throws);
  }

  /** The first element of `xs` that satisfies `p`. */
  lemma FirstWhere<T>(xs: seq<T>, p: T -> bool) returns (i: nat)
    requires exists i | 0 <= i < |xs| :: p(xs[i])
    ensures i < |xs| && p(xs[i])
    ensures forall j | 0 <= j < i :: !p(xs[j])
  {
    i := 0;
    while !p(xs[i])
      invariant i < |xs|
      invariant forall j | 0 <= j < i :: !p(xs[j])
      invariant exists k | i <= k < |xs| :: p(xs[k])
      decreases |xs| - i
    {
      i := i + 1;
    }
  }

  /** A file fails exactly when one of its lines has a known key whose
      value does not parse. */
  lemma ParseFileFailsIff(lines: seq<string>, parse: string -> Option<Num>)
    ensures ParseFile(lines, parse).Failed? <==>
      exists i | 0 <= i < |lines| :: Throws(ClassifyAll(lines)[i], parse)
  {
    var ls := ClassifyAll(lines);
    if exists i | 0 <= i < |lines| :: Throws(ls[i], parse) {
      var i := FirstThrowing(ls, parse);
      ParseFileFails(lines, i, parse);
    } else {
      ParseFileSucceeds(lines, parse);
    }
  }

  lemma {:induction false} FoldIgnoresLine(c: MissileConfig, ws: seq<Warning>, a: seq<Line>, b: seq<Line>, parse: string -> Option<Num>)
    ensures Fold(c, ws, a + [Ignored] + b, parse) == Fold(c, ws, a + b, parse)
    decreases |a|
  {
    if a == [] {
      assert (a + [Ignored] + b)[0] == Ignored && (a + [Ignored] + b)[1..] == b;
      assert ParseLine(c, Ignored, parse) == Next(c, []);
      assert ws + [] == ws && a + b == b;
    } else {
      assert (a + [Ignored] + b)[0] == a[0] && (a + [Ignored] + b)[1..] == a[1..] + [Ignored] + b;
      assert (a + b)[0] == a[0] && (a + b)[1..] == a[1..] + b;
      match ParseLine(c, a[0], parse)
      case Throw =>
      case Next(c', w) => FoldIgnoresLine(c', ws + w, a[1..], b, parse);
    }
  }

  /** A blank line, a comment, or a line without `=` (a `[Section]` header,
      say) can be inserted anywhere in a file without changing the result:
      there is no section scoping. */
  lemma IgnoredLineHasNoEffect(a: seq<string>, line: string, b: seq<string>, parse: string -> Option<Num>)
    requires AllWhiteSpace(line) || IsComment(line) || '=' !in line
    ensures ParseFile(a + [line] + b, parse) == ParseFile(a + b, parse)
  {
    ClassifyAllAppend(a + [line], b);
    ClassifyAllAppend(a, [line]);
    ClassifyAllAppend(a, b);
    assert ClassifyAll([line]) == [Ignored];
    FoldIgnoresLine(DefaultConfig, [], ClassifyAll(a), ClassifyAll(b), parse);
  }

  lemma {:induction false} LastAssignedNone(lines: seq<Line>, f: Field, parse: string -> Option<Num>)
    requires forall j | 0 <= j < |lines| :: Assigned(lines[j], f, parse).None?
    ensures LastAssigned(lines, f, parse).None?
    decreases |lines|
  {
    if lines != [] {
      assert forall j | 0 <= j < |lines[1..]| :: Assigned(lines[1..][j], f, parse).None? by {
        forall j | 0 <= j < |lines[1..]| ensures Assigned(lines[1..][j], f, parse).None? {
          assert lines[1..][j] == lines[j + 1];
        }
      }
      LastAssignedNone(lines[1..], f, parse);
    }
  }

  lemma {:induction false} LastAssignedAfter(a: seq<Line>, line: Line, b: seq<Line>, f: Field, v: Value, parse: string -> Option<Num>)
    requires Assigned(line, f, parse) == Some(v)
    requires forall j | 0 <= j < |b| :: Assigned(b[j], f, parse).None?
    ensures LastAssigned(a + [line] + b, f, parse) == Some(v)
    decreases |a|
  {
    if a == [] {
      assert (a + [line] + b)[0] == line && (a + [line] + b)[1..] == b;
      LastAssignedNone(b, f, parse);
    } else {
      assert (a + [line] + b)[1..] == a[1..] + [line] + b;
      LastAssignedAfter(a[1..], line, b, f, v, parse);
    }
  }

  /** A repeated key overwrites: the field keeps the value of the later
      line, whatever earlier lines assigned. */
  lemma LaterLineWins(a: seq<string>, line: string, b: seq<string>, f: Field, v: Value, parse: string -> Option<Num>)
    requires forall i | 0 <= i < |a + [line] + b| :: !Throws(ClassifyAll(a + [line] + b)[i], parse)
    requires Assigned(ClassifyLine(line), f, parse) == Some(v)
    requires forall j | 0 <= j < |b| :: Assigned(ClassifyAll(b)[j], f, parse).None?
    ensures ParseFile(a + [line] + b, parse).Parsed?
    ensures Get(ParseFile(a + [line] + b, parse).config, f) == v
  {
    var ls := ClassifyAll(a + [line] + b);
    assert ls == ClassifyAll(a) + [ClassifyLine(line)] + ClassifyAll(b) by {
      ClassifyAllAppend(a + [line], b);
      ClassifyAllAppend(a, [line]);
      assert ClassifyAll([line]) == [ClassifyLine(line)];
    }
    ParseFileSucceeds(a + [line] + b, parse);
    LastAssignedAfter(ClassifyAll(a), ClassifyLine(line), ClassifyAll(b), f, v, parse);
  }

  /** A field that no line assigns keeps the 0 / zero vector of
      `new MissileConfig()`: it is not left "unset". */
  lemma UnassignedFieldIsZero(lines: seq<string>, f: Field, parse: string -> Option<Num>)
    requires forall i | 0 <= i < |lines| :: !Throws(ClassifyAll(lines)[i], parse)
    requires forall j | 0 <= j < |lines| :: Assigned(ClassifyAll(lines)[j], f, parse).None?
    ensures ParseFile(lines, parse).Parsed?
    ensures Get(ParseFile(lines, parse).config, f) == if f == DragCoeffs then Vector(ZeroVector) else Scalar(0.0)
  {
    ParseFileSucceeds(lines, parse);
    LastAssignedNone(ClassifyAll(lines), f, parse);
  }
}
