/** How the config-file loop of ProcessMissilesInScene (Core.cs lines
    82-90) reads a single line of text, before the key is looked at:
    ignored, or split into a trimmed key and a trimmed value. */
module ConfigLines {
  import opened Wrappers
  import opened Text

  /** One line, as the loop sees it. */
  datatype Line = Ignored | Entry(key: string, value: string)

  /** The first character that is not white space is `#`. */
  ghost predicate IsComment(line: string) {
    exists i | 0 <= i < |line| :: AllWhiteSpace(line[..i]) && line[i] == '#'
  }

  /** Position `i` holds the first `=` of the line. */
  predicate FirstEquals(line: string, i: int) {
    0 <= i < |line| && line[i] == '=' && '=' !in line[..i]
  }

  /** `line.TrimStart().StartsWith("#")` says the same as IsComment. */
  lemma CommentIffTrimmedHash(line: string)
    ensures IsComment(line) <==> (var t := TrimStart(line); t != [] && t[0] == '#')
  {
    var t := TrimStart(line);
    var k := |line| - |t|;
    if t != [] && t[0] == '#' {
      assert line[k] == t[0];
      assert AllWhiteSpace(line[..k]);
    }
    if IsComment(line) {
      var i :| 0 <= i < |line| && AllWhiteSpace(line[..i]) && line[i] == '#';
      if i > k {
        assert line[..i][k] == line[k];
      }
    }
  }

  /** Lines 82-90: a line that is blank, a comment, or has no `=` (such as
      a `[Section]` header) is ignored; otherwise it is split at its FIRST
      `=`, so the value may itself contain `=`, and both halves are trimmed.
      Nothing else is rejected: the key or the value may be empty. */
  function ClassifyLine(line: string): (r: Line)
    ensures r.Ignored? <==> AllWhiteSpace(line) || IsComment(line) || '=' !in line
    ensures r.Entry? ==> exists i | FirstEquals(line, i) ::
      r == Entry(Trim(line[..i]), Trim(line[i + 1..]))
  {
    CommentIffTrimmedHash(line);
    var t := TrimStart(line);
    if AllWhiteSpace(line) || (t != [] && t[0] == '#') then Ignored
    else match SplitFirst(line, '=')
      case None => Ignored
      case Some((key, value)) =>
        SplitFirstEquals(line, key, value);
        Entry(Trim(key), Trim(value))
  }

  /** The split of a line at its first `=` happens at a FirstEquals position. */
  lemma SplitFirstEquals(line: string, key: string, value: string)
    requires SplitFirst(line, '=') == Some((key, value))
    ensures FirstEquals(line, |key|)
    ensures line[..|key|] == key && line[|key| + 1..] == value
  {
    assert line[..|key|] == key;
  }

  /** Every line of a file, classified. */
  function ClassifyAll(lines: seq<string>): (r: seq<Line>)
    ensures |r| == |lines|
  {
    if lines == [] then [] else [ClassifyLine(lines[0])] + ClassifyAll(lines[1..])
  }

  lemma {:induction false} ClassifyAllAt(lines: seq<string>, i: nat)
    requires i < |lines|
    ensures ClassifyAll(lines)[i] == ClassifyLine(lines[i])
  {
    if i > 0 {
      ClassifyAllAt(lines[1..], i - 1);
    }
  }

  lemma {:induction false} ClassifyAllAppend(a: seq<string>, b: seq<string>)
    ensures ClassifyAll(a + b) == ClassifyAll(a) + ClassifyAll(b)
  {
    if a != [] {
      assert (a + b)[0] == a[0] && (a + b)[1..] == a[1..] + b;
      ClassifyAllAppend(a[1..], b);
    } else {
      assert a + b == b;
    }
  }
}
