/** The .NET string operations the config parser relies on: white-space
    tests and trimming (Char.IsWhiteSpace, String.Trim, String.TrimStart),
    lower-casing (String.ToLower, ASCII letters only), and splitting on a
    separator character (String.Split, unbounded or with a count of 2). */
module Text {
  import opened Wrappers

  /** Char.IsWhiteSpace: U+0009 to U+000D, U+0020, U+0085, U+00A0 and the
      Unicode space, line and paragraph separators. */
  predicate IsWhiteSpace(c: char) {
    var n := c as int;
    (0x09 <= n <= 0x0D) || n == 0x20 || n == 0x85 || n == 0xA0 ||
    n == 0x1680 || (0x2000 <= n <= 0x200A) || n == 0x2028 || n == 0x2029 ||
    n == 0x202F || n == 0x205F || n == 0x3000
  }

  /** String.IsNullOrWhiteSpace on a non-null string. */
  predicate AllWhiteSpace(s: string) {
    forall i | 0 <= i < |s| :: IsWhiteSpace(s[i])
  }

  /** No white space at either end (the empty string qualifies). */
  predicate Trimmed(s: string) {
    s == [] || (!IsWhiteSpace(s[0]) && !IsWhiteSpace(s[|s| - 1]))
  }

  /** The first position from `i` on that does not hold white space, or
      |s| if there is none. */
  function SkipWhiteSpace(s: string, i: nat): (j: nat)
    requires i <= |s|
    ensures i <= j <= |s|
    ensures forall k | i <= k < j :: IsWhiteSpace(s[k])
    ensures j < |s| ==> !IsWhiteSpace(s[j])
    decreases |s| - i
  {
    if i < |s| && IsWhiteSpace(s[i]) then SkipWhiteSpace(s, i + 1) else i
  }

  /** Scanning back from `hi` towards `lo`: the end of `s[lo..hi]` once its
      trailing white space is dropped. */
  function SkipWhiteSpaceBack(s: string, lo: nat, hi: nat): (j: nat)
    requires lo <= hi <= |s|
    ensures lo <= j <= hi
    ensures forall k | j <= k < hi :: IsWhiteSpace(s[k])
    ensures j > lo ==> !IsWhiteSpace(s[j - 1])
    decreases hi
  {
    if hi > lo && IsWhiteSpace(s[hi - 1]) then SkipWhiteSpaceBack(s, lo, hi - 1) else hi
  }

  /** The scan forward stops at the first position that is not white space. */
  lemma {:induction false} SkipWhiteSpaceAt(s: string, i: nat, j: nat)
    requires i <= j <= |s|
    requires forall k | i <= k < j :: IsWhiteSpace(s[k])
    requires j < |s| ==> !IsWhiteSpace(s[j])
    ensures SkipWhiteSpace(s, i) == j
    decreases j - i
  {
    if i < j {
      SkipWhiteSpaceAt(s, i + 1, j);
    }
  }

  /** The scan back stops just after the last position that is not white space. */
  lemma {:induction false} SkipWhiteSpaceBackAt(s: string, lo: nat, j: nat, hi: nat)
    requires lo <= j <= hi <= |s|
    requires forall k | j <= k < hi :: IsWhiteSpace(s[k])
    requires j > lo ==> !IsWhiteSpace(s[j - 1])
    ensures SkipWhiteSpaceBack(s, lo, hi) == j
    decreases hi - j
  {
    if j < hi {
      SkipWhiteSpaceBackAt(s, lo, j, hi - 1);
    }
  }

  /** String.TrimStart(): drops the leading white space. */
  function TrimStart(s: string): (r: string)
    ensures |r| <= |s| && r == s[|s| - |r|..]
    ensures AllWhiteSpace(s[..|s| - |r|])
    ensures r != [] ==> !IsWhiteSpace(r[0])
  {
    var i := SkipWhiteSpace(s, 0);
    assert forall k | 0 <= k < i :: s[..i][k] == s[k];
    s[i..]
  }

  /** String.Trim(): drops white space at both ends, scanning forward from
      the start and then back from the end. */
  function Trim(s: string): (r: string)
    ensures Trimmed(r)
    ensures |r| <= |s|
    ensures exists i | 0 <= i <= |s| - |r| ::
      r == s[i..i + |r|] && AllWhiteSpace(s[..i]) && AllWhiteSpace(s[i + |r|..])
  {
    var i := SkipWhiteSpace(s, 0);
    var j := SkipWhiteSpaceBack(s, i, |s|);
    assert forall k | 0 <= k < i :: s[..i][k] == s[k];
    assert forall k | 0 <= k < |s| - j :: s[j..][k] == s[j + k];
    s[i..j]
  }

  /** Trim is determined by its input: whatever text with no white space at
      its ends is surrounded by white space, Trim returns exactly that text. */
  lemma TrimPadded(a: string, t: string, b: string)
    requires AllWhiteSpace(a) && AllWhiteSpace(b) && Trimmed(t)
    ensures Trim(a + t + b) == t
  {
    var s := a + t + b;
    assert forall k | 0 <= k < |a| :: s[k] == a[k];
    assert forall k | |a| + |t| <= k < |s| :: s[k] == b[k - |a| - |t|];
    if t == [] {
      SkipWhiteSpaceAt(s, 0, |s|);
      SkipWhiteSpaceBackAt(s, |s|, |s|, |s|);
    } else {
      assert s[|a|] == t[0] && s[|a| + |t| - 1] == t[|t| - 1];
      SkipWhiteSpaceAt(s, 0, |a|);
      SkipWhiteSpaceBackAt(s, |a|, |a| + |t|, |s|);
      assert s[|a|..|a| + |t|] == t;
    }
  }

  /** String.IsNullOrWhiteSpace says the same as trimming to nothing. */
  lemma AllWhiteSpaceIffTrimEmpty(s: string)
    ensures AllWhiteSpace(s) <==> Trim(s) == []
  {
    if AllWhiteSpace(s) {
      TrimPadded(s, [], []);
      assert s + [] + [] == s;
    }
    if Trim(s) == [] {
      var i :| 0 <= i <= |s| && AllWhiteSpace(s[..i]) && AllWhiteSpace(s[i..]);
      forall k | 0 <= k < |s| ensures IsWhiteSpace(s[k]) {
        if k < i {
          assert s[..i][k] == s[k];
        } else {
          assert s[i..][k - i] == s[k];
        }
      }
    }
  }

  /** One character of String.ToLower, restricted to ASCII letters. */
  function LowerChar(c: char): char {
    if 'A' <= c <= 'Z' then (c as int + 32) as char else c
  }

  /** String.ToLower with ASCII case folding. */
  function ToLower(s: string): (r: string)
    ensures |r| == |s|
  {
    seq(|s|, i requires 0 <= i < |s| => LowerChar(s[i]))
  }

  /** String.Split(new[] { sep }, 2): the text before the first `sep` and
      the text after it, or None when `sep` does not occur (the call then
      returns a single part). */
  function SplitFirst(s: string, sep: char): (r: Option<(string, string)>)
    ensures r.None? <==> sep !in s
    ensures r.Some? ==> sep !in r.value.0 && s == r.value.0 + [sep] + r.value.1
  {
    if s == [] then None
    else if s[0] == sep then Some(([], s[1..]))
    else match SplitFirst(s[1..], sep)
      case None => None
      case Some((before, after)) =>
        assert s == [s[0]] + s[1..];
        Some(([s[0]] + before, after))
  }

  /** The parts joined back together with `sep` between neighbours. */
  function Join(parts: seq<string>, sep: char): string
    requires |parts| >= 1
  {
    if |parts| == 1 then parts[0] else parts[0] + [sep] + Join(parts[1..], sep)
  }

  /** String.Split(sep): every maximal piece of `s` between separators,
      so the result has one part more than `s` has separators. */
  function Split(s: string, sep: char): (r: seq<string>)
    ensures |r| >= 1
    ensures |r| == 1 <==> sep !in s
    ensures forall i | 0 <= i < |r| :: sep !in r[i]
    decreases |s|
  {
    match SplitFirst(s, sep)
    case None => [s]
    case Some((before, after)) =>
      var rest := Split(after, sep);
      assert ([before] + rest)[1..] == rest;
      [before] + rest
  }

  /** Joining undoes splitting: nothing of the text is lost. */
  lemma {:induction false} JoinSplit(s: string, sep: char)
    ensures Join(Split(s, sep), sep) == s
    decreases |s|
  {
    match SplitFirst(s, sep)
    case None =>
    case Some((before, after)) =>
      JoinSplit(after, sep);
      assert ([before] + Split(after, sep))[1..] == Split(after, sep);
  }

  lemma {:induction false} SplitFirstOf(a: string, sep: char, b: string)
    requires sep !in a
    ensures SplitFirst(a + [sep] + b, sep) == Some((a, b))
  {
    if a != [] {
      assert (a + [sep] + b)[1..] == a[1..] + [sep] + b;
      SplitFirstOf(a[1..], sep, b);
      assert [a[0]] + a[1..] == a;
    }
  }

  /** Splitting undoes joining: parts that do not contain the separator
      come back unchanged. */
  lemma {:induction false} SplitJoin(parts: seq<string>, sep: char)
    requires |parts| >= 1
    requires forall i | 0 <= i < |parts| :: sep !in parts[i]
    ensures Split(Join(parts, sep), sep) == parts
  {
    if |parts| == 1 {
      assert SplitFirst(parts[0], sep) == None;
    } else {
      var rest := Join(parts[1..], sep);
      SplitFirstOf(parts[0], sep, rest);
      SplitJoin(parts[1..], sep);
      assert [parts[0]] + parts[1..] == parts;
    }
  }

  /** Joining two or more separator-free parts puts a separator in the
      text, and splitting it again finds the second part in second place. */
  lemma SplitJoinSecond(parts: seq<string>, sep: char)
    requires |parts| >= 2
    requires forall i | 0 <= i < |parts| :: sep !in parts[i]
    ensures sep in Join(parts, sep)
    ensures Split(Join(parts, sep), sep)[1] == parts[1]
  {
    SplitJoin(parts, sep);
  }
}
