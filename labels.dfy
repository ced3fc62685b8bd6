/**
 * Extraction of lettered option lines ("A. foo", "- B) bar") from a question
 * title (ExtractLabels, forms.go:62-87). The regular expression of
 * forms.go:64 is written out as a predicate over one line of text:
 *
 *   dashed: '-', an optional single space, a letter A-Z, one or more
 *           separators (blank or punctuation), then the value;
 *   bare:   a letter A-Z at the start of the line, one or more punctuation
 *           characters, at most one blank, then the value.
 *
 * The value runs to the end of the line and is never empty; runs of
 * separators are greedy but leave it at least one character.
 */
module LabelExtraction {
  import opened Wrappers
  import opened Schema

  /** The option letter: a single upper-case Latin letter. */
  predicate IsLetter(c: char) {
    'A' <= c <= 'Z'
  }

  /** Whitespace other than carriage return and line feed: space, tab, form feed. */
  predicate IsBlank(c: char) {
    c == ' ' || c == '\t' || c == '\U{000C}'
  }

  /** Unicode dash punctuation (general category Pd, Unicode 15). */
  const Dashes: set<char> := {
    '-', '\U{058A}', '\U{05BE}', '\U{1400}', '\U{1806}',
    '\U{2010}', '\U{2011}', '\U{2012}', '\U{2013}', '\U{2014}', '\U{2015}',
    '\U{2E17}', '\U{2E1A}', '\U{2E3A}', '\U{2E3B}', '\U{2E40}', '\U{2E5D}',
    '\U{301C}', '\U{3030}', '\U{30A0}', '\U{FE31}', '\U{FE32}', '\U{FE58}',
    '\U{FE63}', '\U{FF0D}', '\U{10EAD}'
  }

  predicate IsDash(c: char) {
    c in Dashes
  }

  /** Punctuation that may follow the letter: a dash, '.' or ')'. */
  predicate IsPunct(c: char) {
    IsDash(c) || c == '.' || c == ')'
  }

  /** Separators allowed after the letter of a dashed line. */
  predicate IsSep(c: char) {
    IsBlank(c) || IsPunct(c)
  }

  /** Length of the longest run of separators starting at `i`. */
  function SepRun(line: string, i: nat): (n: nat)
    requires i <= |line|
    ensures i + n <= |line|
    decreases |line| - i
  {
    if i < |line| && IsSep(line[i]) then 1 + SepRun(line, i + 1) else 0
  }

  /** The run is maximal: all of it is in the class, and the character after it is not. */
  lemma {:induction false} SepRunSpec(line: string, i: nat)
    requires i <= |line|
    ensures forall k | i <= k < i + SepRun(line, i) :: IsSep(line[k])
    ensures i + SepRun(line, i) == |line| || !IsSep(line[i + SepRun(line, i)])
    decreases |line| - i
  {
    if i < |line| && IsSep(line[i]) {
      SepRunSpec(line, i + 1);
    }
  }

  /** Length of the longest run of punctuation starting at `i`. */
  function PunctRun(line: string, i: nat): (n: nat)
    requires i <= |line|
    ensures i + n <= |line|
    decreases |line| - i
  {
    if i < |line| && IsPunct(line[i]) then 1 + PunctRun(line, i + 1) else 0
  }

  /** The run is maximal: all of it is in the class, and the character after it is not. */
  lemma {:induction false} PunctRunSpec(line: string, i: nat)
    requires i <= |line|
    ensures forall k | i <= k < i + PunctRun(line, i) :: IsPunct(line[k])
    ensures i + PunctRun(line, i) == |line| || !IsPunct(line[i + PunctRun(line, i)])
    decreases |line| - i
  {
    if i < |line| && IsPunct(line[i]) {
      PunctRunSpec(line, i + 1);
    }
  }

  /** Where the line starting at `i` ends: the next '\n' or the end of the text. */
  function LineEnd(text: string, i: nat): (e: nat)
    requires i <= |text|
    ensures i <= e <= |text|
    decreases |text| - i
  {
    if i == |text| || text[i] == '\n' then i else LineEnd(text, i + 1)
  }

  /** The line from `i` holds no '\n' and stops at a '\n' or at the end of the text. */
  lemma {:induction false} LineEndSpec(text: string, i: nat)
    requires i <= |text|
    ensures forall k | i <= k < LineEnd(text, i) :: text[k] != '\n'
    ensures LineEnd(text, i) == |text| || text[LineEnd(text, i)] == '\n'
    decreases |text| - i
  {
    if !(i == |text| || text[i] == '\n') {
      LineEndSpec(text, i + 1);
    }
  }

  lemma {:induction false} SepRunUnique(line: string, i: nat, n: nat)
    requires i + n <= |line|
    requires forall k | i <= k < i + n :: IsSep(line[k])
    requires i + n == |line| || !IsSep(line[i + n])
    ensures SepRun(line, i) == n
    decreases n
  {
    if n > 0 {
      SepRunUnique(line, i + 1, n - 1);
    }
  }

  lemma {:induction false} PunctRunUnique(line: string, i: nat, n: nat)
    requires i + n <= |line|
    requires forall k | i <= k < i + n :: IsPunct(line[k])
    requires i + n == |line| || !IsPunct(line[i + n])
    ensures PunctRun(line, i) == n
    decreases n
  {
    if n > 0 {
      PunctRunUnique(line, i + 1, n - 1);
    }
  }

  /** The contract of LineEnd determines its result. */
  lemma {:induction false} LineEndUnique(text: string, i: nat, e: nat)
    requires i <= e <= |text|
    requires forall k | i <= k < e :: text[k] != '\n'
    requires e == |text| || text[e] == '\n'
    ensures LineEnd(text, i) == e
    decreases e - i
  {
    if i < e {
      LineEndUnique(text, i + 1, e);
    }
  }

  predicate AllSep(s: string) {
    forall k | 0 <= k < |s| :: IsSep(s[k])
  }

  predicate AllPunct(s: string) {
    forall k | 0 <= k < |s| :: IsPunct(s[k])
  }

  predicate AllBlank(s: string) {
    forall k | 0 <= k < |s| :: IsBlank(s[k])
  }

  /** The marker in front of a value, in one of the two shapes of forms.go:64. */
  predicate IsMarker(m: string, x: char) {
    || (|m| >= 3 && m[0] == '-' && m[1] == x && AllSep(m[2..]))
    || (|m| >= 4 && m[0] == '-' && m[1] == ' ' && m[2] == x && AllSep(m[3..]))
    || (|m| >= 2 && m[0] == x && AllPunct(m[1..]))
    || (|m| >= 3 && m[0] == x && AllPunct(m[1..|m| - 1]) && IsBlank(m[|m| - 1]))
  }

  /** An extracted answer: one letter, a non-empty value without line breaks. */
  predicate WellFormed(a: Answer) {
    && |a.response| == 1 && IsLetter(a.response[0])
    && |a.value| > 0 && forall k | 0 <= k < |a.value| :: a.value[k] != '\n'
  }

  /** Dashed shape: '-', optional space, letter, separators, value. */
  function MatchDashed(line: string): Option<Answer>
    requires |line| > 0 && line[0] == '-'
  {
    var k := if |line| > 1 && line[1] == ' ' then 2 else 1;
    if |line| < k + 3 || !IsLetter(line[k]) || !IsSep(line[k + 1]) then None
    else
      var run := SepRun(line, k + 1);
      var s := if run < |line| - k - 2 then run else |line| - k - 2;
      Some(Answer([line[k]], line[k + 1 + s..]))
  }

  /** Bare shape: letter, punctuation, at most one blank, value. */
  function MatchBare(line: string): Option<Answer>
    requires |line| > 0 && IsLetter(line[0])
  {
    if |line| < 3 || !IsPunct(line[1]) then None
    else
      var run := PunctRun(line, 1);
      var p := if run < |line| - 2 then run else |line| - 2;
      var start := if IsBlank(line[1 + p]) && 2 + p < |line| then 2 + p else 1 + p;
      Some(Answer([line[0]], line[start..]))
  }

  /** The match of one line (no '\n' inside), or None. */
  function MatchLine(line: string): Option<Answer>
  {
    if |line| == 0 then None
    else if line[0] == '-' then MatchDashed(line)
    else if IsLetter(line[0]) then MatchBare(line)
    else None
  }

  /**
   * `a` is read off `line`: a marker for its letter at the very start of the
   * line, then its value, which runs to the end of the line.
   */
  predicate ReadOff(line: string, a: Answer) {
    && |a.response| == 1 && IsLetter(a.response[0])
    && 0 < |a.value| < |line|
    && line == line[..|line| - |a.value|] + a.value
    && IsMarker(line[..|line| - |a.value|], a.response[0])
  }

  /** Every match is read off its line: a line-start marker, then the rest of the line. */
  lemma MatchLineSound(line: string)
    requires MatchLine(line).Some?
    ensures ReadOff(line, MatchLine(line).value)
  {
    if line[0] == '-' {
      DashedSound(line);
    } else {
      BareSound(line);
    }
  }

  /**
   * Conversely, a line that splits into a marker and a value always matches,
   * with the marker's letter: MatchLine matches exactly when the pattern does.
   */
  lemma MatchLineComplete(line: string, a: Answer)
    requires ReadOff(line, a)
    ensures MatchLine(line).Some?
    ensures MatchLine(line).value.response == a.response
  {
    var m := line[..|line| - |a.value|];
    var x := a.response[0];
    assert a.response == [x];
    assert |line| > |m| && forall k | 0 <= k < |m| :: line[k] == m[k];
    if |m| >= 3 && m[0] == '-' && m[1] == x && AllSep(m[2..]) {
      assert m[2..][0] == m[2];
    } else if |m| >= 4 && m[0] == '-' && m[1] == ' ' && m[2] == x && AllSep(m[3..]) {
      assert m[3..][0] == m[3];
    } else if |m| >= 2 && m[0] == x && AllPunct(m[1..]) {
      assert m[1..][0] == m[1];
    } else {
      assert m[1..|m| - 1][0] == m[1];
    }
  }

  /**
   * The marker's runs are greedy but leave the value at least one character:
   * of all the ways a line splits into a marker and a value, MatchLine takes
   * the one with the shortest value, as leftmost-first matching does.
   */
  lemma MatchLineGreedy(line: string, a: Answer)
    requires ReadOff(line, a)
    ensures MatchLine(line).Some?
    ensures |MatchLine(line).value.value| <= |a.value|
  {
    MatchLineComplete(line, a);
    var m := line[..|line| - |a.value|];
    var x := a.response[0];
    assert |line| > |m| && forall k | 0 <= k < |m| :: line[k] == m[k];
    if |m| >= 3 && m[0] == '-' && m[1] == x && AllSep(m[2..]) {
      forall k | 2 <= k < |m| ensures IsSep(line[k]) {
        assert m[2..][k - 2] == m[k];
      }
      SepRunAtLeast(line, 2, |m| - 2);
    } else if |m| >= 4 && m[0] == '-' && m[1] == ' ' && m[2] == x && AllSep(m[3..]) {
      forall k | 3 <= k < |m| ensures IsSep(line[k]) {
        assert m[3..][k - 3] == m[k];
      }
      SepRunAtLeast(line, 3, |m| - 3);
    } else if |m| >= 2 && m[0] == x && AllPunct(m[1..]) {
      forall k | 1 <= k < |m| ensures IsPunct(line[k]) {
        assert m[1..][k - 1] == m[k];
      }
      PunctRunAtLeast(line, 1, |m| - 1);
    } else {
      forall k | 1 <= k < |m| - 1 ensures IsPunct(line[k]) {
        assert m[1..|m| - 1][k - 1] == m[k];
      }
      PunctRunAtLeast(line, 1, |m| - 2);
    }
  }

  /** `n` separators from `i` on are covered by the run there. */
  lemma {:induction false} SepRunAtLeast(line: string, i: nat, n: nat)
    requires i + n <= |line|
    requires forall k | i <= k < i + n :: IsSep(line[k])
    ensures SepRun(line, i) >= n
    decreases n
  {
    if n > 0 {
      SepRunAtLeast(line, i + 1, n - 1);
    }
  }

  /** `n` punctuation characters from `i` on are covered by the run there. */
  lemma {:induction false} PunctRunAtLeast(line: string, i: nat, n: nat)
    requires i + n <= |line|
    requires forall k | i <= k < i + n :: IsPunct(line[k])
    ensures PunctRun(line, i) >= n
    decreases n
  {
    if n > 0 {
      PunctRunAtLeast(line, i + 1, n - 1);
    }
  }

  lemma DashedSound(line: string)
    requires |line| > 0 && line[0] == '-' && MatchDashed(line).Some?
    ensures ReadOff(line, MatchDashed(line).value)
  {
    var k := if |line| > 1 && line[1] == ' ' then 2 else 1;
    var run := SepRun(line, k + 1);
    SepRunSpec(line, k + 1);
    var s := if run < |line| - k - 2 then run else |line| - k - 2;
    assert MatchDashed(line).value == Answer([line[k]], line[k + 1 + s..]);
    DashedMarker(line, k, s);
    ReadOffAt(line, line[k], k + 1 + s);
  }

  lemma BareSound(line: string)
    requires |line| > 0 && IsLetter(line[0]) && MatchBare(line).Some?
    ensures ReadOff(line, MatchBare(line).value)
  {
    var run := PunctRun(line, 1);
    PunctRunSpec(line, 1);
    var p := if run < |line| - 2 then run else |line| - 2;
    var start := if IsBlank(line[1 + p]) && 2 + p < |line| then 2 + p else 1 + p;
    assert MatchBare(line).value == Answer([line[0]], line[start..]);
    BareMarker(line, p, start == 2 + p);
    ReadOffAt(line, line[0], start);
  }

  /** A marker of `cut` characters followed by the rest of the line reads off that rest. */
  lemma ReadOffAt(line: string, x: char, cut: nat)
    requires IsLetter(x) && 0 < cut < |line| && IsMarker(line[..cut], x)
    ensures ReadOff(line, Answer([x], line[cut..]))
  {
    assert line == line[..cut] + line[cut..];
  }

  /** '-', an optional space, the letter at `k`, then `s` separators form a marker. */
  lemma DashedMarker(line: string, k: nat, s: nat)
    requires 1 <= s && k + 1 + s <= |line| && line[0] == '-'
    requires k == 1 || (k == 2 && line[1] == ' ')
    requires forall j | k + 1 <= j < k + 1 + s :: IsSep(line[j])
    ensures IsMarker(line[..k + 1 + s], line[k])
  {
    var m := line[..k + 1 + s];
    var tail := m[k + 1..];
    assert AllSep(tail) by {
      forall j | 0 <= j < |tail| ensures IsSep(tail[j]) {
        assert tail[j] == line[k + 1 + j];
      }
    }
    if k == 1 {
      assert |m| >= 3 && m[0] == '-' && m[1] == line[k] && AllSep(m[2..]);
    } else {
      assert |m| >= 4 && m[0] == '-' && m[1] == ' ' && m[2] == line[k] && AllSep(m[3..]);
    }
  }

  /** The letter, `p` punctuation characters and optionally one blank form a marker. */
  lemma BareMarker(line: string, p: nat, blank: bool)
    requires 1 <= p && 1 + p + (if blank then 1 else 0) <= |line|
    requires forall j | 1 <= j < 1 + p :: IsPunct(line[j])
    requires blank ==> IsBlank(line[1 + p])
    ensures IsMarker(line[..1 + p + (if blank then 1 else 0)], line[0])
  {
    var m := line[..1 + p + (if blank then 1 else 0)];
    var run := m[1..1 + p];
    assert AllPunct(run) by {
      forall j | 0 <= j < |run| ensures IsPunct(run[j]) {
        assert run[j] == line[1 + j];
      }
    }
    if blank {
      assert |m| >= 3 && m[0] == line[0] && AllPunct(m[1..|m| - 1]) && IsBlank(m[|m| - 1]);
    } else {
      assert |m| >= 2 && m[0] == line[0] && AllPunct(m[1..]);
    }
  }

  function AsSeq(o: Option<Answer>): seq<Answer> {
    if o.Some? then [o.value] else []
  }

  /**
   * The lines of a text, split at every '\n'. A line starts at the start of
   * the text or right after a '\n' and runs up to the next '\n'.
   */
  function Lines(text: string): seq<string>
    decreases |text|
  {
    var e := LineEnd(text, 0);
    if e == |text| then [text] else [text[..e]] + Lines(text[e + 1..])
  }

  /** The matches of a sequence of lines, in order. */
  function MatchAll(lines: seq<string>): seq<Answer> {
    if lines == [] then [] else AsSeq(MatchLine(lines[0])) + MatchAll(lines[1..])
  }

  /** The answers of the lines from the line start `i` on, in order. */
  function LabelsFrom(text: string, i: nat): seq<Answer>
    requires i <= |text|
    decreases |text| - i
  {
    var e := LineEnd(text, i);
    if e == |text| then AsSeq(MatchLine(text[i..e]))
    else AsSeq(MatchLine(text[i..e])) + LabelsFrom(text, e + 1)
  }

  /** All answers found in `text`, in order: what FindAllStringSubmatch reports. */
  function Labels(text: string): seq<Answer> {
    LabelsFrom(text, 0)
  }

  /** The answers of a text are the matches of its lines, in order. */
  lemma LabelsAreLineMatches(text: string)
    ensures Labels(text) == MatchAll(Lines(text))
  {
    LabelsFromLines(text, 0);
    assert text[0..] == text;
  }

  /** Reading line by line from `i` finds the answers of the lines of `text[i..]`. */
  lemma {:induction false} LabelsFromLines(text: string, i: nat)
    requires i <= |text|
    ensures LabelsFrom(text, i) == MatchAll(Lines(text[i..]))
    decreases |text| - i
  {
    var e := LineEnd(text, i);
    var first := AsSeq(MatchLine(text[i..e]));
    LineEndSpec(text, i);
    MatchAllAt(text, i, e);
    if e < |text| {
      LabelsFromLines(text, e + 1);
      var r1 := LabelsFrom(text, e + 1);
      var r2 := MatchAll(Lines(text[e + 1..]));
      assert r1 == r2;
      assert first + r1 == first + r2;
    } else {
      assert LabelsFrom(text, i) == first;
    }
  }

  /**
   * One step of ExtractLabels: appends the match of the line `text[i..e]`,
   * if any, to the answers found so far. This keeps "found so far + still to
   * find = all", and after the last line it gives all answers.
   */
  method AppendLineMatch(text: string, i: nat, e: nat, done: seq<Answer>) returns (next: seq<Answer>)
    requires i <= e <= |text| && e == LineEnd(text, i)
    requires done + LabelsFrom(text, i) == LabelsFrom(text, 0)
    ensures e == |text| ==> next == Labels(text)
    ensures e < |text| ==> next + LabelsFrom(text, e + 1) == LabelsFrom(text, 0)
  {
    var found := AsSeq(MatchLine(text[i..e]));
    next := done + found;
    if e < |text| {
      var rest := LabelsFrom(text, e + 1);
      assert LabelsFrom(text, i) == found + rest;
      Regroup(done, found, rest, LabelsFrom(text, i), LabelsFrom(text, 0));
    }
  }

  /** Regrouping a concatenation: "done + (found + rest)" read as "(done + found) + rest". */
  lemma Regroup(done: seq<Answer>, found: seq<Answer>, rest: seq<Answer>, pending: seq<Answer>, all: seq<Answer>)
    requires done + pending == all && pending == found + rest
    ensures done + found + rest == all
  {
    assert done + found + rest == done + (found + rest);
  }

  /** ExtractLabels (forms.go:62-87): scans line by line and appends each match. */
  method ExtractLabels(text: string) returns (answers: seq<Answer>)
    ensures answers == Labels(text)
  {
    answers := [];
    var i := 0;
    while true
      invariant i <= |text|
      invariant answers + LabelsFrom(text, i) == LabelsFrom(text, 0)
      decreases |text| - i
    {
      var e := LineEnd(text, i);
      answers := AppendLineMatch(text, i, e, answers);
      if e == |text| {
        return;
      }
      i := e + 1;
    }
  }

  // ---------------------------------------------------------------------------
  // Lines

  /** The lines of a suffix that starts a line: its first line, then the rest. */
  lemma LinesAt(text: string, i: nat, e: nat)
    requires i <= e <= |text|
    requires forall k | i <= k < e :: text[k] != '\n'
    requires e == |text| || text[e] == '\n'
    ensures Lines(text[i..]) == [text[i..e]] + (if e == |text| then [] else Lines(text[e + 1..]))
  {
    var s := text[i..];
    forall k | 0 <= k < e - i ensures s[k] != '\n' {
      assert s[k] == text[i + k];
    }
    LineEndUnique(s, 0, e - i);
    if e == |text| {
      assert s == text[i..e];
    } else {
      assert s[..e - i] == text[i..e];
      assert s[e - i + 1..] == text[e + 1..];
    }
  }

  /** The answers of a suffix that starts a line: its first line's match, then the rest's. */
  lemma MatchAllAt(text: string, i: nat, e: nat)
    requires i <= e <= |text|
    requires forall k | i <= k < e :: text[k] != '\n'
    requires e == |text| || text[e] == '\n'
    ensures e == |text| ==> MatchAll(Lines(text[i..])) == AsSeq(MatchLine(text[i..e]))
    ensures e < |text| ==>
      MatchAll(Lines(text[i..])) == AsSeq(MatchLine(text[i..e])) + MatchAll(Lines(text[e + 1..]))
  {
    LinesAt(text, i, e);
    if e == |text| {
      assert MatchAll([]) == [];
    } else {
      var rest := Lines(text[e + 1..]);
      assert ([text[i..e]] + rest)[1..] == rest;
    }
  }

  /** A '\n' ends one line and starts the next. */
  lemma LinesSplit(p: string, q: string)
    requires forall k | 0 <= k < |p| :: p[k] != '\n'
    ensures Lines(p + "\n" + q) == [p] + Lines(q)
  {
    var t := p + "\n" + q;
    LineEndUnique(t, 0, |p|);
    assert t[..|p|] == p;
    assert t[|p| + 1..] == q;
  }

  /** A text without '\n' is a single line. */
  lemma OneLine(p: string)
    requires forall k | 0 <= k < |p| :: p[k] != '\n'
    ensures Lines(p) == [p]
  {
    LineEndUnique(p, 0, |p|);
  }

  /** No line holds a '\n'. */
  lemma {:induction false} LinesUnbroken(text: string)
    ensures forall l | l in Lines(text) :: forall k | 0 <= k < |l| :: l[k] != '\n'
    decreases |text|
  {
    var e := LineEnd(text, 0);
    LineEndSpec(text, 0);
    if e < |text| {
      LinesUnbroken(text[e + 1..]);
    }
  }

  function NewlineCount(text: string): nat {
    multiset(text)['\n']
  }

  /** There is one line more than there are '\n' characters. */
  lemma {:induction false} LineCount(text: string)
    ensures |Lines(text)| == NewlineCount(text) + 1
    decreases |text|
  {
    var e := LineEnd(text, 0);
    LineEndSpec(text, 0);
    NoNewlineInLine(text, 0, e);
    if e < |text| {
      LineCount(text[e + 1..]);
      assert text == text[..e] + [text[e]] + text[e + 1..];
    } else {
      assert text == text[0..e];
    }
  }

  lemma {:induction false} NoNewlineInLine(text: string, i: nat, e: nat)
    requires i <= e <= |text|
    requires forall k | i <= k < e :: text[k] != '\n'
    ensures multiset(text[i..e])['\n'] == 0
    decreases e - i
  {
    if i < e {
      NoNewlineInLine(text, i + 1, e);
      assert text[i..e] == [text[i]] + text[i + 1..e];
    }
  }

  // ---------------------------------------------------------------------------
  // Properties of the extracted answers

  /** Matching is per line: the text's answers are its first line's, then the rest's. */
  lemma LabelsLineByLine(p: string, q: string)
    requires forall k | 0 <= k < |p| :: p[k] != '\n'
    ensures Labels(p + "\n" + q) == AsSeq(MatchLine(p)) + Labels(q)
  {
    LabelsAreLineMatches(p + "\n" + q);
    LabelsAreLineMatches(q);
    LinesSplit(p, q);
    assert ([p] + Lines(q))[1..] == Lines(q);
  }

  /** The answers of a one-line text are that line's match. */
  lemma LabelsOneLine(p: string)
    requires forall k | 0 <= k < |p| :: p[k] != '\n'
    ensures Labels(p) == AsSeq(MatchLine(p))
  {
    LabelsAreLineMatches(p);
    OneLine(p);
    assert [p][1..] == [];
    assert MatchAll([]) == [];
  }

  lemma {:induction false} MatchAllAtMostOne(lines: seq<string>)
    ensures |MatchAll(lines)| <= |lines|
  {
    if lines != [] {
      MatchAllAtMostOne(lines[1..]);
    }
  }

  /** At most one answer per line. */
  lemma AtMostOnePerLine(text: string)
    ensures |Labels(text)| <= NewlineCount(text) + 1
  {
    LabelsAreLineMatches(text);
    MatchAllAtMostOne(Lines(text));
    LineCount(text);
  }

  lemma {:induction false} MatchAllWellFormed(lines: seq<string>)
    requires forall l | l in lines :: forall k | 0 <= k < |l| :: l[k] != '\n'
    ensures forall a | a in MatchAll(lines) :: WellFormed(a)
  {
    if lines != [] {
      var line := lines[0];
      var m := MatchLine(line);
      if m.Some? {
        MatchLineSound(line);
        var v := m.value.value;
        forall k | 0 <= k < |v| ensures v[k] != '\n' {
          assert v[k] == line[|line| - |v| + k];
        }
      }
      MatchAllWellFormed(lines[1..]);
    }
  }

  /** Every extracted answer is a single letter with a non-empty one-line value. */
  lemma LabelsWellFormed(text: string)
    ensures forall a | a in Labels(text) :: WellFormed(a)
  {
    LabelsAreLineMatches(text);
    LinesUnbroken(text);
    MatchAllWellFormed(Lines(text));
  }

  /** A dashed line "-X…v" or "- X…v" yields exactly (X, v). */
  lemma DashedLineMatches(x: char, spaced: bool, s: string, v: string)
    requires IsLetter(x) && |s| > 0 && AllSep(s) && |v| > 0 && !IsSep(v[0])
    ensures MatchLine((if spaced then "- " else "-") + [x] + s + v) == Some(Answer([x], v))
  {
    var line := (if spaced then "- " else "-") + [x] + s + v;
    var k := if spaced then 2 else 1;
    assert line[k] == x && line[k + 1] == s[0];
    SepRunUnique(line, k + 1, |s|);
    assert line[k + 1 + |s|..] == v;
  }

  /** A bare line "X…v", punctuation then at most one blank, yields exactly (X, v). */
  lemma BareLineMatches(x: char, p: string, blank: string, v: string)
    requires IsLetter(x) && |p| > 0 && AllPunct(p)
    requires |blank| <= 1 && AllBlank(blank)
    requires |v| > 0 && !IsSep(v[0])
    ensures MatchLine([x] + p + blank + v) == Some(Answer([x], v))
  {
    var line := [x] + p + blank + v;
    assert line[1] == p[0];
    assert line[1 + |p|] == if blank == [] then v[0] else blank[0];
    PunctRunUnique(line, 1, |p|);
    assert line[1 + |p| + |blank|..] == v;
  }

  /**
   * A line that does not begin with '-' or with a letter followed by
   * punctuation yields nothing, whatever letters it holds further on.
   */
  lemma UnanchoredLineIgnored(line: string)
    requires |line| > 0 && line[0] != '-'
    requires !IsLetter(line[0]) || |line| < 2 || !IsPunct(line[1])
    ensures MatchLine(line) == None
  {
  }
}
