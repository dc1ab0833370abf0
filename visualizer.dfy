/** The per-refresh pass of gem5/visualizer.py (lines 21-50): split the log
    into lines, classify each line by its experiment prefix and worker tag,
    and fold the results into sets of experiments and workers and a running
    peak latency. */
module Visualizer {
  import opened Text

  // ---------------------------------------------------------------------
  // f.readlines()

  /** What a file opened in text mode with the default universal newlines
      delivers: each "\r\n" and each lone '\r' becomes '\n'. */
  function Translate(s: string): (r: string)
    ensures '\r' !in r
    ensures |r| <= |s|
    decreases |s|
  {
    if s == [] then []
    else if s[0] == '\r' then "\n" + Translate(if |s| > 1 && s[1] == '\n' then s[2..] else s[1..])
    else [s[0]] + Translate(s[1..])
  }

  /** Contents holding no '\r', the script's own log among them, are read
      as written. */
  lemma {:induction false} TranslateUnchanged(s: string)
    requires '\r' !in s
    ensures Translate(s) == s
    decreases |s|
  {
    if s != [] {
      assert s[0] in s;
      assert forall c :: c in s[1..] ==> c in s;
      TranslateUnchanged(s[1..]);
      assert [s[0]] + s[1..] == s;
    }
  }

  /** Translation keeps every other character: it occurs in the result
      exactly when it occurs in the contents, and a leading one stays in
      front. */
  lemma {:induction false} TranslateKeepsText(s: string, c: char)
    requires c != '\r' && c != '\n'
    ensures c in Translate(s) <==> c in s
    ensures |s| > 0 && s[0] == c ==> |Translate(s)| > 0 && Translate(s)[0] == c
    decreases |s|
  {
    if s != [] {
      var rest := if s[0] == '\r' && |s| > 1 && s[1] == '\n' then s[2..] else s[1..];
      var head := s[..|s| - |rest|];
      assert s == head + rest;
      TranslateKeepsText(rest, c);
      var out := if s[0] == '\r' then "\n" else [s[0]];
      assert Translate(s) == out + Translate(rest);
      assert c in out <==> c in head by {
        if s[0] == '\r' && |s| > 1 && s[1] == '\n' { assert head == [s[0], s[1]]; }
        else { assert head == [s[0]]; }
      }
    }
  }

  /** Length of the first line of s, its newline included. */
  function FirstLineLength(s: string): (k: nat)
    requires |s| > 0
    ensures 0 < k <= |s|
    ensures forall j :: 0 <= j < k - 1 ==> s[j] != '\n'
    ensures k < |s| ==> s[k - 1] == '\n'
  {
    if s[0] == '\n' || |s| == 1 then 1 else 1 + FirstLineLength(s[1..])
  }

  /** The translated text cut after each '\n'; a last line without one (a
      write still in progress) is kept as it is. */
  function SplitLines(s: string): seq<string>
    decreases |s|
  {
    if s == [] then [] else
      var k := FirstLineLength(s);
      [s[..k]] + SplitLines(s[k..])
  }

  /** The lines of a file's contents, each keeping its newline. */
  function ReadLines(s: string): seq<string> {
    SplitLines(Translate(s))
  }

  function Concat(lines: seq<string>): string {
    if lines == [] then [] else lines[0] + Concat(lines[1..])
  }

  /** A line as readlines() returns it: non-empty, a newline at most as its
      last character, and one there unless it is the file's last line. */
  predicate IsLine(l: string, last: bool) {
    && |l| > 0
    && (forall j :: 0 <= j < |l| - 1 ==> l[j] != '\n')
    && (!last ==> l[|l| - 1] == '\n')
  }

  /** Splitting loses and adds nothing. */
  lemma {:induction false} SplitLinesConcat(s: string)
    ensures Concat(SplitLines(s)) == s
    decreases |s|
  {
    if s != [] {
      var k := FirstLineLength(s);
      SplitLinesConcat(s[k..]);
      assert s[..k] + s[k..] == s;
      assert SplitLines(s)[1..] == SplitLines(s[k..]);
    }
  }

  /** Every piece is a line, only the last may lack its newline, and a
      character absent from the text is absent from every piece. */
  lemma {:induction false} SplitLinesAreLines(s: string, c: char)
    ensures forall i :: 0 <= i < |SplitLines(s)| ==> IsLine(SplitLines(s)[i], i == |SplitLines(s)| - 1)
    ensures c !in s ==> forall i :: 0 <= i < |SplitLines(s)| ==> c !in SplitLines(s)[i]
    decreases |s|
  {
    if s != [] {
      var k := FirstLineLength(s);
      SplitLinesAreLines(s[k..], c);
      var ls := SplitLines(s);
      assert ls[1..] == SplitLines(s[k..]);
      assert IsLine(ls[0], 0 == |ls| - 1) by {
        if k == |s| { assert s[k..] == []; }
      }
      forall i | 1 <= i < |ls| ensures IsLine(ls[i], i == |ls| - 1) && (c !in s ==> c !in ls[i]) {
        assert ls[i] == SplitLines(s[k..])[i - 1];
        if c !in s { assert forall x :: x in s[k..] ==> x in s; }
      }
      if c !in s { assert forall x :: x in s[..k] ==> x in s; }
    }
  }

  lemma {:induction false} TranslatePrefix(a: string, rest: string)
    requires '\r' !in a
    ensures Translate(a + rest) == a + Translate(rest)
    decreases |a|
  {
    if a != [] {
      assert (a + rest)[1..] == a[1..] + rest;
      assert a[0] in a;
      assert forall c :: c in a[1..] ==> c in a;
      TranslatePrefix(a[1..], rest);
      assert (a + rest)[0] == a[0] != '\r';
      assert Translate(a + rest) == [a[0]] + Translate(a[1..] + rest);
      assert [a[0]] + (a[1..] + Translate(rest)) == a + Translate(rest);
    } else {
      assert a + rest == rest;
    }
  }

  lemma {:induction false} FirstLineOf(a: string, rest: string)
    requires '\n' !in a
    ensures FirstLineLength(a + "\n" + rest) == |a| + 1
    decreases |a|
  {
    if a != [] {
      assert (a + "\n" + rest)[1..] == a[1..] + "\n" + rest;
      assert a[0] in a;
      assert forall c :: c in a[1..] ==> c in a;
      FirstLineOf(a[1..], rest);
    }
  }

  lemma SplitAfterLine(a: string, u: string)
    requires '\n' !in a
    ensures SplitLines(a + "\n" + u) == [a + "\n"] + SplitLines(u)
  {
    var t := a + "\n" + u;
    FirstLineOf(a, u);
    assert t[..|a| + 1] == a + "\n" && t[|a| + 1..] == u;
  }

  /** A text without newline sequences followed by one that translates to
      '\n' is read as one line. */
  lemma ReadLineEnding(a: string, ending: string, b: string)
    requires '\r' !in a && '\n' !in a
    requires Translate(ending + b) == "\n" + Translate(b)
    ensures ReadLines(a + ending + b) == [a + "\n"] + ReadLines(b)
  {
    var u := Translate(b);
    TranslatePrefix(a, ending + b);
    assert a + ending + b == a + (ending + b);
    assert a + ("\n" + u) == a + "\n" + u;
    assert Translate(a + ending + b) == a + "\n" + u;
    SplitAfterLine(a, u);
  }

  /** "\r\n", a '\r' not followed by '\n', and '\n' each end a line, which
      is then read with a single '\n' at its end. */
  lemma ReadLinesBreaks(a: string, b: string)
    requires '\r' !in a && '\n' !in a
    ensures ReadLines(a + "\r\n" + b) == [a + "\n"] + ReadLines(b)
    ensures (b == [] || b[0] != '\n') ==> ReadLines(a + "\r" + b) == [a + "\n"] + ReadLines(b)
    ensures ReadLines(a + "\n" + b) == [a + "\n"] + ReadLines(b)
  {
    assert ("\r\n" + b)[2..] == b;
    ReadLineEnding(a, "\r\n", b);
    assert ("\n" + b)[1..] == b;
    ReadLineEnding(a, "\n", b);
    if b == [] || b[0] != '\n' {
      assert ("\r" + b)[1..] == b;
      ReadLineEnding(a, "\r", b);
    }
  }

  /** The lines put back together are the translated contents. */
  lemma ReadLinesConcat(s: string)
    ensures Concat(ReadLines(s)) == Translate(s)
  {
    SplitLinesConcat(Translate(s));
  }

  /** Every line ends at the first newline sequence of the contents after
      the previous one: no line holds a '\r', and a '\n' only as its last
      character, which it has unless it is the last line. */
  lemma ReadLinesAreLines(s: string)
    ensures forall i :: 0 <= i < |ReadLines(s)| ==>
      IsLine(ReadLines(s)[i], i == |ReadLines(s)| - 1) && '\r' !in ReadLines(s)[i]
  {
    SplitLinesAreLines(Translate(s), '\r');
  }

  // ---------------------------------------------------------------------
  // re.match("Experiment: ([^\s]+) ->", line)

  const ExperimentTag := "Experiment: "
  const ArrowTag := " ->"

  /** Length of the longest prefix of s holding no whitespace. */
  function NonSpaceRun(s: string): (n: nat)
    ensures n <= |s| && NoSpace(s[..n])
    ensures n < |s| ==> IsSpace(s[n])
  {
    if s == [] || IsSpace(s[0]) then 0 else
      var n := 1 + NonSpaceRun(s[1..]);
      assert forall j :: 1 <= j < n ==> s[..n][j] == s[1..][..n - 1][j - 1];
      n
  }

  lemma {:induction false} NonSpaceRunAt(s: string, n: nat)
    requires n <= |s| && NoSpace(s[..n]) && (n < |s| ==> IsSpace(s[n]))
    ensures NonSpaceRun(s) == n
    decreases n
  {
    if n > 0 {
      assert s[..n][0] == s[0];
      assert s[1..][..n - 1] == s[..n][1..];
      NonSpaceRunAt(s[1..], n - 1);
    }
  }

  /** The experiment name a line is logged under: `[^\s]+` cannot stop
      short of the first whitespace and still be followed by " ->", so the
      name is the whole run of non-whitespace after the tag. */
  function MatchExperiment(line: string): Option<string> {
    if !StartsWith(line, ExperimentTag) then None
    else
      var rest := line[|ExperimentTag|..];
      var n := NonSpaceRun(rest);
      if n > 0 && StartsWith(rest[n..], ArrowTag) then Some(rest[..n]) else None
  }

  /** A line that begins with the tag, a non-empty whitespace-free name and
      " ->" names that experiment. */
  lemma MatchExperimentOf(line: string, name: string)
    requires |name| > 0 && NoSpace(name) && StartsWith(line, ExperimentTag + name + ArrowTag)
    ensures MatchExperiment(line) == Some(name)
  {
    var p := ExperimentTag + name + ArrowTag;
    var rest := line[|ExperimentTag|..];
    var t := |ExperimentTag|;
    assert line[..|p|] == p;
    assert line[..t] == ExperimentTag by { assert p[..t] == ExperimentTag; }
    assert forall j :: 0 <= j < |name| + |ArrowTag| ==> rest[j] == p[t + j];
    assert rest[..|name|] == name by {
      assert forall j :: 0 <= j < |name| ==> p[t + j] == name[j];
    }
    assert rest[|name|..][..|ArrowTag|] == ArrowTag by {
      assert forall j :: 0 <= j < |ArrowTag| ==> p[t + |name| + j] == ArrowTag[j];
    }
    assert rest[|name|] == ' ';
    NonSpaceRunAt(rest, |name|);
  }

  /** Conversely, a named line has exactly that shape. */
  lemma MatchExperimentShape(line: string, name: string)
    requires MatchExperiment(line) == Some(name)
    ensures |name| > 0 && NoSpace(name) && StartsWith(line, ExperimentTag + name + ArrowTag)
  {
    var rest := line[|ExperimentTag|..];
    var n := NonSpaceRun(rest);
    assert line == ExperimentTag + rest;
    assert rest[..n] + rest[n..][..|ArrowTag|] == rest[..n + |ArrowTag|];
    assert line[..|ExperimentTag + name + ArrowTag|] == ExperimentTag + rest[..n + |ArrowTag|];
  }

  /** A line names experiment `name` exactly when it begins with the tag,
      that non-empty, whitespace-free name, and " ->". */
  lemma MatchExperimentIff(line: string, name: string)
    ensures MatchExperiment(line) == Some(name) <==>
      |name| > 0 && NoSpace(name) && StartsWith(line, ExperimentTag + name + ArrowTag)
  {
    if MatchExperiment(line) == Some(name) {
      MatchExperimentShape(line, name);
    }
    if |name| > 0 && NoSpace(name) && StartsWith(line, ExperimentTag + name + ArrowTag) {
      MatchExperimentOf(line, name);
    }
  }

  // ---------------------------------------------------------------------
  // re.match(".*worker ([\d\.]+).*", line) and ".*latency ([\d\.]+).*"

  /** The marker occurs at p, a digit or point follows it, and `.*` (which
      does not cross a newline) can reach p. */
  predicate MarkedAt(line: string, marker: string, p: nat) {
    && OccursAt(line, marker, p)
    && p + |marker| < |line|
    && IsRateChar(line[p + |marker|])
    && '\n' !in line[..p]
  }

  /** The greedy `.*` settles on the last marked position below k. */
  function LastMarked(line: string, marker: string, k: nat): (r: Option<nat>)
    requires k <= |line|
    ensures r.Some? ==> r.value < k && MarkedAt(line, marker, r.value)
    ensures r.Some? ==> forall q: nat :: r.value < q < k ==> !MarkedAt(line, marker, q)
    ensures r.None? ==> forall q: nat :: q < k ==> !MarkedAt(line, marker, q)
    decreases k
  {
    if k == 0 then None
    else if MarkedAt(line, marker, k - 1) then Some(k - 1)
    else LastMarked(line, marker, k - 1)
  }

  /** Length of the longest prefix of s made of digits and points. */
  function RateRun(s: string): (n: nat)
    ensures n <= |s|
    ensures forall j :: 0 <= j < n ==> IsRateChar(s[j])
    ensures n < |s| ==> !IsRateChar(s[n])
  {
    if s == [] || !IsRateChar(s[0]) then 0 else 1 + RateRun(s[1..])
  }

  /** The group `([\d\.]+)` after the marker: the longest run of digits and
      points at the last marked position. */
  function MatchMarker(line: string, marker: string): Option<string> {
    match LastMarked(line, marker, |line|)
    case None => None
    case Some(p) =>
      var rest := line[p + |marker|..];
      Some(rest[..RateRun(rest)])
  }

  const WorkerTag := "worker "
  const LatencyTag := "latency "

  /** When p is the only marked position, the group is the run after it. */
  lemma MatchMarkerAt(line: string, marker: string, p: nat, group: string)
    requires MarkedAt(line, marker, p)
    requires forall q: nat :: p < q < |line| ==> !MarkedAt(line, marker, q)
    requires StartsWith(line[p + |marker|..], group)
    requires forall j :: 0 <= j < |group| ==> IsRateChar(group[j])
    requires p + |marker| + |group| == |line| || !IsRateChar(line[p + |marker| + |group|])
    ensures MatchMarker(line, marker) == Some(group)
  {
    var rest := line[p + |marker|..];
    var r := LastMarked(line, marker, |line|);
    assert r == Some(p);
    var n := RateRun(rest);
    assert rest[..|group|] == group;
    assert n == |group|;
  }

  // ---------------------------------------------------------------------
  // The classification of one line (lines 30-50)

  /** What the classifier reads from one line; the latency is looked for
      on `done` lines only. */
  datatype LineClass =
    | Unrelated
    | ExperimentLevel(name: string, exited: bool)
    | WorkerLevel(name: string, worker: string, starting: bool, done: bool, latency: Option<string>)

  function Classify(line: string): LineClass {
    match MatchExperiment(line)
    case None => Unrelated
    case Some(name) =>
      match MatchMarker(line, WorkerTag)
      case Some(w) =>
        var done := Contains(line, "done");
        WorkerLevel(name, w, Contains(line, "starting"), done, if done then MatchMarker(line, LatencyTag) else None)
      case None => ExperimentLevel(name, Contains(line, "exited"))
  }

  lemma ClassifyUnrelated(line: string)
    ensures Classify(line).Unrelated? <==> MatchExperiment(line).None?
    ensures !Classify(line).Unrelated? ==> Classify(line).name == MatchExperiment(line).value
  {
  }

  // ---------------------------------------------------------------------
  // The tally of one refresh

  datatype Tally = Tally(
    experiments: set<string>,
    completedExperiments: set<string>,
    peakLatencies: map<string, nat>,
    workers: map<string, set<string>>,
    completedWorkers: map<string, set<string>>)

  /** The state each refresh starts from (lines 21-27). */
  const Empty := Tally({}, {}, map[], map[], map[])

  /** `defaultdict(set)[key]`. */
  function SetOf(m: map<string, set<string>>, key: string): set<string> {
    if key in m then m[key] else {}
  }

  /** `defaultdict(lambda: 0)[key]`. */
  function PeakOf(m: map<string, nat>, key: string): nat {
    if key in m then m[key] else 0
  }

  function Max(a: nat, b: nat): nat { if a < b then b else a }

  /** The latency a `done` worker line reports, when the script can read
      one. */
  function DoneLatency(c: LineClass): Option<nat> {
    if c.WorkerLevel? && c.done && c.latency.Some? then ParseDecimal(c.latency.value) else None
  }

  /** One line's effect; None where the script raises: a `done` worker line
      whose latency regex does not match (the group of a None match) or
      whose latency float() rejects. */
  function Step(t: Tally, c: LineClass): Option<Tally> {
    match c
    case Unrelated => Some(t)
    case ExperimentLevel(name, exited) =>
      Some(t.(experiments := t.experiments + {name},
              completedExperiments := if exited then t.completedExperiments + {name} else t.completedExperiments))
    case WorkerLevel(name, w, starting, done, latency) =>
      var t1 := t.(experiments := t.experiments + {name});
      var t2 := if starting then t1.(workers := t1.workers[name := SetOf(t1.workers, name) + {w}]) else t1;
      if !done then Some(t2)
      else if DoneLatency(c).None? then None
      else
        Some(t2.(completedWorkers := t2.completedWorkers[name := SetOf(t2.completedWorkers, name) + {w}],
                 peakLatencies := t2.peakLatencies[name := Max(PeakOf(t2.peakLatencies, name), DoneLatency(c).value)]))
  }

  /** The fold of the steps over a sequence of classified lines. */
  function TallyClasses(cs: seq<LineClass>): Option<Tally> {
    if cs == [] then Some(Empty)
    else match TallyClasses(cs[..|cs| - 1])
      case None => None
      case Some(t) => Step(t, cs[|cs| - 1])
  }

  /** Each line's class, in order. */
  function Classes(lines: seq<string>): (cs: seq<LineClass>)
    ensures |cs| == |lines| && forall i :: 0 <= i < |lines| ==> cs[i] == Classify(lines[i])
  {
    seq(|lines|, i requires 0 <= i < |lines| => Classify(lines[i]))
  }

  /** What one refresh shows depends on nothing but the file's contents. */
  function TallyOf(contents: string): Option<Tally> {
    TallyClasses(Classes(ReadLines(contents)))
  }

  /** One refresh: reread the whole file and rebuild the tally. */
  method Refresh(contents: string) returns (r: Option<Tally>)
    ensures r == TallyOf(contents)
  {
    var lines := ReadLines(contents);
    ghost var cs := Classes(lines);
    var experiments: set<string> := {};
    var completedExperiments: set<string> := {};
    var peakLatencies: map<string, nat> := map[];
    var workers: map<string, set<string>> := map[];
    var completedWorkers: map<string, set<string>> := map[];
    for i := 0 to |lines|
      invariant TallyClasses(cs[..i]) == Some(Tally(experiments, completedExperiments, peakLatencies, workers, completedWorkers))
    {
      assert cs[..i + 1][..i] == cs[..i];
      var line := lines[i];
      var experiment := MatchExperiment(line);
      if experiment.Some? {
        var name := experiment.value;
        experiments := experiments + {name};
        var worker := MatchMarker(line, WorkerTag);
        if worker.Some? {
          if Contains(line, "starting") {
            workers := workers[name := SetOf(workers, name) + {worker.value}];
          }
          if Contains(line, "done") {
            completedWorkers := completedWorkers[name := SetOf(completedWorkers, name) + {worker.value}];
            var latency := MatchMarker(line, LatencyTag);
            if latency.None? {
              CrashIsFinal(cs, i + 1);
              return None;
            }
            var value := ParseDecimal(latency.value);
            if value.None? {
              CrashIsFinal(cs, i + 1);
              return None;
            }
            peakLatencies := peakLatencies[name := Max(PeakOf(peakLatencies, name), value.value)];
          }
        } else if Contains(line, "exited") {
          completedExperiments := completedExperiments + {name};
        }
      }
    }
    assert cs[..|lines|] == cs;
    r := Some(Tally(experiments, completedExperiments, peakLatencies, workers, completedWorkers));
  }

  // ---------------------------------------------------------------------
  // Properties of the tally

  /** A line without the experiment prefix changes nothing. */
  lemma UnrelatedLineChangesNothing(cs: seq<LineClass>, line: string)
    requires MatchExperiment(line).None?
    ensures TallyClasses(cs + [Classify(line)]) == TallyClasses(cs)
  {
    assert (cs + [Classify(line)])[..|cs|] == cs;
  }

  /** Processing a line twice in a row is the same as processing it once,
      so repeated log lines do not change any count. */
  lemma StepIdempotent(t: Tally, c: LineClass)
    requires Step(t, c).Some?
    ensures Step(Step(t, c).value, c) == Step(t, c)
  {
    match c
    case Unrelated =>
    case ExperimentLevel(name, exited) =>
      var t' := Step(t, c).value;
      assert t'.experiments + {name} == t'.experiments;
      assert exited ==> t'.completedExperiments + {name} == t'.completedExperiments;
    case WorkerLevel(name, w, starting, done, latency) =>
      var t' := Step(t, c).value;
      assert t'.experiments + {name} == t'.experiments;
      if starting {
        assert SetOf(t'.workers, name) + {w} == SetOf(t'.workers, name);
        assert t'.workers[name := SetOf(t'.workers, name)] == t'.workers;
      }
      if done {
        assert SetOf(t'.completedWorkers, name) + {w} == SetOf(t'.completedWorkers, name);
        assert t'.completedWorkers[name := SetOf(t'.completedWorkers, name)] == t'.completedWorkers;
        assert t'.peakLatencies[name := PeakOf(t'.peakLatencies, name)] == t'.peakLatencies;
      }
  }

  lemma RepeatedLine(cs: seq<LineClass>, c: LineClass)
    ensures TallyClasses(cs + [c, c]) == TallyClasses(cs + [c])
  {
    assert (cs + [c, c])[..|cs| + 1] == cs + [c];
    assert (cs + [c])[..|cs|] == cs;
    if TallyClasses(cs + [c]).Some? {
      StepIdempotent(TallyClasses(cs).value, c);
    }
  }

  /** Once a line makes the script raise, no later line brings the tally back. */
  lemma {:induction false} CrashIsFinal(cs: seq<LineClass>, k: nat)
    requires k <= |cs| && TallyClasses(cs[..k]).None?
    ensures TallyClasses(cs).None?
    decreases |cs| - k
  {
    if k < |cs| {
      assert cs[..k + 1][..k] == cs[..k];
      CrashIsFinal(cs, k + 1);
    } else {
      assert cs[..k] == cs;
    }
  }

  /** A line never shrinks a set nor lowers a peak, and only a
      non-worker line containing "exited" marks an experiment completed. */
  lemma StepGrows(t: Tally, c: LineClass)
    requires Step(t, c).Some?
    ensures var t' := Step(t, c).value;
      && t.experiments <= t'.experiments
      && t.completedExperiments <= t'.completedExperiments
      && (t'.completedExperiments != t.completedExperiments ==> c.ExperimentLevel? && c.exited)
      && (forall n :: SetOf(t.workers, n) <= SetOf(t'.workers, n))
      && (forall n :: SetOf(t.completedWorkers, n) <= SetOf(t'.completedWorkers, n))
      && (forall n :: PeakOf(t.peakLatencies, n) <= PeakOf(t'.peakLatencies, n))
  {
  }

  /** The peak of an experiment never decreases as lines are processed. */
  lemma {:induction false} PeakNeverDecreases(cs: seq<LineClass>, k: nat, name: string)
    requires k <= |cs| && TallyClasses(cs).Some?
    ensures TallyClasses(cs[..k]).Some?
    ensures PeakOf(TallyClasses(cs[..k]).value.peakLatencies, name) <= PeakOf(TallyClasses(cs).value.peakLatencies, name)
    decreases |cs| - k
  {
    if k == |cs| {
      assert cs[..k] == cs;
    } else {
      PeakNeverDecreases(cs, k + 1, name);
      assert cs[..k + 1][..k] == cs[..k];
      StepGrows(TallyClasses(cs[..k]).value, cs[k]);
    }
  }

  /** Which line class puts a worker into a set. */
  predicate StartsWorker(c: LineClass, name: string, w: string) {
    c.WorkerLevel? && c.name == name && c.worker == w && c.starting
  }

  predicate CompletesWorker(c: LineClass, name: string, w: string) {
    c.WorkerLevel? && c.name == name && c.worker == w && c.done
  }

  predicate NamesExperiment(c: LineClass, name: string) {
    !c.Unrelated? && c.name == name
  }

  predicate ReportsExit(c: LineClass, name: string) {
    c.ExperimentLevel? && c.name == name && c.exited
  }

  /** What one line adds to each set. */
  lemma StepMembers(t: Tally, c: LineClass)
    requires Step(t, c).Some?
    ensures var t' := Step(t, c).value;
      && (forall n :: n in t'.experiments <==> n in t.experiments || NamesExperiment(c, n))
      && (forall n :: n in t'.completedExperiments <==> n in t.completedExperiments || ReportsExit(c, n))
      && (forall n, w :: w in SetOf(t'.workers, n) <==> w in SetOf(t.workers, n) || StartsWorker(c, n, w))
      && (forall n, w :: w in SetOf(t'.completedWorkers, n) <==>
            w in SetOf(t.completedWorkers, n) || CompletesWorker(c, n, w))
  {
  }

  /** An experiment is listed exactly when some line names it. */
  lemma {:induction false} ExperimentsListed(cs: seq<LineClass>, n: string)
    requires TallyClasses(cs).Some?
    ensures n in TallyClasses(cs).value.experiments <==> exists i :: 0 <= i < |cs| && NamesExperiment(cs[i], n)
    decreases |cs|
  {
    if cs != [] {
      var front := cs[..|cs| - 1];
      ExperimentsListed(front, n);
      StepMembers(TallyClasses(front).value, cs[|cs| - 1]);
      if exists i :: 0 <= i < |cs| && NamesExperiment(cs[i], n) {
        var i :| 0 <= i < |cs| && NamesExperiment(cs[i], n);
        if i < |front| { assert NamesExperiment(front[i], n); }
      }
    }
  }

  /** An experiment is completed exactly when some non-worker line of it says "exited". */
  lemma {:induction false} ExperimentsCompleted(cs: seq<LineClass>, n: string)
    requires TallyClasses(cs).Some?
    ensures n in TallyClasses(cs).value.completedExperiments <==> exists i :: 0 <= i < |cs| && ReportsExit(cs[i], n)
    decreases |cs|
  {
    if cs != [] {
      var front := cs[..|cs| - 1];
      ExperimentsCompleted(front, n);
      StepMembers(TallyClasses(front).value, cs[|cs| - 1]);
      if exists i :: 0 <= i < |cs| && ReportsExit(cs[i], n) {
        var i :| 0 <= i < |cs| && ReportsExit(cs[i], n);
        if i < |front| { assert ReportsExit(front[i], n); }
      }
    }
  }

  /** A worker of an experiment is started exactly when one of its worker lines says "starting". */
  lemma {:induction false} WorkersStarted(cs: seq<LineClass>, n: string, w: string)
    requires TallyClasses(cs).Some?
    ensures w in SetOf(TallyClasses(cs).value.workers, n) <==> exists i :: 0 <= i < |cs| && StartsWorker(cs[i], n, w)
    decreases |cs|
  {
    if cs != [] {
      var front := cs[..|cs| - 1];
      WorkersStarted(front, n, w);
      StepMembers(TallyClasses(front).value, cs[|cs| - 1]);
      if exists i :: 0 <= i < |cs| && StartsWorker(cs[i], n, w) {
        var i :| 0 <= i < |cs| && StartsWorker(cs[i], n, w);
        if i < |front| { assert StartsWorker(front[i], n, w); }
      }
    }
  }

  /** A worker of an experiment is completed exactly when one of its worker lines says "done". */
  lemma {:induction false} WorkersCompleted(cs: seq<LineClass>, n: string, w: string)
    requires TallyClasses(cs).Some?
    ensures w in SetOf(TallyClasses(cs).value.completedWorkers, n) <==> exists i :: 0 <= i < |cs| && CompletesWorker(cs[i], n, w)
    decreases |cs|
  {
    if cs != [] {
      var front := cs[..|cs| - 1];
      WorkersCompleted(front, n, w);
      StepMembers(TallyClasses(front).value, cs[|cs| - 1]);
      if exists i :: 0 <= i < |cs| && CompletesWorker(cs[i], n, w) {
        var i :| 0 <= i < |cs| && CompletesWorker(cs[i], n, w);
        if i < |front| { assert CompletesWorker(front[i], n, w); }
      }
    }
  }

  /** What one line does to a peak. */
  lemma StepPeak(t: Tally, c: LineClass, name: string)
    requires Step(t, c).Some?
    ensures PeakOf(Step(t, c).value.peakLatencies, name)
         == if NamesExperiment(c, name) && DoneLatency(c).Some?
            then Max(PeakOf(t.peakLatencies, name), DoneLatency(c).value)
            else PeakOf(t.peakLatencies, name)
  {
  }

  /** The peak of an experiment is at least every latency its `done` lines
      report. */
  lemma {:induction false} TallyPeakBound(cs: seq<LineClass>, name: string)
    requires TallyClasses(cs).Some?
    ensures forall i :: (0 <= i < |cs| && NamesExperiment(cs[i], name) && DoneLatency(cs[i]).Some?)
                        ==> DoneLatency(cs[i]).value <= PeakOf(TallyClasses(cs).value.peakLatencies, name)
    decreases |cs|
  {
    if cs != [] {
      var front := cs[..|cs| - 1];
      TallyPeakBound(front, name);
      StepPeak(TallyClasses(front).value, cs[|cs| - 1], name);
      assert forall i :: 0 <= i < |front| ==> cs[i] == front[i];
    }
  }

  /** A non-zero peak is the latency one of the experiment's `done` lines
      reports; with no such line the peak is 0. */
  lemma {:induction false} TallyPeakAttained(cs: seq<LineClass>, name: string)
    requires TallyClasses(cs).Some?
    ensures var p := PeakOf(TallyClasses(cs).value.peakLatencies, name);
      p == 0 || exists i :: 0 <= i < |cs| && NamesExperiment(cs[i], name) && DoneLatency(cs[i]) == Some(p)
    decreases |cs|
  {
    if cs != [] {
      var front := cs[..|cs| - 1];
      var last := cs[|cs| - 1];
      TallyPeakAttained(front, name);
      StepPeak(TallyClasses(front).value, last, name);
      var p0 := PeakOf(TallyClasses(front).value.peakLatencies, name);
      var p := PeakOf(TallyClasses(cs).value.peakLatencies, name);
      if p != p0 {
        assert NamesExperiment(cs[|cs| - 1], name) && DoneLatency(cs[|cs| - 1]) == Some(p);
      } else if p != 0 {
        var i :| 0 <= i < |front| && NamesExperiment(front[i], name) && DoneLatency(front[i]) == Some(p);
        assert cs[i] == front[i];
      }
    }
  }
}
