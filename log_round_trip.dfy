/** The progress log as both scripts see it: the lines gem5/run_script.py
    writes (through `log` and `worker_log`) are read back by the classifier
    of gem5/visualizer.py as the experiment, the worker and the latency they
    were written for. */
module LogRoundTrip {
  import opened Text
  import opened RunScript
  import opened Visualizer

  // ---------------------------------------------------------------------
  // Character facts

  /** w cannot occur in s when its k-th character is missing from s[k..]. */
  lemma NotContainsCharAt(s: string, w: string, k: nat)
    requires k < |w| && k <= |s| && w[k] !in s[k..]
    ensures !Contains(s, w)
  {
    forall i: nat | i <= |s| ensures !OccursAt(s, w, i) {
      if i + |w| <= |s| {
        assert s[i..i + |w|][k] == s[k..][i];
      }
    }
  }

  lemma NoMarkerNoMatch(line: string, marker: string)
    requires !Contains(line, marker)
    ensures MatchMarker(line, marker) == None
  {
  }

  /** A lower-case letter outside the name's fixed parts, or a newline, is
      not in the name of an experiment whose benchmark has no whitespace. */
  lemma NameLacks(e: Experiment, c: char)
    requires (IsLower(c) && c !in NamePrefix && c !in BenchmarkTag && c !in VcTag) || c == '\n'
    requires NoSpace(e.software.benchmark)
    ensures c !in Name(e)
  {
    UpperShape(e.software.benchmark);
    IntToStringChars(e.network.numCores);
    IntToStringChars(e.network.virtualChannels);
    NameNoSpace(e);
    var n := Name(e);
    forall i | 0 <= i < |n| ensures n[i] != c {
      if c == '\n' {
        assert !IsSpace(n[i]);
      }
    }
  }

  /** The facts about a name the round trips rely on. */
  lemma NameFacts(e: Experiment)
    requires NoSpace(e.software.benchmark)
    ensures IsName(Name(e))
    ensures 'd' !in Name(e) && 'g' !in Name(e) && 'w' !in Name(e) && 'x' !in Name(e)
  {
    NameNoSpace(e);
    NameLacksLetters(e, 'd', 'g');
    NameLacksLetters(e, 'w', 'x');
  }

  lemma NameLacksLetters(e: Experiment, a: char, b: char)
    requires NoSpace(e.software.benchmark)
    requires IsLower(a) && a !in NamePrefix && a !in BenchmarkTag && a !in VcTag
    requires IsLower(b) && b !in NamePrefix && b !in BenchmarkTag && b !in VcTag
    ensures a !in Name(e) && b !in Name(e)
  {
    NameLacks(e, a);
    NameLacks(e, b);
  }

  lemma RateHasNoLetter(h: Hundredths, c: char)
    requires !IsDigit(c) && c != '.'
    ensures c !in FormatHundredths(h)
  {
    FormatHundredthsChars(h);
  }

  lemma LatencyHasNoLetter(n: nat, c: char)
    requires !IsDigit(c) && c != '.'
    ensures c !in FormatLatency(n)
  {
    var d := NatToString(n);
    assert forall i :: 0 <= i < |d| ==> IsDigit(d[i]);
  }

  lemma ContainsInside(x: string, w: string, y: string)
    ensures Contains(x + w + y, w)
  {
    ContainsItself(w);
    ContainsLeft(w, y, w);
    ContainsRight(x, w + y, w);
    assert x + w + y == x + (w + y);
  }

  // ---------------------------------------------------------------------
  // The rightmost marker

  /** A marker followed by a run of digits and points is the match when the
      line has no newline before it and the marker's k-th character does
      not come back after it. */
  lemma MarkerMatch(pre: string, marker: string, k: nat, group: string, rest: string)
    requires k < |marker| && marker[k] !in marker[k + 1..]
    requires '\n' !in pre
    requires |group| > 0 && forall j :: 0 <= j < |group| ==> IsRateChar(group[j])
    requires marker[k] !in group && marker[k] !in rest
    requires |rest| > 0 && !IsRateChar(rest[0])
    ensures MatchMarker(pre + marker + group + rest, marker) == Some(group)
  {
    var line := pre + marker + group + rest;
    var p := |pre|;
    assert line[p..p + |marker|] == marker;
    assert line[..p] == pre;
    assert line[p + |marker|] == group[0];
    assert MarkedAt(line, marker, p);
    var after := line[p + k + 1..];
    assert after == marker[k + 1..] + group + rest;
    forall q: nat | p < q < |line| ensures !MarkedAt(line, marker, q) {
      if q + |marker| <= |line| {
        assert line[q..q + |marker|][k] == after[q - p - 1];
      }
    }
    assert line[p + |marker|..] == group + rest;
    assert line[p + |marker| + |group|] == rest[0];
    MatchMarkerAt(line, marker, p, group);
  }

  // ---------------------------------------------------------------------
  // The lines of one worker and of one experiment

  /** The classification of a line, assembled from its parts. */
  lemma ClassifyWorkerLine(line: string, name: string, w: string, latency: Option<string>)
    requires MatchExperiment(line) == Some(name) && MatchMarker(line, WorkerTag) == Some(w)
    requires latency == if Contains(line, "done") then MatchMarker(line, LatencyTag) else None
    ensures Classify(line) == WorkerLevel(name, w, Contains(line, "starting"), Contains(line, "done"), latency)
  {
  }

  lemma ClassifyExperimentLine(line: string, name: string)
    requires MatchExperiment(line) == Some(name) && MatchMarker(line, WorkerTag) == None
    ensures Classify(line) == ExperimentLevel(name, Contains(line, "exited"))
  {
  }

  // ---------------------------------------------------------------------
  // The lines of one worker and of one experiment, over any name and rate

  /** A line `log` writes, for a given name. */
  function ExperimentLine(name: string, message: string): string {
    FileLine(LogPrefix + name + Arrow + message)
  }

  /** A line `worker_log` writes, for a given name and rendered rate. */
  function WorkerLine(name: string, rate: string, message: string): string {
    ExperimentLine(name, WorkerTag + rate + Arrow + message)
  }

  predicate IsName(name: string) {
    |name| > 0 && NoSpace(name)
  }

  predicate IsRate(rate: string) {
    |rate| > 0 && forall j :: 0 <= j < |rate| ==> IsRateChar(rate[j])
  }

  lemma RateLacks(rate: string, c: char)
    requires IsRate(rate) && !IsRateChar(c)
    ensures c !in rate
  {
  }

  lemma NameNoNewline(name: string)
    requires IsName(name)
    ensures '\n' !in name
  {
    forall i | 0 <= i < |name| ensures name[i] != '\n' {
      assert !IsSpace(name[i]);
    }
  }

  /** The prefix before every message is read back as the name. */
  lemma ExperimentLineName(name: string, message: string)
    requires IsName(name)
    ensures MatchExperiment(ExperimentLine(name, message)) == Some(name)
  {
    var line := ExperimentLine(name, message);
    var p := ExperimentTag + name + ArrowTag;
    assert line == p + (" " + message + "\n");
    assert line[..|p|] == p;
    MatchExperimentOf(line, name);
  }

  /** The worker tag is read back as the rendered rate. */
  lemma WorkerLineWorker(name: string, rate: string, message: string)
    requires IsName(name) && IsRate(rate) && 'k' !in message
    ensures MatchMarker(WorkerLine(name, rate, message), WorkerTag) == Some(rate)
  {
    var pre := ExperimentTag + name + ArrowTag + " ";
    var rest := Arrow + message + "\n";
    NameNoNewline(name);
    RateLacks(rate, 'k');
    assert WorkerLine(name, rate, message) == pre + WorkerTag + rate + rest;
    MarkerMatch(pre, WorkerTag, 3, rate, rest);
  }

  /** The words a starting line holds and lacks. */
  lemma StartingLineWords(name: string, rate: string)
    requires IsRate(rate) && 'd' !in name
    ensures var line := WorkerLine(name, rate, StartingMessage);
      Contains(line, "starting") && !Contains(line, "done")
  {
    var line := WorkerLine(name, rate, StartingMessage);
    var pre := ExperimentTag + name + ArrowTag + " " + WorkerTag + rate + Arrow;
    assert line == pre + StartingMessage + "\n";
    ContainsInside(pre, StartingMessage, "\n");
    RateLacks(rate, 'd');
    assert 'd' !in line;
    NotContainsFirstChar(line, "done");
  }

  lemma StartingLine(name: string, rate: string)
    requires IsName(name) && IsRate(rate) && 'd' !in name
    ensures Classify(WorkerLine(name, rate, StartingMessage)) == WorkerLevel(name, rate, true, false, None)
  {
    var line := WorkerLine(name, rate, StartingMessage);
    ExperimentLineName(name, WorkerTag + rate + Arrow + StartingMessage);
    WorkerLineWorker(name, rate, StartingMessage);
    StartingLineWords(name, rate);
    ClassifyWorkerLine(line, name, rate, None);
  }

  /** The latency tag of a done line is read back as the rendered latency. */
  lemma DoneLineLatency(name: string, rate: string, latency: string)
    requires IsName(name) && IsRate(rate) && IsRate(latency) && 'l' !in latency
    ensures MatchMarker(WorkerLine(name, rate, "done, with " + LatencyTag + latency), LatencyTag) == Some(latency)
  {
    NameNoNewline(name);
    RateLacks(rate, '\n');
    var pre := ExperimentTag + name + ArrowTag + " " + WorkerTag + rate + Arrow + "done, with ";
    assert WorkerLine(name, rate, "done, with " + LatencyTag + latency) == pre + LatencyTag + latency + "\n";
    MarkerMatch(pre, LatencyTag, 0, latency, "\n");
  }

  /** The words a done line holds and lacks. */
  lemma DoneLineWords(name: string, rate: string, latency: string)
    requires IsRate(rate) && IsRate(latency) && 'g' !in name
    ensures var line := WorkerLine(name, rate, "done, with " + LatencyTag + latency);
      Contains(line, "done") && !Contains(line, "starting")
  {
    var line := WorkerLine(name, rate, "done, with " + LatencyTag + latency);
    var pre := ExperimentTag + name + ArrowTag + " " + WorkerTag + rate + Arrow;
    assert line == pre + "done" + (", with " + LatencyTag + latency + "\n");
    ContainsInside(pre, "done", ", with " + LatencyTag + latency + "\n");
    RateLacks(latency, 'g');
    RateLacks(rate, 'g');
    assert 'g' !in line;
    NotContainsCharAt(line, StartingMessage, 7);
  }

  lemma DoneLine(name: string, rate: string, latency: string)
    requires IsName(name) && IsRate(rate) && IsRate(latency) && 'g' !in name
    ensures Classify(WorkerLine(name, rate, "done, with " + LatencyTag + latency))
         == WorkerLevel(name, rate, false, true, Some(latency))
  {
    var message := "done, with " + LatencyTag + latency;
    var line := WorkerLine(name, rate, message);
    RateLacks(latency, 'k');
    RateLacks(latency, 'l');
    ExperimentLineName(name, WorkerTag + rate + Arrow + message);
    WorkerLineWorker(name, rate, message);
    DoneLineLatency(name, rate, latency);
    DoneLineWords(name, rate, latency);
    ClassifyWorkerLine(line, name, rate, Some(latency));
  }

  lemma ExitedLine(name: string)
    requires IsName(name) && 'w' !in name
    ensures Classify(ExperimentLine(name, ExitedMessage)) == ExperimentLevel(name, true)
  {
    var line := ExperimentLine(name, ExitedMessage);
    ExperimentLineName(name, ExitedMessage);
    assert 'w' !in line;
    NotContainsFirstChar(line, WorkerTag);
    NoMarkerNoMatch(line, WorkerTag);
    var pre := ExperimentTag + name + ArrowTag + " ";
    assert line == pre + ExitedMessage + "\n";
    ContainsInside(pre, ExitedMessage, "\n");
    ClassifyExperimentLine(line, name);
  }

  /** A marker whose first character shows up only where it stands, and is
      followed by no digit or point there, is never matched. */
  lemma MarkerWithoutRate(pre: string, marker: string, rest: string)
    requires |marker| > 0 && marker[0] !in marker[1..]
    requires marker[0] !in pre && marker[0] !in rest
    requires |rest| > 0 && !IsRateChar(rest[0])
    ensures MatchMarker(pre + marker + rest, marker) == None
  {
    var line := pre + marker + rest;
    var after := marker[1..] + rest;
    assert line == pre + [marker[0]] + after;
    forall q: nat | q < |line| ensures !MarkedAt(line, marker, q) {
      if q + |marker| <= |line| {
        assert line[q..q + |marker|][0] == line[q];
        if q < |pre| {
          assert line[q] == pre[q];
        } else if q > |pre| {
          assert line[q] == after[q - |pre| - 1];
        } else {
          assert line[q + |marker|] == rest[0];
        }
      }
    }
  }

  /** w cannot occur in s when its k-th character comes back nowhere after
      index k and s does not start with w. */
  lemma NotContainsPinned(s: string, w: string, k: nat)
    requires k < |w| <= |s| && w[k] !in s[k + 1..] && s[..|w|] != w
    ensures !Contains(s, w)
  {
    forall i: nat | i <= |s| ensures !OccursAt(s, w, i) {
      if 0 < i && i + |w| <= |s| {
        assert s[i..i + |w|][k] == s[k + 1..][i - 1];
      }
    }
  }

  /** No line `log` writes reports an exit unless its message does: the only
      'x' before the message is the one in "Experiment". */
  lemma NoExit(name: string, message: string)
    requires 'x' !in name && 'x' !in message
    ensures !Contains(ExperimentLine(name, message), ExitedMessage)
  {
    var line := ExperimentLine(name, message);
    assert line == "Ex" + ("periment: " + name + ArrowTag + " " + message + "\n");
    assert line[2..] == "periment: " + name + ArrowTag + " " + message + "\n";
    assert line[..6][0] == 'E';
    NotContainsPinned(line, ExitedMessage, 1);
  }

  /** A message without 'w' and 'x' makes an experiment-level line that is
      not an exit. */
  lemma QuietLine(name: string, message: string)
    requires IsName(name) && 'w' !in name && 'x' !in name && 'w' !in message && 'x' !in message
    ensures Classify(ExperimentLine(name, message)) == ExperimentLevel(name, false)
  {
    var line := ExperimentLine(name, message);
    ExperimentLineName(name, message);
    assert 'w' !in line;
    NotContainsFirstChar(line, WorkerTag);
    NoMarkerNoMatch(line, WorkerTag);
    NoExit(name, message);
    ClassifyExperimentLine(line, name);
  }

  /** The worker tag of a termination line is followed by "number", not by
      a rate. */
  lemma TerminationNoWorker(name: string, head: string, digits: string)
    requires IsName(name) && 'w' !in name && 'w' !in head && 'w' !in digits
    ensures MatchMarker(ExperimentLine(name, head + WorkerTag + "number " + digits + "."), WorkerTag) == None
  {
    var pre := LogPrefix + name + Arrow + head;
    var rest := "number " + digits + ".\n";
    assert ExperimentLine(name, head + WorkerTag + "number " + digits + ".") == pre + WorkerTag + rest;
    MarkerWithoutRate(pre, WorkerTag, rest);
  }

  /** "terminating worker number %d." and "terminated worker number %d."
      carry the worker tag, but no rate after it: they are experiment-level
      lines, and not exits. */
  lemma TerminationLine(name: string, head: string, digits: string)
    requires IsName(name) && 'w' !in name && 'x' !in name && 'w' !in head && 'x' !in head
    requires 'w' !in digits && 'x' !in digits
    ensures Classify(ExperimentLine(name, head + WorkerTag + "number " + digits + "."))
         == ExperimentLevel(name, false)
  {
    var message := head + WorkerTag + "number " + digits + ".";
    ExperimentLineName(name, message);
    TerminationNoWorker(name, head, digits);
    assert 'x' !in message;
    NoExit(name, message);
    ClassifyExperimentLine(ExperimentLine(name, message), name);
  }

  lemma TerminationMessages(index: nat)
    ensures TerminatingMessage(index) == "terminating " + WorkerTag + "number " + NatToString(index) + "."
    ensures TerminatedMessage(index) == "terminated " + WorkerTag + "number " + NatToString(index) + "."
    ensures 'w' !in NatToString(index) && 'x' !in NatToString(index)
  {
    RateLacks(NatToString(index), 'w');
    RateLacks(NatToString(index), 'x');
  }

  /** Splitting off a prefix that lacks w's first character keeps w out. */
  lemma NotContainsAfterPrefix(x: string, y: string, w: string)
    requires |w| > 0 && w[0] !in x && !Contains(y, w)
    ensures !Contains(x + y, w)
  {
    forall i: nat | i <= |x + y| ensures !OccursAt(x + y, w, i) {
      if i + |w| <= |x + y| {
        assert (x + y)[i..i + |w|][0] == (x + y)[i];
        if i >= |x| {
          assert (x + y)[i..i + |w|] == y[i - |x|..i - |x| + |w|];
          assert !OccursAt(y, w, i - |x|);
        }
      }
    }
  }

  /** The "reached latency limit" line is neither starting nor done, so
      its "latency " (followed by a letter) is never read. */
  lemma LimitLineNotStarting(name: string, rate: string)
    requires IsRate(rate) && 'g' !in name
    ensures !Contains(WorkerLine(name, rate, LimitMessage), "starting")
  {
    var line := WorkerLine(name, rate, LimitMessage);
    RateLacks(rate, 'g');
    assert 'g' !in line;
    NotContainsCharAt(line, StartingMessage, 7);
  }

  lemma LimitLineNotDone(name: string, rate: string)
    requires IsRate(rate) && 'd' !in name
    ensures !Contains(WorkerLine(name, rate, LimitMessage), "done")
  {
    RateLacks(rate, 'd');
    var x := LogPrefix + name + Arrow + WorkerTag + rate + Arrow + "reache";
    var y := "d latency limit\n";
    assert WorkerLine(name, rate, LimitMessage) == x + y;
    assert 'd' !in x by {
      assert x == (LogPrefix + name) + (Arrow + WorkerTag) + rate + (Arrow + "reache");
    }
    assert y[..4] != "done" by { assert y[1] == ' '; }
    NotContainsPinned(y, "done", 0);
    NotContainsAfterPrefix(x, y, "done");
  }

  lemma LimitLine(name: string, rate: string)
    requires IsName(name) && IsRate(rate) && 'd' !in name && 'g' !in name
    ensures Classify(WorkerLine(name, rate, LimitMessage)) == WorkerLevel(name, rate, false, false, None)
  {
    var line := WorkerLine(name, rate, LimitMessage);
    ExperimentLineName(name, WorkerTag + rate + Arrow + LimitMessage);
    WorkerLineWorker(name, rate, LimitMessage);
    LimitLineNotStarting(name, rate);
    LimitLineNotDone(name, rate);
    ClassifyWorkerLine(line, name, rate, None);
  }

  // ---------------------------------------------------------------------
  // The lines the sweep writes

  /** worker_log("starting") is read back as a starting line of that
      worker, under that experiment. */
  lemma StartingLineRoundTrip(e: Experiment, h: Hundredths)
    requires NoSpace(e.software.benchmark)
    ensures Classify(FileLine(LogText(e, WorkerMessage(h, StartingMessage))))
         == WorkerLevel(Name(e), FormatHundredths(h), true, false, None)
  {
    NameFacts(e);
    FormatHundredthsChars(h);
    StartingLine(Name(e), FormatHundredths(h));
  }

  lemma DoneMessageShape(latency: nat)
    ensures DoneMessage(latency) == "done, with " + LatencyTag + FormatLatency(latency)
    ensures IsRate(FormatLatency(latency))
  {
    var d := NatToString(latency);
    assert forall j :: 0 <= j < |d| ==> FormatLatency(latency)[j] == d[j];
  }

  /** worker_log("done, with latency %f") is read back as a done line of
      that worker whose latency is the measured one. */
  lemma DoneLineRoundTrip(e: Experiment, h: Hundredths, latency: nat)
    requires NoSpace(e.software.benchmark)
    ensures var c := Classify(FileLine(LogText(e, WorkerMessage(h, DoneMessage(latency)))));
      && c == WorkerLevel(Name(e), FormatHundredths(h), false, true, Some(FormatLatency(latency)))
      && DoneLatency(c) == Some(latency)
  {
    NameFacts(e);
    FormatHundredthsChars(h);
    DoneMessageShape(latency);
    DoneLine(Name(e), FormatHundredths(h), FormatLatency(latency));
    ParseDecimalOfLatency(latency);
  }

  /** log("exited") is read back as that experiment's exit. */
  lemma ExitedLineRoundTrip(e: Experiment)
    requires NoSpace(e.software.benchmark)
    ensures Classify(FileLine(LogText(e, ExitedMessage))) == ExperimentLevel(Name(e), true)
  {
    NameFacts(e);
    ExitedLine(Name(e));
  }

  /** worker_log("reached latency limit") is read back as a line of that
      worker, neither starting nor done. */
  lemma LimitLineRoundTrip(e: Experiment, h: Hundredths)
    requires NoSpace(e.software.benchmark)
    ensures Classify(FileLine(LogText(e, WorkerMessage(h, LimitMessage))))
         == WorkerLevel(Name(e), FormatHundredths(h), false, false, None)
  {
    NameFacts(e);
    FormatHundredthsChars(h);
    LimitLine(Name(e), FormatHundredths(h));
  }

  lemma QuietMessages(count: nat)
    ensures 'w' !in StragglersMessage(count) && 'x' !in StragglersMessage(count)
    ensures 'w' !in GeneratedMessage(count) && 'x' !in GeneratedMessage(count)
  {
    RateLacks(NatToString(count), 'w');
    RateLacks(NatToString(count), 'x');
  }

  /** log("terminating worker number %d.") is read back as a line of the
      experiment that neither starts a worker nor reports the exit. */
  lemma TerminatingLineRoundTrip(e: Experiment, index: nat)
    requires NoSpace(e.software.benchmark)
    ensures Classify(FileLine(LogText(e, TerminatingMessage(index)))) == ExperimentLevel(Name(e), false)
  {
    NameFacts(e);
    TerminationMessages(index);
    TerminationLine(Name(e), "terminating ", NatToString(index));
  }

  /** log("terminated worker number %d.") is read back as a line of the
      experiment that neither starts a worker nor reports the exit. */
  lemma TerminatedLineRoundTrip(e: Experiment, index: nat)
    requires NoSpace(e.software.benchmark)
    ensures Classify(FileLine(LogText(e, TerminatedMessage(index)))) == ExperimentLevel(Name(e), false)
  {
    NameFacts(e);
    TerminationMessages(index);
    TerminationLine(Name(e), "terminated ", NatToString(index));
  }

  /** log("terminated %d stragglers.") is read back as a line of the experiment that is not
      the exit. */
  lemma StragglersLineRoundTrip(e: Experiment, count: nat)
    requires NoSpace(e.software.benchmark)
    ensures Classify(FileLine(LogText(e, StragglersMessage(count)))) == ExperimentLevel(Name(e), false)
  {
    NameFacts(e);
    QuietMessages(count);
    QuietLine(Name(e), StragglersMessage(count));
  }

  /** log("done. generated %d measurements.") is read back as a line of the experiment that is not
      the exit. */
  lemma GeneratedLineRoundTrip(e: Experiment, count: nat)
    requires NoSpace(e.software.benchmark)
    ensures Classify(FileLine(LogText(e, GeneratedMessage(count)))) == ExperimentLevel(Name(e), false)
  {
    NameFacts(e);
    QuietMessages(count);
    QuietLine(Name(e), GeneratedMessage(count));
  }

  /** The line run() writes before any other is not an experiment line. */
  lemma StartLineUnrelated(e: Experiment)
    ensures Classify(FileLine(StartText(e))) == Unrelated
  {
    var line := FileLine(StartText(e));
    assert line[0] == 'S';
    assert !StartsWith(line, ExperimentTag) by {
      if |ExperimentTag| <= |line| { assert line[..|ExperimentTag|][0] == line[0]; }
    }
  }

  /** Once a worker's starting and done lines are in the log, wherever they
      stand and whatever other lines surround them, a refresh that does not
      raise shows the experiment, shows the worker as started and
      completed, and shows a peak no lower than the worker's latency. */
  lemma WorkerLifecycleShown(e: Experiment, h: Hundredths, latency: nat, contents: string, i: nat, j: nat)
    requires NoSpace(e.software.benchmark) && TallyOf(contents).Some?
    requires i < |ReadLines(contents)| && ReadLines(contents)[i] == FileLine(LogText(e, WorkerMessage(h, StartingMessage)))
    requires j < |ReadLines(contents)| && ReadLines(contents)[j] == FileLine(LogText(e, WorkerMessage(h, DoneMessage(latency))))
    ensures var r := TallyOf(contents).value;
      && Name(e) in r.experiments
      && FormatHundredths(h) in SetOf(r.workers, Name(e))
      && FormatHundredths(h) in SetOf(r.completedWorkers, Name(e))
      && latency <= PeakOf(r.peakLatencies, Name(e))
  {
    var cs := Classes(ReadLines(contents));
    StartingLineRoundTrip(e, h);
    DoneLineRoundTrip(e, h, latency);
    LifecycleTally(cs, i, j, Name(e), FormatHundredths(h), latency);
  }

  /** The tally of any sequence of classes holding a worker's starting class
      at one position and its done class at another. */
  lemma LifecycleTally(cs: seq<LineClass>, i: nat, j: nat, name: string, worker: string, latency: nat)
    requires TallyClasses(cs).Some?
    requires i < |cs| && cs[i] == WorkerLevel(name, worker, true, false, None)
    requires j < |cs| && cs[j] == WorkerLevel(name, worker, false, true, Some(FormatLatency(latency)))
    ensures var r := TallyClasses(cs).value;
      && name in r.experiments
      && worker in SetOf(r.workers, name)
      && worker in SetOf(r.completedWorkers, name)
      && latency <= PeakOf(r.peakLatencies, name)
  {
    ParseDecimalOfLatency(latency);
    assert DoneLatency(cs[j]) == Some(latency);
    assert NamesExperiment(cs[i], name);
    assert StartsWorker(cs[i], name, worker);
    assert CompletesWorker(cs[j], name, worker);
    ExperimentsListed(cs, name);
    WorkersStarted(cs, name, worker);
    WorkersCompleted(cs, name, worker);
    TallyPeakBound(cs, name);
  }
}
