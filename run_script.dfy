/** The value side of gem5/run_script.py: the configuration records an
    experiment is built from, the command-line flags and output directory of
    one simulator run, the experiment's name, the text of its progress-log
    lines, and the dictionaries handed to the JSON report. */
module RunScript {
  import opened Text

  /** A routing algorithm: the simulator's key and a human-readable name. */
  datatype RoutingAlgorithm = RoutingAlgorithm(key: int, name: string)

  datatype NetworkConfiguration = NetworkConfiguration(
    numCores: int,
    numRows: int,
    meshConfig: string,
    spinConfig: string,
    virtualChannels: int,
    routingAlgorithm: RoutingAlgorithm,
    spinFreq: int)

  /** `cycles` is the simulated length; the script passes it as a float and
      renders it with "%d", so only its whole part matters. */
  datatype SoftwareConfiguration = SoftwareConfiguration(benchmark: string, cycles: int)

  /** The latency limit is a whole number here (the script uses 200.0). */
  datatype SimulationConfiguration = SimulationConfiguration(outputDir: string, maxPacketLatency: int)

  datatype Experiment = Experiment(
    network: NetworkConfiguration,
    software: SoftwareConfiguration,
    simulation: SimulationConfiguration)

  /** Injection rates are whole numbers of hundredths (0.02 is 2); packet
      latencies are whole numbers. */
  type Hundredths = nat

  datatype Measurement = Measurement(injectionRate: Hundredths, packetLatency: nat)

  // ---------------------------------------------------------------------
  // Flags of one simulator run (get_flags)

  const FlagCount: nat := 18

  function GetFlags(e: Experiment, injectionRate: Hundredths): (r: seq<string>)
    ensures |r| == FlagCount
    ensures r[FlagCount - 1] == "--injectionrate=" + FormatHundredths(injectionRate)
  {
    var n := e.network;
    [ "--network=garnet2.0",
      "--topology=irregularMesh_XY",
      "--num-cpus=" + IntToString(n.numCores),
      "--num-dirs=" + IntToString(n.numCores),
      "--mesh-rows=" + IntToString(n.numRows),
      "--conf-file=" + n.meshConfig,
      "--router-latency=1",
      "--uTurn-crossbar=1",
      "--vcs-per-vnet=" + IntToString(n.virtualChannels),
      "--routing-algorithm=" + IntToString(n.routingAlgorithm.key),
      "--synthetic=" + e.software.benchmark,
      "--sim-cycles=" + IntToString(e.software.cycles),
      "--spin=1",
      "--spin-freq=" + IntToString(n.spinFreq),
      "--spin-mult=1",
      "--spin-file=" + n.spinConfig,
      "--inj-vnet=0",
      "--injectionrate=" + FormatHundredths(injectionRate) ]
  }

  /** Two runs of one experiment get the same flags except the last, and
      the last tells their rates apart. */
  lemma FlagsDifferOnlyInRate(e: Experiment, g: Hundredths, h: Hundredths)
    ensures GetFlags(e, g)[..FlagCount - 1] == GetFlags(e, h)[..FlagCount - 1]
    ensures g != h ==> GetFlags(e, g)[FlagCount - 1] != GetFlags(e, h)[FlagCount - 1]
  {
    if g != h {
      FormatHundredthsInjective(g, h);
      var p := "--injectionrate=";
      assert (p + FormatHundredths(g))[|p|..] == FormatHundredths(g);
      assert (p + FormatHundredths(h))[|p|..] == FormatHundredths(h);
    }
  }

  // ---------------------------------------------------------------------
  // Output directory of one simulator run (get_output_dir)

  /** posixpath.join of a path and one more component. */
  function JoinTwo(path: string, b: string): string {
    if StartsWith(b, "/") then b
    else if path == [] || path[|path| - 1] == '/' then path + b
    else path + "/" + b
  }

  /** posixpath.join(parts[0], parts[1], ...). */
  function PathJoin(parts: seq<string>): string
    requires |parts| > 0
  {
    if |parts| == 1 then parts[0] else JoinTwo(PathJoin(parts[..|parts| - 1]), parts[|parts| - 1])
  }

  /** The six components that do not depend on the rate. */
  function BaseComponents(e: Experiment): seq<string> {
    [ e.simulation.outputDir,
      IntToString(e.network.numCores),
      e.network.routingAlgorithm.name,
      Upper(e.software.benchmark),
      "freq-" + IntToString(e.network.spinFreq),
      "vc-" + IntToString(e.network.virtualChannels) ]
  }

  /** The seven path components, in the order they are joined. */
  function OutputDirComponents(e: Experiment, injectionRate: Hundredths): (r: seq<string>)
    ensures |r| == 7
    ensures r[0] == e.simulation.outputDir
    ensures r[1] == IntToString(e.network.numCores)
    ensures r[2] == e.network.routingAlgorithm.name
    ensures r[3] == Upper(e.software.benchmark)
    ensures r[4] == "freq-" + IntToString(e.network.spinFreq)
    ensures r[5] == "vc-" + IntToString(e.network.virtualChannels)
    ensures r[6] == "inj-" + FormatHundredths(injectionRate)
  {
    BaseComponents(e) + ["inj-" + FormatHundredths(injectionRate)]
  }

  function GetOutputDir(e: Experiment, injectionRate: Hundredths): string {
    PathJoin(OutputDirComponents(e, injectionRate))
  }

  /** The directory the six rate-independent components lead to, with the
      separator the rate component is joined with. */
  function ExperimentDir(e: Experiment): string {
    var base := PathJoin(BaseComponents(e));
    if base == [] || base[|base| - 1] == '/' then base else base + "/"
  }

  /** The directory of a run is its experiment's directory followed by its
      rate component. */
  lemma OutputDirShape(e: Experiment, h: Hundredths)
    ensures GetOutputDir(e, h) == ExperimentDir(e) + "inj-" + FormatHundredths(h)
  {
    var ps := OutputDirComponents(e, h);
    assert ps[..6] == BaseComponents(e);
    assert !StartsWith(ps[6], "/") by { assert ps[6][0] == 'i'; }
  }

  /** Distinct dispatched rates of one experiment get distinct directories. */
  lemma OutputDirDistinct(e: Experiment, g: Hundredths, h: Hundredths)
    requires g != h
    ensures GetOutputDir(e, g) != GetOutputDir(e, h)
  {
    OutputDirShape(e, g);
    OutputDirShape(e, h);
    FormatHundredthsInjective(g, h);
    var k := |ExperimentDir(e) + "inj-"|;
    assert GetOutputDir(e, g)[k..] == FormatHundredths(g);
    assert GetOutputDir(e, h)[k..] == FormatHundredths(h);
  }

  // ---------------------------------------------------------------------
  // Name and progress-log lines (name, log, worker_log)

  const NamePrefix := "cores-"
  const BenchmarkTag := "_benchmark-"
  const VcTag := "_vc-"

  function Name(e: Experiment): string {
    NamePrefix + IntToString(e.network.numCores) + BenchmarkTag + Upper(e.software.benchmark)
      + VcTag + IntToString(e.network.virtualChannels)
  }

  /** A name holds whitespace only when the benchmark does. */
  lemma NameNoSpace(e: Experiment)
    requires NoSpace(e.software.benchmark)
    ensures NoSpace(Name(e)) && |Name(e)| > 0
  {
    UpperShape(e.software.benchmark);
    IntToStringChars(e.network.numCores);
    IntToStringChars(e.network.virtualChannels);
    var cores, vc := IntToString(e.network.numCores), IntToString(e.network.virtualChannels);
    assert NoSpace(cores) && NoSpace(vc);
    NoSpaceConcat(NamePrefix, cores);
    NoSpaceConcat(NamePrefix + cores, BenchmarkTag);
    NoSpaceConcat(NamePrefix + cores + BenchmarkTag, Upper(e.software.benchmark));
    NoSpaceConcat(NamePrefix + cores + BenchmarkTag + Upper(e.software.benchmark), VcTag);
    NoSpaceConcat(NamePrefix + cores + BenchmarkTag + Upper(e.software.benchmark) + VcTag, vc);
  }

  const LogPrefix := "Experiment: "
  const Arrow := " -> "

  /** The text Experiment.log(message) hands to the shared log. */
  function LogText(e: Experiment, message: string): string {
    LogPrefix + Name(e) + Arrow + message
  }

  /** The text worker_log(message) hands to Experiment.log, for the worker
      of the given rate. */
  function WorkerMessage(injectionRate: Hundredths, message: string): string {
    "worker " + FormatHundredths(injectionRate) + Arrow + message
  }

  /** The line the shared log file receives for a text. */
  function FileLine(text: string): string {
    text + "\n"
  }

  /** The messages the sweep logs. */
  const StartingMessage := "starting"
  function DoneMessage(latency: nat): string { "done, with latency " + FormatLatency(latency) }
  const LimitMessage := "reached latency limit"
  const ExitedMessage := "exited"
  function TerminatingMessage(index: nat): string { "terminating worker number " + NatToString(index) + "." }
  function TerminatedMessage(index: nat): string { "terminated worker number " + NatToString(index) + "." }
  function StragglersMessage(count: nat): string { "terminated " + NatToString(count) + " stragglers." }
  function GeneratedMessage(count: nat): string { "done. generated " + NatToString(count) + " measurements." }

  /** The one line run() writes straight to the shared log, bypassing
      Experiment.log. */
  function StartText(e: Experiment): string { "Starting experiment: " + Name(e) }

  // ---------------------------------------------------------------------
  // Dictionaries of the JSON report (Measurement.toDict, Experiment.toDict)

  datatype Value = Number(n: int) | Str(s: string)

  function MeasurementToDict(m: Measurement): (d: map<string, Value>)
    ensures d.Keys == {"injection_rate", "packet_latency"}
  {
    map["injection_rate" := Number(m.injectionRate), "packet_latency" := Number(m.packetLatency)]
  }

  /** Reads a measurement back from its dictionary. */
  function MeasurementFromDict(d: map<string, Value>): Option<Measurement> {
    if "injection_rate" in d && "packet_latency" in d
       && d["injection_rate"].Number? && d["injection_rate"].n >= 0
       && d["packet_latency"].Number? && d["packet_latency"].n >= 0
    then Some(Measurement(d["injection_rate"].n, d["packet_latency"].n))
    else None
  }

  lemma MeasurementDictRoundTrip(m: Measurement)
    ensures MeasurementFromDict(MeasurementToDict(m)) == Some(m)
  {
  }

  /** The attributes an Experiment instance has: the three its constructor
      assigns. */
  const ExperimentAttributes: set<string> := {"network_config", "software_config", "simulation_config"}

  datatype AttributeError = AttributeError(attribute: string)

  datatype DictResult = Dict(d: map<string, Value>) | Raised(error: AttributeError)

  /** Experiment.toDict as written: it reads `self.benchmark`, which no
      Experiment has, so every call raises before building the dictionary. */
  function ExperimentToDictAsWritten(e: Experiment): (r: DictResult)
    ensures r == Raised(AttributeError("benchmark"))
  {
    // The first branch is the dictionary the method would build had the
    // attribute existed, less the entry it has no value for; it is never
    // taken.
    if "benchmark" in ExperimentAttributes
    then Dict(map["cores" := Number(e.network.numCores), "vc" := Number(e.network.virtualChannels)])
    else Raised(AttributeError("benchmark"))
  }

  /** Experiment.toDict with the benchmark taken from the software
      configuration, as `name` and `get_output_dir` take it. */
  function ExperimentToDict(e: Experiment): (d: map<string, Value>)
    ensures d.Keys == {"cores", "benchmark", "vc"}
    ensures d["cores"].Number? && d["benchmark"].Str? && d["vc"].Number?
  {
    map["cores" := Number(e.network.numCores),
        "benchmark" := Str(Upper(e.software.benchmark)),
        "vc" := Number(e.network.virtualChannels)]
  }

  /** The record describes the experiment the way its name does: rendering
      its three entries in the name's format gives back the name. */
  lemma ExperimentDictAgreesWithName(e: Experiment)
    ensures var d := ExperimentToDict(e);
      Name(e) == NamePrefix + IntToString(d["cores"].n) + BenchmarkTag + d["benchmark"].s
                 + VcTag + IntToString(d["vc"].n)
  {
  }
}
