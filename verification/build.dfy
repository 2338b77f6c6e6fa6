/**
 * The `build` entry point of the pear integration, as the plan of steps it
 * carries out: the environment it reads is a Config value, and every
 * external command it runs becomes a Shell step of the plan, in order.
 */
module Builder {
  import opened Base
  import opened Formatting
  import opened EdgeCases

  /** What `build` reads from its environment and the file system. */
  datatype Config = Config(
    out: Option<string>,             // the OUT variable
    fuzzTarget: Option<string>,      // the FUZZ_TARGET variable
    benchmark: Option<string>,       // the `benchmark` variable
    benchmarkUpper: Option<string>,  // the BENCHMARK variable
    targetIsFile: bool)              // whether OUT/FUZZ_TARGET is a regular file

  /** One effect of the build, in the order it happens. */
  datatype Step =
    | SetEnv(name: string, value: string)          // os.environ[name] = value
    | Shell(command: string)                       // os.system(command)
    | RunHandler(handler: Handler, asmPath: string) // the edge case's handler on the assembly file

  /** The exceptions `build` lets escape. */
  datatype BuildError =
    | OutUnset                     // KeyError on OUT
    | FuzzTargetUnset              // TypeError from joining OUT with None
    | BenchmarkUnset               // KeyError on BENCHMARK after `benchmark` was missing
    | BadTemplate(e: FormatError)  // str.format failing on a build command

  datatype Ending =
    | Completed
    | Exited(status: int)
    | Raised(error: BuildError)

  /** The steps carried out and how `build` ends. */
  datatype Plan = Plan(steps: seq<Step>, ending: Ending)

  /** `os.path.join(a, b)` on POSIX. */
  function PathJoin(a: string, b: string): (r: string)
    ensures |b| <= |r| && r[|r| - |b|..] == b
    ensures b != [] && b[0] == '/' ==> r == b
    ensures (b == [] || b[0] != '/') ==> |a| <= |r| <= |a| + 1 + |b| && r[..|a|] == a
    ensures a == [] ==> r == b
    ensures a != [] && (b == [] || b[0] != '/') ==>
      (r == a + b || r == a + "/" + b) && (r == a + b <==> a[|a| - 1] == '/')
  {
    if b != [] && b[0] == '/' then b
    else if a == [] || a[|a| - 1] == '/' then a + b
    else a + "/" + b
  }

  const RewriteCommand: string := "make -C /afl-rewrite fuzzbench"

  /** Where the rewriter leaves the IR of the target. */
  function IrPath(targetName: string): string
  {
    "/afl-rewrite/out/" + targetName + "-afl.gtirb"
  }

  function EmitAsmCommand(targetName: string, asmPath: string): string
  {
    "gtirb-pprinter " + IrPath(targetName) + " --asm " + asmPath
  }

  function EmitBinaryCommand(targetName: string, targetPath: string): string
  {
    "gtirb-pprinter " + IrPath(targetName) + " --binary " + targetPath
  }

  /** The rewrite of the target: point TARGET at it, then run the rewriter. */
  function RewriteSteps(targetPath: string): seq<Step>
  {
    [SetEnv("TARGET", targetPath), Shell(RewriteCommand)]
  }

  /** `benchmark` when it is set, otherwise BENCHMARK, otherwise nothing. */
  function ResolveBenchmark(benchmark: Option<string>, benchmarkUpper: Option<string>): Option<string>
  {
    match benchmark
    case Some(id) => Some(id)
    case None => benchmarkUpper
  }

  /**
   * The branch on the registry: a registered benchmark has its assembly
   * emitted, patched by its handler and linked by its own command; any
   * other is emitted as a binary directly by the pretty-printer.
   */
  function Dispatch(id: string, targetName: string, targetPath: string): Plan
  {
    match Lookup(id)
    case None =>
      Plan([Shell(EmitBinaryCommand(targetName, targetPath))], Completed)
    case Some(edge) =>
      var asmPath := targetPath + ".S";
      var emitAndPatch := [Shell(EmitAsmCommand(targetName, asmPath)), RunHandler(edge.handler, asmPath)];
      match Format(edge.BuildCmd(), targetPath, asmPath)
      case Err(e) => Plan(emitAndPatch, Raised(BadTemplate(e)))
      case Ok(cmd) => Plan(emitAndPatch + [Shell(cmd)], Completed)
  }

  /** The whole of `build` from the environment lookups on. */
  function Build(c: Config): Plan
  {
    match c.out
    case None => Plan([], Raised(OutUnset))
    case Some(out) =>
      match c.fuzzTarget
      case None => Plan([], Raised(FuzzTargetUnset))
      case Some(targetName) =>
        var targetPath := PathJoin(out, targetName);
        if !c.targetIsFile then
          Plan([], Exited(1))
        else
          match ResolveBenchmark(c.benchmark, c.benchmarkUpper)
          case None => Plan(RewriteSteps(targetPath), Raised(BenchmarkUnset))
          case Some(id) =>
            var rest := Dispatch(id, targetName, targetPath);
            Plan(RewriteSteps(targetPath) + rest.steps, rest.ending)
  }

  /** OUT and FUZZ_TARGET are set and OUT/FUZZ_TARGET is a file. */
  predicate TargetPresent(c: Config)
  {
    c.out.Some? && c.fuzzTarget.Some? && c.targetIsFile
  }

  function TargetPath(c: Config): string
    requires c.out.Some? && c.fuzzTarget.Some?
  {
    PathJoin(c.out.value, c.fuzzTarget.value)
  }

  /**
   * A missing target binary ends the build with status 1 before any step,
   * and that is the only way the build exits with a status.
   */
  lemma {:induction false} BuildMissingTarget(c: Config)
    ensures Build(c).ending.Exited? <==> (c.out.Some? && c.fuzzTarget.Some? && !c.targetIsFile)
    ensures Build(c).ending.Exited? ==> Build(c) == Plan([], Exited(1))
  {
    match c.out
    case None =>
    case Some(out) =>
      match c.fuzzTarget
      case None =>
      case Some(name) =>
        if c.targetIsFile {
          match ResolveBenchmark(c.benchmark, c.benchmarkUpper)
          case None =>
          case Some(id) =>
            match Lookup(id)
            case None =>
            case Some(edge) =>
              var asmPath := PathJoin(out, name) + ".S";
              match Format(edge.BuildCmd(), PathJoin(out, name), asmPath)
              case Err(_) =>
              case Ok(_) =>
        }
  }

  /** When `benchmark` is set, the value of BENCHMARK makes no difference. */
  lemma {:induction false} BenchmarkTakesPrecedence(c: Config, other: Option<string>)
    requires c.benchmark.Some?
    ensures Build(c.(benchmarkUpper := other)) == Build(c)
  {
  }

  /** When `benchmark` is missing, BENCHMARK is used in its place. */
  lemma {:induction false} BenchmarkUpperAsFallback(c: Config)
    requires c.benchmark.None?
    ensures Build(c) == Build(c.(benchmark := c.benchmarkUpper, benchmarkUpper := None))
  {
  }

  /**
   * With neither variable set, the build fails after the rewrite instead of
   * choosing a benchmark: no pretty-printer, handler or link step follows.
   */
  lemma {:induction false} NoBenchmarkFails(c: Config)
    requires TargetPresent(c) && c.benchmark.None? && c.benchmarkUpper.None?
    ensures Build(c) == Plan(RewriteSteps(TargetPath(c)), Raised(BenchmarkUnset))
  {
  }

  /**
   * A registered benchmark: after the rewrite, the assembly is emitted next
   * to the target, its entry's handler runs on it once, and the entry's
   * command, with the target path and the assembly path substituted for its
   * two fields, links it. The build completes.
   */
  lemma {:induction false} RegisteredBenchmarkPath(c: Config, id: string)
    requires TargetPresent(c) && ResolveBenchmark(c.benchmark, c.benchmarkUpper) == Some(id)
    requires id in EdgeCaseIds
    ensures var target := TargetPath(c);
      var asmPath := target + ".S";
      var edge := Registry[id];
      Build(c) == Plan(
        RewriteSteps(target) + [
          Shell(EmitAsmCommand(c.fuzzTarget.value, asmPath)),
          RunHandler(edge.handler, asmPath),
          Shell(edge.head + target + edge.middle + asmPath + edge.tail)],
        Completed)
  {
    var target := TargetPath(c);
    var edge := Lookup(id).value;
    FormatTemplate(edge.head, edge.middle, edge.tail, target, target + ".S");
  }

  /**
   * Any other benchmark: after the rewrite, only the pretty-printer's
   * binary emission runs; no handler and no custom command.
   */
  lemma {:induction false} UnregisteredBenchmarkPath(c: Config, id: string)
    requires TargetPresent(c) && ResolveBenchmark(c.benchmark, c.benchmarkUpper) == Some(id)
    requires id !in EdgeCaseIds
    ensures Build(c) == Plan(
      RewriteSteps(TargetPath(c)) + [Shell(EmitBinaryCommand(c.fuzzTarget.value, TargetPath(c)))],
      Completed)
  {
  }

  /** The number of handler runs among the steps. */
  function HandlerRuns(steps: seq<Step>): nat
  {
    if steps == [] then 0
    else (if steps[0].RunHandler? then 1 else 0) + HandlerRuns(steps[1..])
  }

  lemma {:induction false} HandlerRunsAppend(a: seq<Step>, b: seq<Step>)
    ensures HandlerRuns(a + b) == HandlerRuns(a) + HandlerRuns(b)
  {
    if a == [] {
      assert a + b == b;
    } else {
      assert (a + b)[1..] == a[1..] + b;
      HandlerRunsAppend(a[1..], b);
    }
  }

  /** Steps that are not handler runs do not count. */
  lemma {:induction false} NoHandlerRuns(steps: seq<Step>)
    requires forall i :: 0 <= i < |steps| ==> !steps[i].RunHandler?
    ensures HandlerRuns(steps) == 0
  {
    if steps != [] {
      NoHandlerRuns(steps[1..]);
    }
  }

  /** The plan of a registered benchmark holds one handler run. */
  lemma {:induction false} RegisteredPlanRuns(target: string, emit: string, h: Handler, asmPath: string, link: string)
    ensures HandlerRuns(RewriteSteps(target) + [Shell(emit), RunHandler(h, asmPath), Shell(link)]) == 1
  {
    var rewrite := RewriteSteps(target);
    var tail := [Shell(emit), RunHandler(h, asmPath), Shell(link)];
    NoHandlerRuns(rewrite);
    HandlerRunsAppend(rewrite, tail);
    assert tail[1..][1..] == [Shell(link)];
    assert HandlerRuns([Shell(link)]) == 0;
    assert HandlerRuns(tail[1..]) == 1;
  }

  /** The plan of any other benchmark holds none. */
  lemma {:induction false} UnregisteredPlanRuns(target: string, emit: string)
    ensures HandlerRuns(RewriteSteps(target) + [Shell(emit)]) == 0
  {
    NoHandlerRuns(RewriteSteps(target) + [Shell(emit)]);
  }

  /**
   * Whatever the configuration, the handler runs exactly once when the
   * target is present and the benchmark is registered, and never otherwise.
   */
  lemma {:induction false} HandlerRunsOnce(c: Config)
    ensures var b := ResolveBenchmark(c.benchmark, c.benchmarkUpper);
      HandlerRuns(Build(c).steps) == if TargetPresent(c) && b.Some? && b.value in EdgeCaseIds then 1 else 0
  {
    if !TargetPresent(c) {
      BuildMissingTarget(c);
    } else {
      var target := TargetPath(c);
      match ResolveBenchmark(c.benchmark, c.benchmarkUpper)
      case None =>
        NoHandlerRuns(RewriteSteps(target));
      case Some(id) =>
        if id in EdgeCaseIds {
          RegisteredBenchmarkPath(c, id);
          var edge := Registry[id];
          var asmPath := target + ".S";
          RegisteredPlanRuns(target, EmitAsmCommand(c.fuzzTarget.value, asmPath), edge.handler, asmPath,
            edge.head + target + edge.middle + asmPath + edge.tail);
        } else {
          UnregisteredBenchmarkPath(c, id);
          UnregisteredPlanRuns(target, EmitBinaryCommand(c.fuzzTarget.value, target));
        }
    }
  }
}
