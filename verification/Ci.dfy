/** A pipeline run recorded stage by stage, and the gate that judges the record. */
module Ci {
  import opened Options
  import opened Recording
  import opened Text

  const TOOL_CALLED := "tool_called"
  const TOOL_RETURNED := "tool_returned"
  const TOOL_FAILED := "tool_failed"

  datatype Stage = Stage(name: string, command: string, enabled: bool)

  /** How running a stage's command ends: it cannot be run to its end, or it exits. */
  datatype StageRun =
    | CouldNotRun(error: string)
    | Exited(exitCode: int, success: bool, stdout: string, stderr: string)

  datatype StageResult = StageResult(name: string, exitCode: int, stdout: string, stderr: string, success: bool)

  predicate Passed(r: StageRun) {
    r.Exited? && r.success && r.exitCode == 0
  }

  datatype PipelineResult = PipelineResult(success: bool, stages: seq<StageResult>)

  // ---- What a run records ----

  datatype Execution = Execution(stage: Stage, run: StageRun)

  /** The enabled stages with their runs, in order. */
  function Executed(stages: seq<Stage>, runs: seq<StageRun>): (r: seq<Execution>)
    requires |stages| == |runs|
    ensures |r| <= |stages|
  {
    if stages == [] then []
    else
      var n := |stages| - 1;
      Executed(stages[..n], runs[..n]) + if stages[n].enabled then [Execution(stages[n], runs[n])] else []
  }

  function Kind(tag: string, tool: string): EventKind {
    EventKind(tag, map["tool_name" := Text(tool)])
  }

  function CalledEvent(x: Execution, seqNo: nat): Event {
    Event(seqNo, Kind(TOOL_CALLED, x.stage.name), Object(map["command" := Text(x.stage.command)]))
  }

  function IntText(n: int): string {
    if n < 0 then "-" + Decimal(-n) else Decimal(n)
  }

  /** What the record says went wrong. */
  function ErrorText(x: Execution): string {
    match x.run
    case CouldNotRun(error) => "Stage '" + x.stage.name + "' execution error: " + error
    case Exited(exitCode, _, _, _) => "Stage '" + x.stage.name + "' exited with code " + IntText(exitCode)
  }

  function EndEvent(x: Execution, seqNo: nat): Event {
    match x.run
    case CouldNotRun(error) =>
      Event(seqNo, Kind(TOOL_FAILED, x.stage.name),
            Object(map["exit_code" := Number(-1), "stdout" := Text(""), "stderr" := Text(error),
                       "error" := Text(ErrorText(x))]))
    case Exited(exitCode, _, stdout, stderr) =>
      if Passed(x.run) then
        Event(seqNo, Kind(TOOL_RETURNED, x.stage.name),
              Object(map["exit_code" := Number(exitCode), "stdout" := Text(stdout), "stderr" := Text(stderr)]))
      else
        Event(seqNo, Kind(TOOL_FAILED, x.stage.name),
              Object(map["exit_code" := Number(exitCode), "stdout" := Text(stdout), "stderr" := Text(stderr),
                         "error" := Text(ErrorText(x))]))
  }

  /** The i-th event of the full record: the start of a stage, then its end. */
  ghost function EventAt(xs: seq<Execution>, i: nat): RunEvent
    requires i < 2 * |xs|
  {
    if i % 2 == 0 then Recorded(CalledEvent(xs[i / 2], i + 1)) else Recorded(EndEvent(xs[i / 2], i + 1))
  }

  function Results(xs: seq<Execution>): seq<StageResult> {
    if xs == [] then []
    else
      var x := xs[|xs| - 1];
      Results(xs[..|xs| - 1]) + [ResultOf(x)]
  }

  ghost predicate AllPassed(xs: seq<Execution>) {
    forall i :: 0 <= i < |xs| ==> Passed(xs[i].run)
  }

  /** What one stage adds to the record. */
  ghost function StageEvents(x: Execution, n: nat): (r: seq<RunEvent>)
    ensures |r| == 2
  {
    [Recorded(CalledEvent(x, n + 1)), Recorded(EndEvent(x, n + 2))]
  }

  /** The first n events of the full record. */
  ghost function Events(xs: seq<Execution>, n: nat): (r: seq<RunEvent>)
    requires n <= 2 * |xs|
    ensures |r| == n
  {
    seq(n, i requires 0 <= i < n => EventAt(xs, i))
  }

  ghost function Log(xs: seq<Execution>): (log: seq<RunEvent>)
    ensures |log| == 2 * |xs|
  {
    Events(xs, 2 * |xs|)
  }

  lemma EventsTake(xs: seq<Execution>, n: nat, m: nat)
    requires m <= n <= 2 * |xs|
    ensures Events(xs, n)[..m] == Events(xs, m)
  {
  }

  lemma EventsNext(xs: seq<Execution>, n: nat)
    requires n < 2 * |xs|
    ensures Events(xs, n + 1) == Events(xs, n) + [EventAt(xs, n)]
  {
  }

  lemma SameEvents(xs: seq<Execution>, ys: seq<Execution>, n: nat)
    requires ys <= xs && n <= 2 * |ys|
    ensures Events(xs, n) == Events(ys, n)
  {
    forall i: nat | i < n
      ensures EventAt(xs, i) == EventAt(ys, i)
    {
      assert i / 2 < |ys|;
    }
  }

  lemma EvenPrefixes(xs: seq<Execution>, k: nat)
    requires k <= |xs|
    ensures Log(xs)[..2 * k] == Log(xs[..k]) == Events(xs, 2 * k)
  {
    EventsTake(xs, 2 * |xs|, 2 * k);
    SameEvents(xs, xs[..k], 2 * k);
  }

  lemma StageEventsAt(xs: seq<Execution>, k: nat)
    requires k < |xs|
    ensures StageEvents(xs[k], 2 * k) == [EventAt(xs, 2 * k), EventAt(xs, 2 * k + 1)]
  {
    assert (2 * k + 1) / 2 == k;
  }

  lemma TwoMore(start: seq<RunEvent>, a: RunEvent, b: RunEvent)
    ensures start + [a] + [b] == start + [a, b]
  {
  }

  lemma LogLast(xs: seq<Execution>, m: nat)
    requires |xs| == m + 1
    ensures Log(xs) == Log(xs[..m]) + StageEvents(xs[m], 2 * m)
  {
    EvenPrefixes(xs, m);
    EventsNext(xs, 2 * m);
    EventsNext(xs, 2 * m + 1);
    StageEventsAt(xs, m);
    TwoMore(Events(xs, 2 * m), EventAt(xs, 2 * m), EventAt(xs, 2 * m + 1));
  }

  lemma LogNext(xs: seq<Execution>, x: Execution)
    ensures Log(xs + [x]) == Log(xs) + StageEvents(x, 2 * |xs|)
  {
    LogLast(xs + [x], |xs|);
    assert (xs + [x])[..|xs|] == xs;
  }

  function ResultOf(x: Execution): StageResult {
    match x.run
    case CouldNotRun(error) => StageResult(x.stage.name, -1, "", error, false)
    case Exited(exitCode, success, stdout, stderr) => StageResult(x.stage.name, exitCode, stdout, stderr, success)
  }

  /** One result per execution, under its stage's name: what the command ended with, or
      minus one and no success where it could not be run. */
  ghost predicate Reported(xs: seq<Execution>, results: seq<StageResult>) {
    && |results| == |xs|
    && forall i :: 0 <= i < |xs| ==>
         && results[i].name == xs[i].stage.name
         && (results[i].success <==> xs[i].run.Exited? && xs[i].run.success)
         && (xs[i].run.Exited? ==> (results[i].exitCode, results[i].stdout, results[i].stderr)
                                   == (xs[i].run.exitCode, xs[i].run.stdout, xs[i].run.stderr))
         && (xs[i].run.CouldNotRun? ==> (results[i].exitCode, results[i].stdout, results[i].stderr)
                                        == (-1, "", xs[i].run.error))
  }

  lemma {:induction false} ResultsReport(xs: seq<Execution>)
    ensures Reported(xs, Results(xs))
  {
    if xs != [] {
      var init := xs[..|xs| - 1];
      ResultsReport(init);
      assert forall i :: 0 <= i < |init| ==> init[i] == xs[i] && Results(xs)[i] == Results(init)[i];
    }
  }

  lemma ResultsNext(xs: seq<Execution>, x: Execution)
    ensures Results(xs + [x]) == Results(xs) + [ResultOf(x)]
    ensures AllPassed(xs + [x]) <==> AllPassed(xs) && Passed(x.run)
  {
    var more := xs + [x];
    assert more[..|xs|] == xs && more[|xs|] == x;
    assert forall i :: 0 <= i < |xs| ==> more[i] == xs[i];
  }

  lemma ExecutedNext(stages: seq<Stage>, runs: seq<StageRun>, i: nat)
    requires |stages| == |runs| && i < |stages|
    ensures Executed(stages[..i + 1], runs[..i + 1])
            == Executed(stages[..i], runs[..i]) + if stages[i].enabled then [Execution(stages[i], runs[i])] else []
  {
    assert stages[..i + 1][..i] == stages[..i] && runs[..i + 1][..i] == runs[..i];
  }

  lemma LogStep(stages: seq<Stage>, runs: seq<StageRun>, i: nat)
    requires |stages| == |runs| && i < |stages|
    ensures var xs := Executed(stages[..i], runs[..i]);
            Log(Executed(stages[..i + 1], runs[..i + 1]))
            == Log(xs) + if stages[i].enabled then StageEvents(Execution(stages[i], runs[i]), 2 * |xs|) else []
  {
    var xs := Executed(stages[..i], runs[..i]);
    ExecutedNext(stages, runs, i);
    LogNext(xs, Execution(stages[i], runs[i]));
    assert xs + [] == xs && Log(xs) + [] == Log(xs);
  }

  lemma {:induction false} LogGrows(stages: seq<Stage>, runs: seq<StageRun>, i: nat)
    requires |stages| == |runs| && i <= |stages|
    ensures Log(Executed(stages[..i], runs[..i])) <= Log(Executed(stages, runs))
    decreases |stages| - i
  {
    if i == |stages| {
      assert stages[..i] == stages && runs[..i] == runs;
    } else {
      LogStep(stages, runs, i);
      LogGrows(stages, runs, i + 1);
    }
  }

  ghost function Upto(stages: seq<Stage>, runs: seq<StageRun>, i: nat): seq<Execution>
    requires |stages| == |runs| && i <= |stages|
  {
    Executed(stages[..i], runs[..i])
  }

  lemma UptoNext(stages: seq<Stage>, runs: seq<StageRun>, i: nat)
    requires |stages| == |runs| && i < |stages|
    ensures var xs, ys := Upto(stages, runs, i), Upto(stages, runs, i + 1);
            && (!stages[i].enabled ==> ys == xs)
            && (stages[i].enabled ==>
                  var x := Execution(stages[i], runs[i]);
                  && Results(ys) == Results(xs) + [ResultOf(x)]
                  && (AllPassed(ys) <==> AllPassed(xs) && Passed(x.run)))
  {
    ExecutedNext(stages, runs, i);
    ResultsNext(Upto(stages, runs, i), Execution(stages[i], runs[i]));
  }

  lemma UptoAll(stages: seq<Stage>, runs: seq<StageRun>)
    requires |stages| == |runs|
    ensures Upto(stages, runs, 0) == [] && Upto(stages, runs, |stages|) == Executed(stages, runs)
  {
    assert stages[..|stages|] == stages && runs[..|stages|] == runs;
  }

  lemma TwoInTurn(log: seq<RunEvent>, a: RunEvent, b: RunEvent, full: seq<RunEvent>)
    requires log + [a, b] <= full
    ensures log + [a] + [b] == log + [a, b]
    ensures log <= full && log + [a] <= full
  {
    assert log + [a] + [b] == log + [a, b];
  }

  /** The two events of an enabled stage lead from its prefix of the record to the next. */
  lemma StageRecorded(stages: seq<Stage>, runs: seq<StageRun>, i: nat, seqNo: nat)
    requires |stages| == |runs| && i < |stages| && stages[i].enabled
    requires seqNo == |Log(Upto(stages, runs, i))| + 1
    ensures var x := Execution(stages[i], runs[i]);
            var (before, full) := (Log(Upto(stages, runs, i)), Log(Executed(stages, runs)));
            var (a, b) := (Recorded(CalledEvent(x, seqNo)), Recorded(EndEvent(x, seqNo + 1)));
            && before + [a] + [b] == Log(Upto(stages, runs, i + 1))
            && before <= full && before + [a] <= full && before + [a] + [b] <= full
  {
    var x := Execution(stages[i], runs[i]);
    LogStep(stages, runs, i);
    LogGrows(stages, runs, i + 1);
    TwoInTurn(Log(Upto(stages, runs, i)), Recorded(CalledEvent(x, seqNo)), Recorded(EndEvent(x, seqNo + 1)),
              Log(Executed(stages, runs)));
  }

  /** Records the start and the end of one enabled stage. */
  method RecordStage(log: RunLog, stages: seq<Stage>, runs: seq<StageRun>, i: nat, seqNo: nat) returns (ok: bool)
    requires |stages| == |runs| && i < |stages| && stages[i].enabled
    requires log.events == Log(Upto(stages, runs, i)) && seqNo == |log.events| + 1
    modifies log`events
    ensures ok ==> log.events == Log(Upto(stages, runs, i + 1)) && |log.events| == |old(log.events)| + 2
    ensures log.events <= Log(Executed(stages, runs))
  {
    var x := Execution(stages[i], runs[i]);
    StageRecorded(stages, runs, i, seqNo);
    ok := log.Record(CalledEvent(x, seqNo));
    if ok {
      ok := log.Record(EndEvent(x, seqNo + 1));
    }
  }

  /** What the loop has recorded and gathered after i stages. */
  ghost predicate RunSoFar(stages: seq<Stage>, runs: seq<StageRun>, i: nat,
                           events: seq<RunEvent>, results: seq<StageResult>, allPassed: bool)
    requires |stages| == |runs| && i <= |stages|
  {
    var xs := Upto(stages, runs, i);
    events == Log(xs) && results == Results(xs) && (allPassed <==> AllPassed(xs))
  }

  /** One turn of the loop. */
  method RunStage(log: RunLog, stages: seq<Stage>, runs: seq<StageRun>, i: nat, seqNo0: nat,
                  results0: seq<StageResult>, allPassed0: bool)
    returns (ok: bool, seqNo: nat, results: seq<StageResult>, allPassed: bool)
    requires |stages| == |runs| && i < |stages|
    requires RunSoFar(stages, runs, i, log.events, results0, allPassed0) && seqNo0 == |log.events| + 1
    modifies log`events
    ensures ok ==> RunSoFar(stages, runs, i + 1, log.events, results, allPassed) && seqNo == |log.events| + 1
    ensures !ok ==> log.events <= Log(Executed(stages, runs))
  {
    ok, seqNo, results, allPassed := true, seqNo0, results0, allPassed0;
    UptoNext(stages, runs, i);
    if stages[i].enabled {
      ok := RecordStage(log, stages, runs, i, seqNo);
      seqNo := seqNo + 2;
      if !Passed(runs[i]) {
        allPassed := false;
      }
      results := results + [ResultOf(Execution(stages[i], runs[i]))];
    }
  }

  /** Runs every enabled stage, recording its start and its end. A recording that fails
      ends the run with an error and leaves a prefix of the full record. */
  method Run(stages: seq<Stage>, runs: seq<StageRun>) returns (r: Option<PipelineResult>, log: RunLog)
    requires |stages| == |runs|
    ensures fresh(log)
    ensures r.Some? ==>
              var xs := Executed(stages, runs);
              && log.events == Log(xs)
              && (r.value.success <==> AllPassed(xs)) && r.value.stages == Results(xs)
              && log.status == FinalStatus(Summary(|log.events|, r.value.success))
    ensures r.Some? ==> (log.status.Completed? <==> r.value.success) && (log.status.Failed? <==> !r.value.success)
    ensures r.Some? ==> Reported(Executed(stages, runs), r.value.stages)
    ensures r.None? ==> log.events <= Log(Executed(stages, runs))
    ensures r.None? && log.status != Running ==> log.events == Log(Executed(stages, runs))
  {
    ResultsReport(Executed(stages, runs));
    log := new RunLog();
    var ok, seqNo: nat, results: seq<StageResult>, allPassed := true, 1, [], true;
    UptoAll(stages, runs);
    for i := 0 to |stages|
      invariant fresh(log) && log.status == Running
      invariant RunSoFar(stages, runs, i, log.events, results, allPassed) && seqNo == |log.events| + 1
    {
      ok, seqNo, results, allPassed := RunStage(log, stages, runs, i, seqNo, results, allPassed);
      if !ok {
        return None, log;
      }
    }
    ok := log.Finish(Summary(seqNo - 1, allPassed));
    r := if ok then Some(PipelineResult(allPassed, results)) else None;
  }

  /** Sequence numbers run from one without gaps. */
  lemma LogIsNumbered(xs: seq<Execution>, i: nat)
    requires i < |Log(xs)|
    ensures Log(xs)[i].seqNo == i + 1
  {
  }

  // ---- The gate ----

  function FieldText(e: RunEvent, key: string, default: string): string {
    if e.payload.Object? && key in e.payload.fields && e.payload.fields[key].Text?
    then e.payload.fields[key].text else default
  }

  function FieldNumber(e: RunEvent, key: string, default: int): int {
    if e.payload.Object? && key in e.payload.fields && e.payload.fields[key].Number?
    then e.payload.fields[key].n else default
  }

  function ToolName(e: RunEvent): string {
    FieldText(e, "tool_name", "unknown")
  }

  function ExitCode(e: RunEvent): int {
    FieldNumber(e, "exit_code", -1)
  }

  predicate IsCall(e: RunEvent) {
    e.kind == TOOL_CALLED
  }

  predicate IsSuccess(e: RunEvent) {
    e.kind == TOOL_RETURNED && ExitCode(e) == 0
  }

  predicate IsFailure(e: RunEvent) {
    e.kind == TOOL_FAILED || (e.kind == TOOL_RETURNED && ExitCode(e) != 0)
  }

  ghost predicate Called(events: seq<RunEvent>, tool: string) {
    exists i :: 0 <= i < |events| && IsCall(events[i]) && ToolName(events[i]) == tool
  }

  ghost predicate Succeeded(events: seq<RunEvent>, tool: string) {
    exists i :: 0 <= i < |events| && IsSuccess(events[i]) && ToolName(events[i]) == tool
  }

  ghost predicate AnyFailure(events: seq<RunEvent>) {
    exists i :: 0 <= i < |events| && IsFailure(events[i])
  }

  /** The gate's meaning: nothing failed, and every tool called has succeeded. */
  ghost predicate GatePasses(events: seq<RunEvent>) {
    !AnyFailure(events) && forall tool :: Called(events, tool) ==> Succeeded(events, tool)
  }

  datatype Violation = NonZeroExit(tool: string, exitCode: int) | ToolFailure(tool: string, error: string)
                     | NeverCompleted(tool: string)

  datatype Verdict = Verdict(passed: bool, violations: seq<Violation>)

  ghost predicate FailedOnce(events: seq<RunEvent>, tool: string) {
    exists i :: 0 <= i < |events| && IsFailure(events[i]) && ToolName(events[i]) == tool
  }

  ghost predicate Tracks(events: seq<RunEvent>, called: set<string>, completed: set<string>, failed: set<string>) {
    && (forall tool :: tool in called <==> Called(events, tool))
    && (forall tool :: tool in completed <==> Succeeded(events, tool))
    && (forall tool :: tool in failed <==> FailedOnce(events, tool))
  }

  lemma TracksNext(events: seq<RunEvent>, e: RunEvent, tool: string)
    ensures Called(events + [e], tool) <==> Called(events, tool) || (IsCall(e) && ToolName(e) == tool)
    ensures Succeeded(events + [e], tool) <==> Succeeded(events, tool) || (IsSuccess(e) && ToolName(e) == tool)
    ensures FailedOnce(events + [e], tool) <==> FailedOnce(events, tool) || (IsFailure(e) && ToolName(e) == tool)
    ensures AnyFailure(events + [e]) <==> AnyFailure(events) || IsFailure(e)
  {
    var more := events + [e];
    assert more[|events|] == e;
    assert forall i :: 0 <= i < |events| ==> more[i] == events[i];
  }

  lemma TracksOneMore(events: seq<RunEvent>, e: RunEvent, called: set<string>, completed: set<string>,
                      failed: set<string>)
    requires Tracks(events, called, completed, failed)
    ensures Tracks(events + [e],
                   if IsCall(e) then called + {ToolName(e)} else called,
                   if IsSuccess(e) then completed + {ToolName(e)} else completed,
                   if IsFailure(e) then failed + {ToolName(e)} else failed)
  {
    forall tool
      ensures Called(events + [e], tool) <==> tool in called || (IsCall(e) && tool == ToolName(e))
      ensures Succeeded(events + [e], tool) <==> tool in completed || (IsSuccess(e) && tool == ToolName(e))
      ensures FailedOnce(events + [e], tool) <==> tool in failed || (IsFailure(e) && tool == ToolName(e))
    {
      TracksNext(events, e, tool);
    }
  }

  /** One complaint per failure, in the order of the events. */
  function Complaints(events: seq<RunEvent>): seq<Violation> {
    if events == [] then []
    else
      var e := events[|events| - 1];
      Complaints(events[..|events| - 1])
      + if e.kind == TOOL_FAILED then [ToolFailure(ToolName(e), FieldText(e, "error", "Unknown error"))]
        else if IsFailure(e) then [NonZeroExit(ToolName(e), ExitCode(e))]
        else []
  }

  lemma {:induction false} ComplaintsIff(events: seq<RunEvent>)
    ensures Complaints(events) == [] <==> !AnyFailure(events)
  {
    if events != [] {
      var init, e := events[..|events| - 1], events[|events| - 1];
      assert events == init + [e];
      ComplaintsIff(init);
      TracksNext(init, e, "");
    }
  }

  /** A tool of which nothing is known but that it was called. */
  ghost predicate LeftOpen(events: seq<RunEvent>, tool: string) {
    Called(events, tool) && !Succeeded(events, tool) && !FailedOnce(events, tool)
  }

  ghost predicate OncePerTool(vs: seq<Violation>) {
    forall i, j :: 0 <= i < j < |vs| ==> vs[i] != vs[j]
  }

  /** First the complaints, then one entry for each tool left open. */
  ghost predicate RightReport(events: seq<RunEvent>, violations: seq<Violation>, missing: seq<Violation>) {
    && violations == Complaints(events) + missing && OncePerTool(missing)
    && (forall v :: v in missing ==> v.NeverCompleted?)
    && (forall tool :: NeverCompleted(tool) in missing <==> LeftOpen(events, tool))
  }

  lemma ReportIsRight(events: seq<RunEvent>, violations: seq<Violation>, missing: seq<Violation>)
    requires RightReport(events, violations, missing)
    ensures violations == [] <==> GatePasses(events)
  {
    ComplaintsIff(events);
    if missing != [] {
      assert missing[0] in missing;
    }
    if !AnyFailure(events) {
      assert forall tool :: LeftOpen(events, tool) <==> Called(events, tool) && !Succeeded(events, tool);
    }
  }

  lemma TracksTell(events: seq<RunEvent>, called: set<string>, completed: set<string>, failed: set<string>)
    requires Tracks(events, called, completed, failed)
    ensures forall tool :: tool in called - completed - failed <==> LeftOpen(events, tool)
  {
  }

  method Evaluate(events: seq<RunEvent>) returns (v: Verdict)
    ensures v.passed <==> GatePasses(events)
    ensures v.passed <==> v.violations == []
    ensures exists missing :: RightReport(events, v.violations, missing)
  {
    var violations: seq<Violation> := [];
    var called: set<string>, completed: set<string>, failed: set<string> := {}, {}, {};
    for n := 0 to |events|
      invariant Tracks(events[..n], called, completed, failed)
      invariant violations == Complaints(events[..n])
    {
      var e := events[n];
      assert events[..n + 1] == events[..n] + [e] && events[..n + 1][..n] == events[..n];
      TracksOneMore(events[..n], e, called, completed, failed);
      if e.kind == TOOL_CALLED {
        called := called + {ToolName(e)};
      } else if e.kind == TOOL_RETURNED {
        if ExitCode(e) == 0 {
          completed := completed + {ToolName(e)};
        } else {
          violations := violations + [NonZeroExit(ToolName(e), ExitCode(e))];
          failed := failed + {ToolName(e)};
        }
      } else if e.kind == TOOL_FAILED {
        violations := violations + [ToolFailure(ToolName(e), FieldText(e, "error", "Unknown error"))];
        failed := failed + {ToolName(e)};
      }
    }
    assert events[..|events|] == events;
    var missing := NeverReturned(called, completed, failed);
    TracksTell(events, called, completed, failed);
    violations := violations + missing;
    assert RightReport(events, violations, missing);
    ReportIsRight(events, violations, missing);
    v := Verdict(violations == [], violations);
  }

  /** The tools that were called and neither succeeded nor failed, in no particular order. */
  method NeverReturned(called: set<string>, completed: set<string>, failed: set<string>)
    returns (missing: seq<Violation>)
    ensures OncePerTool(missing) && forall v :: v in missing ==> v.NeverCompleted?
    ensures forall tool :: NeverCompleted(tool) in missing <==> tool in called - completed - failed
  {
    missing := [];
    var left := called;
    while left != {}
      invariant left <= called && OncePerTool(missing)
      invariant forall v :: v in missing ==> v.NeverCompleted? && v.tool !in left
      invariant forall tool :: NeverCompleted(tool) in missing <==> tool in (called - left) - completed - failed
      decreases |left|
    {
      var tool :| tool in left;
      if tool !in completed && tool !in failed {
        missing := missing + [NeverCompleted(tool)];
      }
      left := left - {tool};
    }
  }

  // ---- The gate agrees with the pipeline ----

  lemma EventsOf(x: Execution, n: nat)
    ensures var c, e := Recorded(CalledEvent(x, n)), Recorded(EndEvent(x, n + 1));
            && IsCall(c) && !IsSuccess(c) && !IsFailure(c) && ToolName(c) == x.stage.name
            && !IsCall(e) && ToolName(e) == x.stage.name
            && (IsSuccess(e) <==> Passed(x.run)) && (IsFailure(e) <==> !Passed(x.run))
  {
    var c, e := CalledEvent(x, n), EndEvent(x, n + 1);
    KindFieldsSurvive(c, "tool_name");
    KindFieldsSurvive(e, "tool_name");
    KindFieldsSurvive(e, "exit_code");
    assert |TOOL_CALLED| == 11 && |TOOL_RETURNED| == 13 && TOOL_FAILED[5] != TOOL_CALLED[5];
    assert TOOL_CALLED[5] == 'c' && TOOL_FAILED[5] == 'f';
  }

  /** What can be read back from the two events of a stage. */
  lemma EventsTell(x: Execution, n: nat)
    ensures var c, e := Recorded(CalledEvent(x, n)), Recorded(EndEvent(x, n + 1));
            && c.seqNo == n && e.seqNo == n + 1
            && c.kind == "tool_called" && FieldText(c, "command", "") == x.stage.command
            && e.kind == (if Passed(x.run) then "tool_returned" else "tool_failed")
            && FieldNumber(e, "exit_code", 0) == (if x.run.Exited? then x.run.exitCode else -1)
            && match x.run
               case Exited(_, _, stdout, stderr) => FieldText(e, "stdout", "") == stdout && FieldText(e, "stderr", "") == stderr
               case CouldNotRun(error) => FieldText(e, "stdout", "-") == "" && FieldText(e, "stderr", "") == error
  {
    var c, e := CalledEvent(x, n), EndEvent(x, n + 1);
    KindFieldsSurvive(c, "command");
    KindFieldsSurvive(e, "exit_code");
    KindFieldsSurvive(e, "stdout");
    KindFieldsSurvive(e, "stderr");
  }

  ghost predicate Ran(xs: seq<Execution>, tool: string) {
    exists i :: 0 <= i < |xs| && xs[i].stage.name == tool
  }

  ghost predicate RanAndPassed(xs: seq<Execution>, tool: string) {
    exists i :: 0 <= i < |xs| && xs[i].stage.name == tool && Passed(xs[i].run)
  }

  lemma StageTells(log: seq<RunEvent>, x: Execution, n: nat, tool: string)
    ensures Called(log + StageEvents(x, n), tool) <==> Called(log, tool) || x.stage.name == tool
    ensures Succeeded(log + StageEvents(x, n), tool)
            <==> Succeeded(log, tool) || (x.stage.name == tool && Passed(x.run))
    ensures AnyFailure(log + StageEvents(x, n)) <==> AnyFailure(log) || !Passed(x.run)
  {
    var c, e := Recorded(CalledEvent(x, n + 1)), Recorded(EndEvent(x, n + 2));
    EventsOf(x, n + 1);
    assert log + StageEvents(x, n) == log + [c] + [e];
    TracksNext(log, c, tool);
    TracksNext(log + [c], e, tool);
  }

  /** What a complete record says about each tool. */
  lemma {:induction false} LogTells(xs: seq<Execution>, tool: string)
    ensures Called(Log(xs), tool) <==> Ran(xs, tool)
    ensures Succeeded(Log(xs), tool) <==> RanAndPassed(xs, tool)
    ensures AnyFailure(Log(xs)) <==> !AllPassed(xs)
  {
    if xs != [] {
      var init, x := xs[..|xs| - 1], xs[|xs| - 1];
      assert xs == init + [x];
      LogTells(init, tool);
      LogNext(init, x);
      ResultsNext(init, x);
      StageTells(Log(init), x, 2 * |init|, tool);
      RanNext(init, x, tool);
    }
  }

  lemma RanNext(xs: seq<Execution>, x: Execution, tool: string)
    ensures Ran(xs + [x], tool) <==> Ran(xs, tool) || x.stage.name == tool
    ensures RanAndPassed(xs + [x], tool) <==> RanAndPassed(xs, tool) || (x.stage.name == tool && Passed(x.run))
  {
    var more := xs + [x];
    assert more[|xs|] == x;
    assert forall i :: 0 <= i < |xs| ==> more[i] == xs[i];
  }

  lemma PassedTools(xs: seq<Execution>)
    requires AllPassed(xs)
    ensures forall tool :: Ran(xs, tool) ==> RanAndPassed(xs, tool)
  {
    forall tool | Ran(xs, tool)
      ensures RanAndPassed(xs, tool)
    {
      var i :| 0 <= i < |xs| && xs[i].stage.name == tool;
      assert Passed(xs[i].run);
    }
  }

  lemma GateOnFullRecord(xs: seq<Execution>)
    ensures GatePasses(Log(xs)) <==> AllPassed(xs)
  {
    forall tool
      ensures Called(Log(xs), tool) <==> Ran(xs, tool)
      ensures Succeeded(Log(xs), tool) <==> RanAndPassed(xs, tool)
    {
      LogTells(xs, tool);
    }
    LogTells(xs, "");
    if AllPassed(xs) {
      PassedTools(xs);
    }
  }

  /** For every stage list, disabled and repeated stages included, and whatever each stage
      does, the gate passes the record exactly when every enabled stage passed. */
  lemma GateAgreesWithPipeline(stages: seq<Stage>, runs: seq<StageRun>)
    requires |stages| == |runs|
    ensures GatePasses(Log(Executed(stages, runs)))
            <==> forall i :: 0 <= i < |stages| && stages[i].enabled ==> Passed(runs[i])
  {
    GateOnFullRecord(Executed(stages, runs));
    SuccessMeans(stages, runs);
  }

  /** What the gate has to say about one stage. */
  function StageComplaint(x: Execution): seq<Violation> {
    if Passed(x.run) then []
    else if x.run.CouldNotRun? then [ToolFailure(x.stage.name, "Stage '" + x.stage.name + "' execution error: " + x.run.error)]
    else [ToolFailure(x.stage.name, "Stage '" + x.stage.name + "' exited with code " + IntText(x.run.exitCode))]
  }

  function StageComplaints(xs: seq<Execution>): seq<Violation> {
    if xs == [] then [] else StageComplaints(xs[..|xs| - 1]) + StageComplaint(xs[|xs| - 1])
  }

  lemma OneMoreEvent(events: seq<RunEvent>, e: RunEvent)
    ensures !IsFailure(e) ==> Complaints(events + [e]) == Complaints(events)
    ensures e.kind == TOOL_FAILED ==>
              Complaints(events + [e])
              == Complaints(events) + [ToolFailure(ToolName(e), FieldText(e, "error", "Unknown error"))]
  {
    assert (events + [e])[..|events|] == events;
    assert Complaints(events) + [] == Complaints(events);
  }

  lemma EndsTell(x: Execution, n: nat)
    ensures var c, e := StageEvents(x, n)[0], StageEvents(x, n)[1];
            && !IsFailure(c)
            && (Passed(x.run) ==> !IsFailure(e))
            && (!Passed(x.run) ==> e.kind == TOOL_FAILED
                                   && StageComplaint(x) == [ToolFailure(ToolName(e), FieldText(e, "error", "Unknown error"))])
  {
    EventsOf(x, n + 1);
    KindFieldsSurvive(EndEvent(x, n + 2), "error");
  }

  lemma ComplaintsNext(events: seq<RunEvent>, x: Execution, n: nat)
    ensures Complaints(events + StageEvents(x, n)) == Complaints(events) + StageComplaint(x)
  {
    var c, e := StageEvents(x, n)[0], StageEvents(x, n)[1];
    EndsTell(x, n);
    OneMoreEvent(events, c);
    OneMoreEvent(events + [c], e);
    assert events + StageEvents(x, n) == (events + [c]) + [e];
    assert Complaints(events) + [] == Complaints(events);
  }

  /** On the full record of a run the gate complains exactly of the stages that did not
      pass, in their order, each with its exit code or why it could not be run. */
  lemma {:induction false} GateNamesFailedStages(xs: seq<Execution>)
    ensures Complaints(Log(xs)) == StageComplaints(xs)
  {
    if xs != [] {
      var init, x := xs[..|xs| - 1], xs[|xs| - 1];
      assert xs == init + [x];
      LogNext(init, x);
      GateNamesFailedStages(init);
      ComplaintsNext(Log(init), x, 2 * |init|);
    }
  }

  /** All enabled stages passed, said of the configuration itself. */
  lemma {:induction false} SuccessMeans(stages: seq<Stage>, runs: seq<StageRun>)
    requires |stages| == |runs|
    ensures AllPassed(Executed(stages, runs))
            <==> forall i :: 0 <= i < |stages| && stages[i].enabled ==> Passed(runs[i])
  {
    if stages != [] {
      var n := |stages| - 1;
      SuccessMeans(stages[..n], runs[..n]);
      LastPassed(stages, runs);
      assert forall i :: 0 <= i < n ==> stages[..n][i] == stages[i] && runs[..n][i] == runs[i];
    }
  }

  lemma LastPassed(stages: seq<Stage>, runs: seq<StageRun>)
    requires |stages| == |runs| && stages != []
    ensures var n := |stages| - 1;
            AllPassed(Executed(stages, runs))
            <==> AllPassed(Executed(stages[..n], runs[..n])) && (stages[n].enabled ==> Passed(runs[n]))
  {
    var n := |stages| - 1;
    var before := Executed(stages[..n], runs[..n]);
    ResultsNext(before, Execution(stages[n], runs[n]));
    assert before + [] == before;
  }

  // ---- Records cut short ----

  /** The record after k stages and the start of the next. */
  ghost function CutLog(xs: seq<Execution>, next: Execution): seq<RunEvent> {
    Log(xs) + [Recorded(CalledEvent(next, 2 * |xs| + 1))]
  }

  lemma OddPrefixes(xs: seq<Execution>, k: nat)
    requires k < |xs|
    ensures Log(xs)[..2 * k + 1] == CutLog(xs[..k], xs[k])
  {
    EvenPrefixes(xs, k);
    EventsTake(xs, 2 * |xs|, 2 * k + 1);
    EventsNext(xs, 2 * k);
    StageEventsAt(xs, k);
  }

  lemma PrefixesAreCuts(xs: seq<Execution>, n: nat)
    requires n <= |Log(xs)|
    ensures n % 2 == 0 ==> Log(xs)[..n] == Log(xs[..n / 2])
    ensures n % 2 == 1 ==> n / 2 < |xs| && Log(xs)[..n] == CutLog(xs[..n / 2], xs[n / 2])
  {
    if n % 2 == 0 {
      EvenPrefixes(xs, n / 2);
    } else {
      OddPrefixes(xs, n / 2);
    }
  }

  lemma CutIsSeen(xs: seq<Execution>, next: Execution)
    ensures GatePasses(CutLog(xs, next)) <==> AllPassed(xs) && RanAndPassed(xs, next.stage.name)
  {
    var c := Recorded(CalledEvent(next, 2 * |xs| + 1));
    assert CutLog(xs, next) == Log(xs) + [c];
    EventsOf(next, 2 * |xs| + 1);
    forall tool
      ensures Called(CutLog(xs, next), tool) <==> Ran(xs, tool) || tool == next.stage.name
      ensures Succeeded(CutLog(xs, next), tool) <==> RanAndPassed(xs, tool)
    {
      LogTells(xs, tool);
      TracksNext(Log(xs), c, tool);
    }
    LogTells(xs, "");
    TracksNext(Log(xs), c, "");
    assert Called(CutLog(xs, next), next.stage.name);
    if AllPassed(xs) {
      PassedTools(xs);
    }
  }

  /** On a record cut short the gate sees no more than the events say: it passes exactly
      when every stage recorded as ended passed and the stage left pending, if any, has
      the name of a stage that passed earlier. In particular it passes the empty record. */
  lemma GateOnTruncatedRecordIff(xs: seq<Execution>, n: nat)
    requires n <= |Log(xs)|
    ensures GatePasses(Log(xs)[..n])
            <==> AllPassed(xs[..n / 2]) && (n % 2 == 1 ==> RanAndPassed(xs[..n / 2], xs[n / 2].stage.name))
  {
    PrefixesAreCuts(xs, n);
    if n % 2 == 0 {
      GateOnFullRecord(xs[..n / 2]);
    } else {
      CutIsSeen(xs[..n / 2], xs[n / 2]);
    }
  }
}
