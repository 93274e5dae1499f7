/**
 * `run` (index.js:232-259) as a function of what the external steps return:
 * read the samples, store the report under the pushed head commit, find the open pull
 * request, resolve its fork point, fetch the fork point's report, compare, and
 * comment. A failed measurement or a missing head commit fails the run before
 * anything is written; a null pull request or fork point ends it early.
 */
module Pipeline {
  import opened Wrappers
  import opened Aggregation
  import opened ReportStore
  import opened PullRequests
  import opened ForkPoint
  import opened Comparison
  import opened Comment

  /** What the outside world answers during one run. */
  datatype Environment = Environment(
    measured: bool,                            // whether `measureCpuUsage` resolves (test command, `killall`,
                                               // `estimateEnergy` and the read of the sample file all succeed)
    energyFile: Option<string>,                // the sample file when `readEnergyData` reads it; None: it throws
    headCommit: Option<string>,                // `payload.head_commit.id`; None: the payload has no head commit
    store: Store,                              // the `energy` branch before the run
    writeSucceeds: bool,                       // whether `createOrUpdateFileContents` succeeds
    pullRequests: Option<seq<PullRequest>>,    // pull requests for the commit; None: the call failed
    compare: Option<CompareResponse>,          // the compare response; None: the call failed
    readSucceeds: bool)                        // whether `getContent` of the baseline succeeds

  /** The calls to the hosting API, in the order the run makes them. */
  datatype Step =
    | WriteReport(path: string)
    | ListPullRequests
    | CompareRefs(basehead: string)
    | ReadReport(path: string)
    | PostComment(issue: int, body: seq<Line>)

  /** The branch after the run, the calls made, and whether the run failed. */
  datatype RunResult = RunResult(store: Store, steps: seq<Step>, failed: bool)

  /** `readEnergyData`: null when reading the file throws or a piece is not a
      number; otherwise a report whose average times its duration is its total. */
  function EnergyData(env: Environment): (r: Option<EnergyReport>)
    ensures env.energyFile.None? ==> r.None?
    ensures env.energyFile.Some? ==> r == Aggregate(env.energyFile.value)
    ensures r.Some? ==> r.value.duration >= 1 && r.value == Report(r.value.totalEnergy, r.value.duration)
  {
    if env.energyFile.None? then None else Aggregate(env.energyFile.value)
  }

  /** The run reaches `commitReport` and builds the report path: the
      measurement resolved and the payload has a head commit. */
  predicate Writes(env: Environment) {
    env.measured && env.headCommit.Some?
  }

  /** The branch after `commitReport`; a run that does not reach it writes nothing. */
  function StoreAfterCommit(env: Environment): Store {
    if !Writes(env) then env.store
    else CommitReport(env.store, env.headCommit.value, EnergyData(env), env.writeSucceeds)
  }

  /** The baseline report the run reads, when it gets that far; a failed read
      is swallowed and gives null. */
  function Baseline(env: Environment): Option<EnergyReport> {
    var pr := GetPullRequest(env.pullRequests);
    var sha := GetForkPoint(env.compare);
    if !Writes(env) || pr.None? || sha.None? || !env.readSucceeds then None
    else FetchReport(StoreAfterCommit(env), sha.value)
  }

  /** The run never divides by a zero total: the only division is against a fetched baseline. */
  predicate RatioDefined(env: Environment) {
    EnergyData(env).Some? && Baseline(env).Some? ==> EnergyData(env).value.totalEnergy != 0.0
  }

  /** The run gets past the fork point: it wrote, and found an open pull request and a fork point. */
  predicate ReachesBaseline(env: Environment) {
    Writes(env) && GetPullRequest(env.pullRequests).Some? && GetForkPoint(env.compare).Some?
  }

  function Run(env: Environment): (r: RunResult)
    requires RatioDefined(env)
    // a failed measurement or no head commit: the run throws before anything is written or listed
    ensures !Writes(env) ==> r.store == env.store && r.steps == [] && r.failed
    ensures Writes(env) ==>
              r.store == StoreAfterCommit(env) && |r.steps| >= 2
              && r.steps[0] == WriteReport(ReportPath(env.headCommit.value)) && r.steps[1] == ListPullRequests
    // no open pull request: nothing after the listing
    ensures Writes(env) && GetPullRequest(env.pullRequests).None? ==> |r.steps| == 2 && !r.failed
    // an open pull request: its refs are compared
    ensures Writes(env) && GetPullRequest(env.pullRequests).Some? ==>
              |r.steps| >= 3 && r.steps[2] == CompareRefs(BaseHead(GetPullRequest(env.pullRequests).value))
    // no fork point: nothing after the comparison
    ensures Writes(env) && GetPullRequest(env.pullRequests).Some? && GetForkPoint(env.compare).None? ==>
              |r.steps| == 3 && !r.failed
    // a fork point: its report is read from the same kind of path the write used
    ensures ReachesBaseline(env) ==>
              |r.steps| >= 4 && r.steps[3] == ReadReport(ReportPath(GetForkPoint(env.compare).value))
    // past the fork point: the read, then the comment when there is a report, and nothing else
    ensures ReachesBaseline(env) ==> |r.steps| == if EnergyData(env).Some? then 5 else 4
    // a comment is posted exactly when the run gets past the fork point with a report in hand
    ensures (exists k :: 0 <= k < |r.steps| && r.steps[k].PostComment?) <==>
              ReachesBaseline(env) && EnergyData(env).Some?
    // the run fails when it does not reach the write, or when it reaches the comparison with no report
    ensures r.failed <==> !Writes(env) || (ReachesBaseline(env) && EnergyData(env).None?)
  {
    if !Writes(env) then
      RunResult(env.store, [], true)
    else
      var energy := EnergyData(env);
      var store := StoreAfterCommit(env);
      var steps := [WriteReport(ReportPath(env.headCommit.value)), ListPullRequests];
      var pr := GetPullRequest(env.pullRequests);
      if pr.None? then
        RunResult(store, steps, false)
      else
        var steps := steps + [CompareRefs(BaseHead(pr.value))];
        var sha := GetForkPoint(env.compare);
        if sha.None? then
          RunResult(store, steps, false)
        else
          var oldData := if env.readSucceeds then FetchReport(store, sha.value) else None;
          var steps := steps + [ReadReport(ReportPath(sha.value))];
          if energy.None? then
            RunResult(store, steps, true)
          else
            var difference := CompareToOld(energy.value, oldData);
            var body := CommentBody(energy.value, difference);
            assert (steps + [PostComment(pr.value.number, body)])[4].PostComment?;
            RunResult(store, steps + [PostComment(pr.value.number, body)], false)
  }

  /** When the run comments, it comments on the selected pull request with the
      body `createComment` builds from this run's report and the ratio against
      the baseline; the verdict line is there exactly when a baseline was found. */
  lemma CommentContents(env: Environment)
    requires RatioDefined(env)
    requires ReachesBaseline(env) && EnergyData(env).Some?
    ensures var r := Run(env);
            var last := r.steps[|r.steps| - 1];
            last.PostComment? && last.issue == GetPullRequest(env.pullRequests).value.number
            && last.body == CommentBody(EnergyData(env).value, CompareToOld(EnergyData(env).value, Baseline(env)))
            && last.body[..3] == Header(EnergyData(env).value)
            && (|last.body| == 4 <==> Baseline(env).Some?)
  {
  }

  /** When the fork point is the head commit itself and the write succeeded, the
      baseline is the report this run just stored. */
  lemma BaselineIsOwnReport(env: Environment)
    requires env.writeSucceeds && env.readSucceeds && ReachesBaseline(env)
    requires GetForkPoint(env.compare) == env.headCommit
    ensures Baseline(env) == EnergyData(env)
  {
    FetchAfterCommit(env.store, env.headCommit.value, env.headCommit.value, EnergyData(env));
  }

  /** The write touches only the head commit's report: the baseline of any
      other fork point is what the branch held before the run, unless the
      read fails. */
  lemma BaselineFromEarlierRun(env: Environment)
    requires ReachesBaseline(env) && GetForkPoint(env.compare) != env.headCommit
    ensures Baseline(env) == if env.readSucceeds then FetchReport(env.store, GetForkPoint(env.compare).value) else None
  {
    if env.writeSucceeds && env.readSucceeds {
      FetchAfterCommit(env.store, env.headCommit.value, GetForkPoint(env.compare).value, EnergyData(env));
    }
  }
}
