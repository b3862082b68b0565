/** The auto-updater: a polling state machine with at most one update in flight. */
module AutoUpdater {
  import opened Wrappers
  import opened Versions

  datatype Status =
    | Idle
    | Checking
    | Downloading(version: Version)
    | Installing(version: Version)
    | Updated(version: Version)
    | Errored

  datatype CheckType = Automatic | Manual
  datatype Channel = Nightly | Other

  /** Where an update task is waiting. `previous` is the status it found when it started. */
  datatype Phase =
    | Spawned
    | Fetching(previous: Status)
    | Fetched(previous: Status, version: Version)
    | Downloaded(previous: Status, version: Version)

  /** An update task, with the check type of the poll that spawned it. */
  datatype Task = Task(checkType: CheckType, phase: Phase)

  /** `tasks` are the live tasks, `pending` whether a task slot is filled, and `installs` the
      versions installed so far. */
  datatype State = State(
    status: Status,
    installed: Version,
    pending: bool,
    tasks: seq<Task>,
    checkType: CheckType,
    dismissed: Option<Status>,
    installs: seq<Version>)

  /** How a task's wait ends. A missing dependency is an error of its own kind on Linux; on macOS it is
      a failure like any other. */
  datatype Reply =
    | MissingDependency
    | Failed
    | Release(version: Version)
    | Done

  datatype Event =
    | Poll(checkType: CheckType)
    | Dismiss
    | DismissStatus(status: Status)
    | Advance(task: nat, reply: Reply)

  // ---- The version check ----

  /** The last dot-separated part of the build metadata. */
  function BuildSha(v: Version): string {
    if v.build == [] then "" else v.build[|v.build| - 1]
  }

  /** `check_if_fetched_version_is_newer` for a version that parsed. */
  function CheckNewer(channel: Channel, sha: Option<string>, installed: Version, fetched: Version, status: Status)
    : Option<Version>
  {
    match channel
    case Nightly =>
      if status.Updated? then
        (if fetched != status.version then Some(fetched) else None)
      else
        (if sha.None? || sha.value != BuildSha(fetched) then Some(fetched) else None)
    case Other =>
      NewerNonNightly(if status.Updated? then status.version else installed, fetched)
  }

  // ---- Steps ----

  function StartPoll(s: State, checkType: CheckType): State {
    var s := if checkType.Manual? then s.(dismissed := None) else s;
    if s.pending then
      if s.checkType.Automatic? then s.(checkType := checkType) else s
    else
      s.(checkType := checkType, pending := true, tasks := s.tasks + [Task(checkType, Spawned)])
  }

  function DropTask(s: State, i: nat): State
    requires i < |s.tasks|
  {
    s.(pending := false, tasks := s.tasks[..i] + s.tasks[i + 1..])
  }

  /** A task that ends with an error: quiet if the check was automatic, unless a dependency is missing. */
  function Fail(s: State, i: nat, missing: bool): State
    requires i < |s.tasks|
  {
    DropTask(s, i).(status := if s.tasks[i].checkType.Manual? || missing then Errored else Idle)
  }

  function WithPhase(s: State, i: nat, phase: Phase, status: Status): State
    requires i < |s.tasks|
  {
    s.(tasks := s.tasks[i := s.tasks[i].(phase := phase)], status := status)
  }

  /** One stretch of an update task between two waits. A reply that makes no sense where that task
      is waiting is read as a failure. */
  function AdvanceTask(s: State, channel: Channel, sha: Option<string>, i: nat, reply: Reply): State
    requires i < |s.tasks|
  {
    match s.tasks[i].phase
    case Spawned =>
      if reply.MissingDependency? then Fail(s, i, true)
      else if reply.Failed? then Fail(s, i, false)
      else WithPhase(s, i, Fetching(s.status), Checking)
    case Fetching(previous) =>
      if !reply.Release? then Fail(s, i, false) else
        (match CheckNewer(channel, sha, s.installed, reply.version, previous)
         case None => DropTask(s, i).(status := if previous.Updated? then previous else Idle)
         case Some(v) => WithPhase(s, i, Fetched(previous, v), Downloading(v)))
    case Fetched(previous, v) =>
      if !reply.Done? then Fail(s, i, false) else WithPhase(s, i, Downloaded(previous, v), Installing(v))
    case Downloaded(_, v) =>
      if !reply.Done? then Fail(s, i, false)
      else DropTask(s, i).(status := Updated(v), installs := s.installs + [v])
  }

  function Step(s: State, channel: Channel, sha: Option<string>, e: Event): State {
    match e
    case Poll(checkType) => StartPoll(s, checkType)
    case Dismiss => if s.status.Idle? then s else s.(status := Idle)
    case DismissStatus(status) => s.(dismissed := Some(status))
    case Advance(i, reply) => if i < |s.tasks| then AdvanceTask(s, channel, sha, i, reply) else s
  }

  function Initial(installed: Version): State {
    State(Idle, installed, false, [], Automatic, None, [])
  }

  function Exec(installed: Version, channel: Channel, sha: Option<string>, run: seq<Event>): State {
    if run == [] then Initial(installed)
    else Step(Exec(installed, channel, sha, run[..|run| - 1]), channel, sha, run[|run| - 1])
  }

  // ---- At most one update in flight ----

  ghost predicate SingleFlight(s: State) {
    |s.tasks| <= 1 && (s.pending <==> |s.tasks| == 1)
  }

  lemma StepSingleFlight(s: State, channel: Channel, sha: Option<string>, e: Event)
    requires SingleFlight(s)
    ensures SingleFlight(Step(s, channel, sha, e)) && Step(s, channel, sha, e).installed == s.installed
  {
    hide CheckNewer;
  }

  /** In every run at most one update task is alive, and then the slot is filled. */
  lemma {:induction false} RunSingleFlight(installed: Version, channel: Channel, sha: Option<string>, run: seq<Event>)
    ensures SingleFlight(Exec(installed, channel, sha, run)) && Exec(installed, channel, sha, run).installed == installed
  {
    hide Step;
    if run != [] {
      RunSingleFlight(installed, channel, sha, run[..|run| - 1]);
      StepSingleFlight(Exec(installed, channel, sha, run[..|run| - 1]), channel, sha, run[|run| - 1]);
    }
  }

  // ---- Versions stay above the installed one ----

  /** A version above the installed one with its pre-release and build fields cleared. */
  ghost predicate Good(installed: Version, v: Version) {
    Less(Cleared(installed), v)
  }

  ghost predicate GoodStatus(installed: Version, st: Status) {
    st.Updated? ==> Good(installed, st.version)
  }

  ghost predicate GoodPhase(installed: Version, p: Phase) {
    match p
    case Spawned => true
    case Fetching(previous) => GoodStatus(installed, previous)
    case Fetched(previous, v) => GoodStatus(installed, previous) && Good(installed, v)
    case Downloaded(previous, v) => GoodStatus(installed, previous) && Good(installed, v)
  }

  ghost predicate AllGood(s: State) {
    && GoodStatus(s.installed, s.status)
    && (forall i :: 0 <= i < |s.tasks| ==> GoodPhase(s.installed, s.tasks[i].phase))
    && (forall i :: 0 <= i < |s.installs| ==> Good(s.installed, s.installs[i]))
  }

  lemma NewerIsGood(sha: Option<string>, installed: Version, fetched: Version, previous: Status)
    requires GoodStatus(installed, previous)
    ensures CheckNewer(Other, sha, installed, fetched, previous).Some? ==> Good(installed, fetched)
  {
    hide Less;
    if previous.Updated? && CheckNewer(Other, sha, installed, fetched, previous).Some? {
      AcceptedStaysAbove(installed, previous.version, fetched);
    }
  }

  lemma StepAllGood(s: State, sha: Option<string>, e: Event)
    requires SingleFlight(s) && AllGood(s)
    ensures AllGood(Step(s, Other, sha, e))
  {
    hide CheckNewer, Good;
    if e.Advance? && e.task < |s.tasks| && s.tasks[e.task].phase.Fetching? && e.reply.Release? {
      NewerIsGood(sha, s.installed, e.reply.version, s.tasks[e.task].phase.previous);
      NewerReturnsFetched(Other, sha, s.installed, e.reply.version, s.tasks[e.task].phase.previous);
    }
  }

  lemma NewerReturnsFetched(channel: Channel, sha: Option<string>, installed: Version, fetched: Version, status: Status)
    ensures CheckNewer(channel, sha, installed, fetched, status) in {None, Some(fetched)}
  {
  }

  /** Outside the nightly channel, every version ever installed exceeds the installed one with its
      pre-release and build fields cleared. */
  lemma {:induction false} InstallsExceedInstalled(installed: Version, sha: Option<string>, run: seq<Event>)
    ensures AllGood(Exec(installed, Other, sha, run)) && Exec(installed, Other, sha, run).installed == installed
  {
    hide Step, Good;
    RunSingleFlight(installed, Other, sha, run);
    if run != [] {
      var n := |run| - 1;
      InstallsExceedInstalled(installed, sha, run[..n]);
      RunSingleFlight(installed, Other, sha, run[..n]);
      StepAllGood(Exec(installed, Other, sha, run[..n]), sha, run[n]);
    }
  }

  // ---- What the updater remembers ----

  /** Every release that is offered is a pre-release or has no build metadata. */
  ghost predicate SteadyReleases(run: seq<Event>) {
    forall i :: 0 <= i < |run| && run[i].Advance? && run[i].reply.Release? ==> Steady(run[i].reply.version)
  }

  /** The version that a status names as updated is the last one installed. */
  ghost predicate NamesLast(s: State, st: Status) {
    st.Updated? ==> s.installs != [] && st.version == s.installs[|s.installs| - 1]
  }

  ghost predicate PhaseNamesLast(s: State, p: Phase) {
    !p.Spawned? ==> NamesLast(s, p.previous)
  }

  ghost predicate Truthful(s: State) {
    && NamesLast(s, s.status)
    && (forall i :: 0 <= i < |s.tasks| ==> PhaseNamesLast(s, s.tasks[i].phase))
  }

  lemma TaskTruthful(s: State, i: nat)
    requires SingleFlight(s) && Truthful(s) && i < |s.tasks|
    ensures i == 0 && PhaseNamesLast(s, s.tasks[0].phase) && NamesLast(s, s.status)
  {
  }

  lemma StepTruthful(s: State, channel: Channel, sha: Option<string>, e: Event)
    requires SingleFlight(s) && Truthful(s)
    ensures Truthful(Step(s, channel, sha, e))
  {
    hide CheckNewer;
    if e.Advance? && e.task < |s.tasks| {
      TaskTruthful(s, e.task);
      var s' := AdvanceTask(s, channel, sha, e.task, e.reply);
      assert NamesLast(s', s'.status);
      assert |s'.tasks| <= 1 && (s'.tasks != [] ==> PhaseNamesLast(s', s'.tasks[0].phase));
    }
  }

  /** In every run, `Updated` names the last version installed. */
  lemma {:induction false} RunTruthful(installed: Version, channel: Channel, sha: Option<string>, run: seq<Event>)
    ensures Truthful(Exec(installed, channel, sha, run))
  {
    hide Step;
    if run != [] {
      var n := |run| - 1;
      RunTruthful(installed, channel, sha, run[..n]);
      RunSingleFlight(installed, channel, sha, run[..n]);
      StepTruthful(Exec(installed, channel, sha, run[..n]), channel, sha, run[n]);
    }
  }

  /** Versions that were offered as steady. */
  ghost predicate AllSteady(s: State) {
    && (forall i :: 0 <= i < |s.installs| ==> Steady(s.installs[i]))
    && (forall i :: 0 <= i < |s.tasks| && (s.tasks[i].phase.Fetched? || s.tasks[i].phase.Downloaded?) ==>
                      Steady(s.tasks[i].phase.version))
  }

  lemma StepAllSteady(s: State, channel: Channel, sha: Option<string>, e: Event)
    requires SingleFlight(s) && AllSteady(s)
    requires e.Advance? && e.reply.Release? ==> Steady(e.reply.version)
    ensures AllSteady(Step(s, channel, sha, e))
  {
    hide CheckNewer, Steady;
    if e.Advance? && e.task < |s.tasks| && s.tasks[e.task].phase.Fetching? && e.reply.Release? {
      NewerReturnsFetched(channel, sha, s.installed, e.reply.version, s.tasks[e.task].phase.previous);
    }
  }

  lemma {:induction false} RunAllSteady(installed: Version, channel: Channel, sha: Option<string>, run: seq<Event>)
    requires SteadyReleases(run)
    ensures AllSteady(Exec(installed, channel, sha, run))
  {
    hide Step;
    if run != [] {
      var n := |run| - 1;
      RunAllSteady(installed, channel, sha, run[..n]);
      RunSingleFlight(installed, channel, sha, run[..n]);
      StepAllSteady(Exec(installed, channel, sha, run[..n]), channel, sha, run[n]);
    }
  }

  // ---- Successive installs ----

  /** The event ends a task with an error. */
  predicate Fails(s: State, e: Event) {
    && e.Advance? && e.task < |s.tasks|
    && match s.tasks[e.task].phase
       case Spawned => e.reply.MissingDependency? || e.reply.Failed?
       case Fetching(_) => !e.reply.Release?
       case _ => !e.reply.Done?
  }

  /** No check fails and nothing is dismissed. */
  ghost predicate Smooth(installed: Version, sha: Option<string>, run: seq<Event>) {
    forall k :: 0 <= k < |run| ==> !run[k].Dismiss? && !Fails(Exec(installed, Other, sha, run[..k]), run[k])
  }

  ghost predicate Increasing(vs: seq<Version>) {
    forall i, j :: 0 <= i < j < |vs| ==> Less(vs[i], vs[j])
  }

  /** The last installed version is the one that the next check compares with. */
  ghost predicate Rising(s: State) {
    && Increasing(s.installs)
    && (s.installs != [] ==> Remembered(s, s.installs[|s.installs| - 1]))
  }

  ghost predicate Remembered(s: State, last: Version) {
    && (s.tasks == [] ==> s.status == Updated(last))
    && forall i :: 0 <= i < |s.tasks| ==>
         match s.tasks[i].phase
         case Spawned => s.status == Updated(last)
         case Fetching(previous) => previous == Updated(last)
         case Fetched(previous, v) => previous == Updated(last) && Less(last, v)
         case Downloaded(previous, v) => previous == Updated(last) && Less(last, v)
  }

  lemma IncreasingAppend(vs: seq<Version>, v: Version)
    requires Increasing(vs) && (vs != [] ==> Less(vs[|vs| - 1], v))
    ensures Increasing(vs + [v])
  {
    hide Less;
    forall i | 0 <= i < |vs| ensures Less(vs[i], v) {
      if i < |vs| - 1 {
        LessTransitive(vs[i], vs[|vs| - 1], v);
      }
    }
  }

  /** What is accepted over a steady version is newer than it. */
  lemma NewerThanSteady(sha: Option<string>, installed: Version, fetched: Version, last: Version)
    requires Steady(last)
    ensures CheckNewer(Other, sha, installed, fetched, Updated(last)).Some? ==> Less(last, fetched)
  {
    AcceptedIsNewer(last, fetched);
  }

  lemma StepRising(s: State, sha: Option<string>, e: Event)
    requires SingleFlight(s) && AllSteady(s) && Rising(s) && !e.Dismiss? && !Fails(s, e)
    ensures Rising(Step(s, Other, sha, e))
  {
    hide CheckNewer, Less, Increasing, Steady;
    if e.Advance? && e.task < |s.tasks| {
      var p := s.tasks[e.task].phase;
      if p.Fetching? {
        if s.installs != [] {
          NewerThanSteady(sha, s.installed, e.reply.version, s.installs[|s.installs| - 1]);
        }
        NewerReturnsFetched(Other, sha, s.installed, e.reply.version, p.previous);
      } else if p.Downloaded? {
        IncreasingAppend(s.installs, p.version);
      }
    }
  }

  /** Along any run with no failed check and no dismissal, each install is newer than all before. */
  lemma {:induction false} InstallsIncrease(installed: Version, sha: Option<string>, run: seq<Event>)
    requires SteadyReleases(run) && Smooth(installed, sha, run)
    ensures Rising(Exec(installed, Other, sha, run))
  {
    hide Step, AllSteady, Fails, Remembered;
    if run == [] {
    } else {
      var n := |run| - 1;
      forall k | 0 <= k < n
        ensures !run[..n][k].Dismiss? && !Fails(Exec(installed, Other, sha, run[..n][..k]), run[..n][k])
      {
        assert run[..n][..k] == run[..k];
      }
      InstallsIncrease(installed, sha, run[..n]);
      RunAllSteady(installed, Other, sha, run[..n]);
      RunSingleFlight(installed, Other, sha, run[..n]);
      StepRising(Exec(installed, Other, sha, run[..n]), sha, run[n]);
    }
  }

  /** One full update from a state without a task: poll, start, fetch, download, install. */
  function Cycle(s: State, channel: Channel, sha: Option<string>, v: Version): State {
    After(s, channel, sha, v, 5)
  }

  /** The first `n` events of such an update. */
  function After(s: State, channel: Channel, sha: Option<string>, v: Version, n: nat): State
    requires n <= 5
  {
    if n == 0 then s else
      var e := if n == 1 then Poll(Automatic) else if n == 3 then Advance(0, Release(v)) else Advance(0, Done);
      Step(After(s, channel, sha, v, n - 1), channel, sha, e)
  }

  lemma StartsChecking(s: State, channel: Channel, sha: Option<string>, v: Version)
    requires s.tasks == [] && !s.pending
    ensures var s2 := After(s, channel, sha, v, 2);
            && s2.status == Checking && s2.pending && s2.tasks == [Task(Automatic, Fetching(s.status))]
            && s2.installed == s.installed && s2.installs == s.installs
  {
    hide CheckNewer;
    var s1 := After(s, channel, sha, v, 1);
    assert s1 == Step(After(s, channel, sha, v, 0), channel, sha, Poll(Automatic));
    assert s1.tasks == [Task(Automatic, Spawned)];
    assert After(s, channel, sha, v, 2) == Step(s1, channel, sha, Advance(0, Done));
  }

  /** What such an update shows and installs: a version that the check refuses leaves what was shown if
      that was an update; one that it accepts is downloaded, installed and shown as the update. */
  lemma CycleShows(s: State, channel: Channel, sha: Option<string>, v: Version)
    requires s.tasks == [] && !s.pending
    ensures After(s, channel, sha, v, 2).status == Checking
    ensures CheckNewer(channel, sha, s.installed, v, s.status).Some? ==>
              && After(s, channel, sha, v, 3).status == Downloading(v)
              && After(s, channel, sha, v, 4).status == Installing(v)
              && Cycle(s, channel, sha, v).status == Updated(v)
              && Cycle(s, channel, sha, v).installs == s.installs + [v]
    ensures CheckNewer(channel, sha, s.installed, v, s.status).None? ==>
              && Cycle(s, channel, sha, v).status == (if s.status.Updated? then s.status else Idle)
              && Cycle(s, channel, sha, v).installs == s.installs
    ensures Cycle(s, channel, sha, v).tasks == [] && !Cycle(s, channel, sha, v).pending
  {
    hide CheckNewer;
    StartsChecking(s, channel, sha, v);
    NewerReturnsFetched(channel, sha, s.installed, v, s.status);
    var s2 := After(s, channel, sha, v, 2);
    var s3 := After(s, channel, sha, v, 3);
    var s4 := After(s, channel, sha, v, 4);
    assert s3 == Step(s2, channel, sha, Advance(0, Release(v)));
    assert s4 == Step(s3, channel, sha, Advance(0, Done));
    assert Cycle(s, channel, sha, v) == Step(s4, channel, sha, Advance(0, Done));
  }

  /** Such an update installs what the version check accepts over the present status. */
  lemma CycleInstalls(s: State, channel: Channel, sha: Option<string>, v: Version)
    requires s.tasks == [] && !s.pending
    ensures Cycle(s, channel, sha, v).installs
         == if CheckNewer(channel, sha, s.installed, v, s.status).Some? then s.installs + [v] else s.installs
  {
    hide CheckNewer, Cycle;
    CycleShows(s, channel, sha, v);
  }

  /** A state that has forgotten its update installs it again. */
  lemma ForgottenRepeats(s: State, sha: Option<string>, v: Version)
    requires s.tasks == [] && !s.pending && !s.status.Updated? && Good(s.installed, v)
    ensures Cycle(s, Other, sha, v).installs == s.installs + [v]
  {
    hide Cycle, Less;
    CycleInstalls(s, Other, sha, v);
  }

  /** Whatever is installed next is newer than `last`. */
  ghost predicate NextExceeds(s: State, sha: Option<string>, last: Version) {
    forall v :: Cycle(s, Other, sha, v).installs == s.installs + [v] ==> Less(last, v)
  }

  /** After any run of steady releases without a live task, what is installed next exceeds the last
      install exactly when the status still names it. */
  lemma NextExceedsIff(installed: Version, sha: Option<string>, run: seq<Event>)
    requires SteadyReleases(run)
    requires Exec(installed, Other, sha, run).tasks == [] && Exec(installed, Other, sha, run).installs != []
    ensures var s := Exec(installed, Other, sha, run);
            var last := s.installs[|s.installs| - 1];
            NextExceeds(s, sha, last) <==> s.status == Updated(last)
  {
    hide Exec, Cycle, Less, CheckNewer, Steady, Good;
    var s := Exec(installed, Other, sha, run);
    var last := s.installs[|s.installs| - 1];
    RunSingleFlight(installed, Other, sha, run);
    RunAllSteady(installed, Other, sha, run);
    RunTruthful(installed, Other, sha, run);
    InstallsExceedInstalled(installed, sha, run);
    if s.status == Updated(last) {
      forall v | Cycle(s, Other, sha, v).installs == s.installs + [v] ensures Less(last, v) {
        CycleInstalls(s, Other, sha, v);
        assert s.installs != s.installs + [v];
        NewerThanSteady(sha, s.installed, v, last);
      }
    } else {
      ForgottenRepeats(s, sha, last);
      LessTotal(last, last);
    }
  }

  lemma ExecAppend(installed: Version, sha: Option<string>, run: seq<Event>, e: Event)
    ensures Exec(installed, Other, sha, run + [e]) == Step(Exec(installed, Other, sha, run), Other, sha, e)
  {
    assert (run + [e])[..|run|] == run;
  }

  lemma SteadyAppend(run: seq<Event>, e: Event)
    requires SteadyReleases(run) && !(e.Advance? && e.reply.Release?)
    ensures SteadyReleases(run + [e])
  {
  }

  /** Why a dismissal has to be excluded: after one, the next install need not exceed the last; the
      same version is installed again. */
  lemma DismissalRepeatsInstall(installed: Version, sha: Option<string>, run: seq<Event>, v: Version)
    requires SteadyReleases(run)
    requires var s := Exec(installed, Other, sha, run); s.tasks == [] && s.status == Updated(v)
    ensures var s := Exec(installed, Other, sha, run + [Dismiss]);
            !NextExceeds(s, sha, v) && Cycle(s, Other, sha, v).installs == s.installs + [v]
  {
    hide Exec, Cycle, NextExceeds, Less;
    RunTruthful(installed, Other, sha, run);
    ExecAppend(installed, sha, run, Dismiss);
    SteadyAppend(run, Dismiss);
    NextExceedsIff(installed, sha, run + [Dismiss]);
    InstallsExceedInstalled(installed, sha, run + [Dismiss]);
    RunSingleFlight(installed, Other, sha, run + [Dismiss]);
    ForgottenRepeats(Exec(installed, Other, sha, run + [Dismiss]), sha, v);
  }

  /** A check that fails while fetching the release. */
  function FailedCheck(checkType: CheckType): seq<Event> {
    [Poll(checkType)] + [Advance(0, Done)] + [Advance(0, Failed)]
  }

  lemma FailedCheckForgets(installed: Version, sha: Option<string>, run: seq<Event>, checkType: CheckType)
    requires SteadyReleases(run) && Exec(installed, Other, sha, run).tasks == []
    ensures SteadyReleases(run + FailedCheck(checkType))
    ensures var s := Exec(installed, Other, sha, run + FailedCheck(checkType));
            s.tasks == [] && !s.status.Updated? && s.installs == Exec(installed, Other, sha, run).installs
  {
    hide Exec;
    RunSingleFlight(installed, Other, sha, run);
    var r1 := run + [Poll(checkType)];
    var r2 := r1 + [Advance(0, Done)];
    var r3 := r2 + [Advance(0, Failed)];
    assert run + FailedCheck(checkType) == r3;
    ExecAppend(installed, sha, run, Poll(checkType));
    ExecAppend(installed, sha, r1, Advance(0, Done));
    ExecAppend(installed, sha, r2, Advance(0, Failed));
    SteadyAppend(run, Poll(checkType));
    SteadyAppend(r1, Advance(0, Done));
    SteadyAppend(r2, Advance(0, Failed));
  }

  /** Why a failed check has to be excluded: it forgets the update just as a dismissal does. */
  lemma FailedCheckRepeatsInstall(installed: Version, sha: Option<string>, run: seq<Event>, checkType: CheckType, v: Version)
    requires SteadyReleases(run)
    requires var s := Exec(installed, Other, sha, run); s.tasks == [] && s.status == Updated(v)
    ensures var s := Exec(installed, Other, sha, run + FailedCheck(checkType));
            !NextExceeds(s, sha, v) && Cycle(s, Other, sha, v).installs == s.installs + [v]
  {
    hide Exec, Cycle, NextExceeds, Less, FailedCheck;
    var run' := run + FailedCheck(checkType);
    RunTruthful(installed, Other, sha, run);
    FailedCheckForgets(installed, sha, run, checkType);
    NextExceedsIff(installed, sha, run');
    InstallsExceedInstalled(installed, sha, run');
    RunSingleFlight(installed, Other, sha, run');
    ForgottenRepeats(Exec(installed, Other, sha, run'), sha, v);
  }

  // ---- The nightly channel ----

  /** The fetched build ends in the running commit. */
  predicate SameCommit(sha: Option<string>, v: Version) {
    sha.Some? && if v.build == [] then sha.value == "" else sha.value == v.build[|v.build| - 1]
  }

  /** A nightly update installs every version but the one it installed last, or, when the status names
      none, every version but a build of the running commit. Which is newer does not matter. */
  lemma NightlyInstalls(s: State, sha: Option<string>, v: Version)
    requires s.tasks == [] && !s.pending
    ensures s.status.Updated? ==>
              Cycle(s, Nightly, sha, v).installs == if v != s.status.version then s.installs + [v] else s.installs
    ensures !s.status.Updated? ==>
              Cycle(s, Nightly, sha, v).installs == if SameCommit(sha, v) then s.installs else s.installs + [v]
  {
    hide Cycle;
    CycleInstalls(s, Nightly, sha, v);
  }

  /** Whatever is installed next is not `last`. */
  ghost predicate NextDiffers(s: State, sha: Option<string>, last: Version) {
    forall v :: Cycle(s, Nightly, sha, v).installs == s.installs + [v] ==> v != last
  }

  /** After any nightly run without a live task, the last install is not repeated exactly when the status
      still names it or it is a build of the running commit. */
  lemma NightlyRepeatsIff(installed: Version, sha: Option<string>, run: seq<Event>)
    requires Exec(installed, Nightly, sha, run).tasks == [] && Exec(installed, Nightly, sha, run).installs != []
    ensures var s := Exec(installed, Nightly, sha, run);
            var last := s.installs[|s.installs| - 1];
            NextDiffers(s, sha, last) <==> s.status == Updated(last) || (!s.status.Updated? && SameCommit(sha, last))
  {
    hide Exec, Cycle, SameCommit;
    var s := Exec(installed, Nightly, sha, run);
    var last := s.installs[|s.installs| - 1];
    RunSingleFlight(installed, Nightly, sha, run);
    RunTruthful(installed, Nightly, sha, run);
    forall v ensures Cycle(s, Nightly, sha, v).installs in {s.installs, s.installs + [v]} {
      NightlyInstalls(s, sha, v);
    }
    NightlyInstalls(s, sha, last);
    assert s.installs != s.installs + [last];
  }

  // ---- The dismissed status ----

  /** `st` was dismissed at `k`, and since then no other status was and nobody polled by hand. */
  predicate DismissedAt(run: seq<Event>, k: nat, st: Status) {
    && k < |run| && run[k] == DismissStatus(st)
    && forall j :: k < j < |run| ==> !run[j].DismissStatus? && run[j] != Poll(Manual)
  }

  lemma StepDismissed(s: State, channel: Channel, sha: Option<string>, e: Event)
    ensures Step(s, channel, sha, e).dismissed
         == match e
            case DismissStatus(st) => Some(st)
            case Poll(checkType) => if checkType.Manual? then None else s.dismissed
            case _ => s.dismissed
  {
    hide CheckNewer;
  }

  /** In every run, the updater holds as dismissed the status dismissed last, until a manual poll. */
  lemma {:induction false} DismissedMeans(installed: Version, channel: Channel, sha: Option<string>, run: seq<Event>, st: Status)
    ensures Exec(installed, channel, sha, run).dismissed == Some(st) <==> exists k :: DismissedAt(run, k, st)
  {
    hide Step;
    if run != [] {
      var n := |run| - 1;
      DismissedMeans(installed, channel, sha, run[..n], st);
      StepDismissed(Exec(installed, channel, sha, run[..n]), channel, sha, run[n]);
      if run[n].DismissStatus? {
        assert run[n] == DismissStatus(st) ==> DismissedAt(run, n, st);
      } else if run[n] != Poll(Manual) {
        forall k: nat ensures DismissedAt(run[..n], k, st) <==> DismissedAt(run, k, st) {
          DismissedLater(run, k, st);
        }
      }
    }
  }

  lemma DismissedLater(run: seq<Event>, k: nat, st: Status)
    requires run != [] && !run[|run| - 1].DismissStatus? && run[|run| - 1] != Poll(Manual)
    ensures DismissedAt(run[..|run| - 1], k, st) <==> DismissedAt(run, k, st)
  {
    var init := run[..|run| - 1];
    assert forall j :: 0 <= j < |init| ==> init[j] == run[j];
  }

  // ---- What a failed check shows ----

  /** The check type of the last poll that found no update in flight. */
  function StartedBy(installed: Version, channel: Channel, sha: Option<string>, run: seq<Event>): Option<CheckType> {
    if run == [] then None else
      var init, e := run[..|run| - 1], run[|run| - 1];
      if e.Poll? && !Exec(installed, channel, sha, init).pending then Some(e.checkType)
      else StartedBy(installed, channel, sha, init)
  }

  lemma StepKeepsCheckType(s: State, channel: Channel, sha: Option<string>, e: Event)
    requires SingleFlight(s)
    ensures forall i :: 0 <= i < |Step(s, channel, sha, e).tasks| ==>
                          Step(s, channel, sha, e).tasks[i].checkType
                          == if e.Poll? && !s.pending then e.checkType else if |s.tasks| == 1 then s.tasks[0].checkType else Manual
    ensures Step(s, channel, sha, e).tasks != [] ==> (e.Poll? && !s.pending) || |s.tasks| == 1
  {
    hide CheckNewer;
  }

  /** The update in flight keeps the check type of the poll that started it, whatever is polled since. */
  lemma {:induction false} TaskKeepsCheckType(installed: Version, channel: Channel, sha: Option<string>, run: seq<Event>)
    ensures var s := Exec(installed, channel, sha, run);
            forall i :: 0 <= i < |s.tasks| ==> StartedBy(installed, channel, sha, run) == Some(s.tasks[i].checkType)
  {
    hide Step;
    if run != [] {
      var init := run[..|run| - 1];
      TaskKeepsCheckType(installed, channel, sha, init);
      RunSingleFlight(installed, channel, sha, init);
      StepKeepsCheckType(Exec(installed, channel, sha, init), channel, sha, run[|run| - 1]);
    }
  }

  /** The poll at `k` was manual, and no update was started since. */
  ghost predicate RaisedAt(installed: Version, channel: Channel, sha: Option<string>, run: seq<Event>, k: nat) {
    && k < |run| && run[k] == Poll(Manual)
    && forall j :: k < j < |run| && run[j].Poll? ==> Exec(installed, channel, sha, run[..j]).pending
  }

  /** In every run the updater says it checks by hand exactly when a poll was manual that started the
      latest update or came after. */
  lemma {:induction false} CheckTypeMeans(installed: Version, channel: Channel, sha: Option<string>, run: seq<Event>)
    ensures Exec(installed, channel, sha, run).checkType == Manual
            <==> exists k :: RaisedAt(installed, channel, sha, run, k)
  {
    hide Step;
    if run != [] {
      var n := |run| - 1;
      var s := Exec(installed, channel, sha, run[..n]);
      CheckTypeMeans(installed, channel, sha, run[..n]);
      StepCheckType(s, channel, sha, run[n]);
      if run[n] == Poll(Manual) {
        assert RaisedAt(installed, channel, sha, run, n);
      } else if !(run[n].Poll? && !s.pending) {
        forall k: nat ensures RaisedAt(installed, channel, sha, run[..n], k) <==> RaisedAt(installed, channel, sha, run, k) {
          RaisedLater(installed, channel, sha, run, k);
        }
      }
    }
  }

  lemma StepCheckType(s: State, channel: Channel, sha: Option<string>, e: Event)
    ensures Step(s, channel, sha, e).checkType
         == if e == Poll(Manual) then Manual
            else if e.Poll? && !s.pending then Automatic
            else s.checkType
  {
    hide CheckNewer;
  }

  lemma RaisedLater(installed: Version, channel: Channel, sha: Option<string>, run: seq<Event>, k: nat)
    requires run != [] && run[|run| - 1] != Poll(Manual)
    requires run[|run| - 1].Poll? ==> Exec(installed, channel, sha, run[..|run| - 1]).pending
    ensures RaisedAt(installed, channel, sha, run[..|run| - 1], k) <==> RaisedAt(installed, channel, sha, run, k)
  {
    hide Exec;
    var init := run[..|run| - 1];
    forall j | 0 <= j < |init| ensures init[j] == run[j] && init[..j] == run[..j] {
    }
  }

  /** In every run, a check that fails shows an error exactly when a dependency is missing or the poll
      that started it was manual; otherwise it ends quietly. */
  lemma FailureShownIff(installed: Version, channel: Channel, sha: Option<string>, run: seq<Event>, e: Event)
    requires Fails(Exec(installed, channel, sha, run), e)
    ensures var s := Exec(installed, channel, sha, run);
            Step(s, channel, sha, e).status
            == if (s.tasks[e.task].phase.Spawned? && e.reply.MissingDependency?)
                  || StartedBy(installed, channel, sha, run) == Some(Manual)
               then Errored else Idle
  {
    hide Exec, StartedBy;
    TaskKeepsCheckType(installed, channel, sha, run);
  }

  /** A manual poll during an automatic check changes what the updater says it does, and nothing else:
      the check still fails quietly. */
  lemma ManualPollComesTooLate(installed: Version, sha: Option<string>, run: seq<Event>)
    requires Exec(installed, Other, sha, run).tasks == []
    ensures var polls := [Poll(Automatic)] + [Poll(Manual)];
            var s := Exec(installed, Other, sha, run + polls + [Advance(0, Done)] + [Advance(0, Failed)]);
            s.checkType == Manual && s.status == Idle
  {
    hide Exec;
    var r1 := run + [Poll(Automatic)];
    var r2 := r1 + [Poll(Manual)];
    RunSingleFlight(installed, Other, sha, run);
    assert run + ([Poll(Automatic)] + [Poll(Manual)]) == r2;
    ExecAppend(installed, sha, run, Poll(Automatic));
    ExecAppend(installed, sha, r1, Poll(Manual));
    ExecAppend(installed, sha, r2, Advance(0, Done));
    ExecAppend(installed, sha, r2 + [Advance(0, Done)], Advance(0, Failed));
  }

  // ---- The updater as an object ----

  class Updater {
    var status: Status
    const installed: Version
    var pending: bool
    var tasks: seq<Task>
    var checkType: CheckType
    var dismissed: Option<Status>
    var installs: seq<Version>

    function Abstract(): State
      reads this
    {
      State(status, installed, pending, tasks, checkType, dismissed, installs)
    }

    constructor (version: Version)
      ensures Abstract() == Initial(version)
    {
      status, installed, pending, tasks := Idle, version, false, [];
      checkType, dismissed, installs := Automatic, None, [];
    }

    /** `poll` */
    method StartPolling(newType: CheckType)
      requires SingleFlight(Abstract())
      modifies this
      ensures Abstract() == StartPoll(old(Abstract()), newType) && SingleFlight(Abstract())
    {
      if newType == Manual {
        dismissed := None;
      }
      if pending {
        if checkType == Automatic {
          checkType := newType;
        }
        return;
      }
      checkType := newType;
      pending := true;
      tasks := tasks + [Task(newType, Spawned)];
    }

    /** `dismiss` */
    method DismissNow() returns (changed: bool)
      modifies this
      ensures changed <==> old(status) != Idle
      ensures Abstract() == old(Abstract()).(status := Idle)
    {
      if status.Idle? {
        return false;
      }
      status := Idle;
      return true;
    }

    /** The update task from one wait to the next. */
    method Resume(channel: Channel, sha: Option<string>, i: nat, reply: Reply)
      requires SingleFlight(Abstract()) && i < |tasks|
      modifies this
      ensures Abstract() == AdvanceTask(old(Abstract()), channel, sha, i, reply) && SingleFlight(Abstract())
    {
      StepSingleFlight(Abstract(), channel, sha, Advance(i, reply));
      var task := tasks[i];
      match task.phase {
        case Spawned =>
          if reply.MissingDependency? {
            Finish(i, Errored);
            return;
          }
          if reply.Failed? {
            Finish(i, if task.checkType.Manual? then Errored else Idle);
            return;
          }
          tasks := tasks[i := task.(phase := Fetching(status))];
          status := Checking;
        case Fetching(previous) =>
          if !reply.Release? {
            Finish(i, if task.checkType.Manual? then Errored else Idle);
            return;
          }
          var newer := CheckNewer(channel, sha, installed, reply.version, previous);
          if newer.None? {
            Finish(i, if previous.Updated? then previous else Idle);
            return;
          }
          status := Downloading(newer.value);
          tasks := tasks[i := task.(phase := Fetched(previous, newer.value))];
        case Fetched(previous, v) =>
          if !reply.Done? {
            Finish(i, if task.checkType.Manual? then Errored else Idle);
            return;
          }
          status := Installing(v);
          tasks := tasks[i := task.(phase := Downloaded(previous, v))];
        case Downloaded(_, v) =>
          if !reply.Done? {
            Finish(i, if task.checkType.Manual? then Errored else Idle);
            return;
          }
          Finish(i, Updated(v));
          installs := installs + [v];
      }
    }

    method Finish(i: nat, final: Status)
      requires i < |tasks|
      modifies this
      ensures Abstract() == DropTask(old(Abstract()), i).(status := final)
    {
      pending := false;
      tasks := tasks[..i] + tasks[i + 1..];
      status := final;
    }
  }
}
