/** Safety of the stale sweep over whole runs. */
module GuildSafety {
  import opened Wrappers
  import opened GuildBoard

  /** 14 and 7 days of 86400 seconds. */
  const CHECK_IN := 14 * 86400
  const GRACE := 7 * 86400

  /** The user was assigned or replied at time `t`. */
  ghost predicate Active(issue: Issue, user: User, t: nat) {
    || Assignment(user, t) in issue.timeline
    || exists c :: c in issue.comments && !c.marker && c.author == user && c.at == t
  }

  /** Everything on record happened before `limit`. */
  ghost predicate Past(issue: Issue, limit: nat) {
    && (forall c :: c in issue.comments ==> c.at < limit)
    && (forall a :: a in issue.timeline ==> a.at < limit)
  }

  /** When a check-in was posted, the user it greets had been silent for the whole window. */
  ghost predicate QuietBefore(issue: Issue) {
    forall c, t: nat :: c in issue.comments && c.marker && Active(issue, c.to, t) && t <= c.at ==> t + CHECK_IN <= c.at
  }

  /** Since the check-in before, the user that the next one greets had been heard of. */
  ghost predicate HeardBetween(issue: Issue) {
    forall c, d :: c in issue.comments && d in issue.comments && c.marker && d.marker && c.at < d.at ==>
                     Heard(issue, d.to, c.at, d.at)
  }

  ghost predicate Heard(issue: Issue, user: User, from: nat, until: nat) {
    exists t: nat :: from < t < until && Active(issue, user, t)
  }

  ghost predicate Recorded(issue: Issue) {
    forall u :: u in issue.assignees ==> WasAssigned(issue, u)
  }

  ghost predicate WasAssigned(issue: Issue, user: User) {
    exists a :: a in issue.timeline && a.user == user
  }

  ghost predicate History(issue: Issue, limit: nat) {
    Past(issue, limit) && QuietBefore(issue) && HeardBetween(issue) && Recorded(issue)
  }

  /** Every check-in of a member's present stint greets that member. */
  ghost predicate Addressed(issue: Issue, guild: set<User>) {
    forall u, c :: u in issue.assignees && u in guild && Counts(issue, c, u) ==> c.to == u
  }

  /** A check-in that is no older than the user's present assignment. */
  ghost predicate Counts(issue: Issue, c: Comment, user: User) {
    c in issue.comments && c.marker && StintIncludes(issue, user, c.at)
  }

  ghost predicate StintIncludes(issue: Issue, user: User, t: nat) {
    var since := LatestAssignment(issue.timeline, user);
    since.Some? && since.value <= t
  }

  // ---- The sweep's own view ----

  /** The last activity that the sweep computes is the latest time the user was active. */
  lemma LastActivityIsLatest(issue: Issue, user: User)
    requires LatestAssignment(issue.timeline, user).Some?
    ensures var last := LastActivity(issue.comments, user, LatestAssignment(issue.timeline, user).value);
            Active(issue, user, last) && forall t: nat :: Active(issue, user, t) ==> t <= last
  {
    var since := LatestAssignment(issue.timeline, user).value;
    var last := LastActivity(issue.comments, user, since);
    var i :| 0 <= i < |issue.timeline| && issue.timeline[i] == Assignment(user, since);
    assert Assignment(user, since) in issue.timeline;
    if last != since {
      var k :| 0 <= k < |issue.comments| && IsReply(issue.comments[k], user) && issue.comments[k].at == last;
      assert issue.comments[k] in issue.comments;
    }
  }

  lemma DaysMean(now: nat, then_: nat, d: nat)
    ensures Days(now, then_) < d <==> now - then_ < d * DAY
  {
  }

  /** When exactly the sweep nudges or clears. */
  lemma DecideMeans(issue: Issue, guild: set<User>, now: nat, user: User)
    requires Filter(issue.assignees, guild) != [] && Filter(issue.assignees, guild)[0] == user
    requires LatestAssignment(issue.timeline, user).Some?
    ensures var last := LastActivity(issue.comments, user, LatestAssignment(issue.timeline, user).value);
            var checkIn := LatestCheckIn(issue.comments);
            var pending := checkIn.Some? && last <= checkIn.value;
            var watched := !issue.archived && issue.status == InProgress && !issue.hold && !issue.closingPr;
            && (Decide(issue, guild, now) == Nudge(user) <==> watched && !pending && last + CHECK_IN <= now)
            && (Decide(issue, guild, now) == Clear(user) <==> watched && pending && checkIn.value + GRACE <= now)
  {
    var last := LastActivity(issue.comments, user, LatestAssignment(issue.timeline, user).value);
    DaysMean(now, last, CHECK_IN_AFTER_DAYS);
    if LatestCheckIn(issue.comments).Some? {
      DaysMean(now, LatestCheckIn(issue.comments).value, AUTO_CLEAR_AFTER_DAYS);
    }
  }

  // ---- What events do to an issue ----

  /** Cleared of these members: they are off the issue, which goes back to the column for its type, if it
      has a type; nothing else changes. */
  ghost predicate ClearedOf(issue: Issue, after: Issue, members: set<User>) {
    && (forall u :: u in after.assignees <==> u in issue.assignees && u !in members)
    && (issue.kind == Bug || issue.kind == Docs || issue.kind == Crash ==> after.status == BugBashers)
    && (issue.kind == Feature ==> after.status == ShipFeature)
    && (issue.kind == Untyped ==> after.status == issue.status)
    && after == issue.(assignees := after.assignees, status := after.status)
  }

  /** A sweep clears the issue of every member, or adds one check-in to the first member, or does nothing. */
  lemma SweepMeans(issue: Issue, members: set<User>, now: nat)
    ensures match Decide(issue, members, now)
            case Clear(_) => ClearedOf(issue, Sweep(issue, members, now), members)
            case Nudge(u) => Sweep(issue, members, now) == issue.(comments := issue.comments + [Comment(BOT, now, true, u)])
            case _ => Sweep(issue, members, now) == issue
  {
    hide Decide;
  }

  /** Taking a member off an issue in progress sends it back to the column for its type; taking off anyone
      else, or off an issue in another column, leaves the column. */
  lemma UnassignMeans(issue: Issue, members: set<User>, at: nat, u: User)
    ensures var after := Step(issue, members, Timed(at, Unassign(u)));
            if u in issue.assignees && u in members && issue.status == InProgress
            then ClearedOf(issue, after, {u})
            else after == issue.(assignees := after.assignees)
                 && forall v :: v in after.assignees <==> v in issue.assignees && v != u
  {
  }

  /** A new assignee comes last and is recorded; a member brings the issue into progress. */
  lemma AssignMeans(issue: Issue, members: set<User>, at: nat, u: User)
    ensures var after := Step(issue, members, Timed(at, Assign(u)));
            if u in issue.assignees then after == issue
            else after == issue.(assignees := issue.assignees + [u], timeline := issue.timeline + [Assignment(u, at)],
                                 status := if u in members then InProgress else issue.status)
  {
  }

  /** In every run: after a sweep that clears, the issue is in the column for its type, by name. */
  lemma RunCleared(kind: IssueType, guild: Membership, run: seq<Timed>, now: nat)
    requires Decide(Exec(kind, guild, run), guild(now), now).Clear?
    ensures var after := Exec(kind, guild, run + [Timed(now, StaleSweep)]);
            && ClearedOf(Exec(kind, guild, run), after, guild(now))
            && after.status == match kind
                               case Feature => ShipFeature
                               case Untyped => InProgress
                               case _ => BugBashers
  {
    hide Exec;
    ExecSnoc(kind, guild, run, Timed(now, StaleSweep));
    SweepMeans(Exec(kind, guild, run), guild(now), now);
    RunKind(kind, guild, run);
  }

  lemma {:induction false} RunKind(kind: IssueType, guild: Membership, run: seq<Timed>)
    ensures Exec(kind, guild, run).kind == kind
  {
    hide Decide;
    if run != [] {
      RunKind(kind, guild, run[..|run| - 1]);
    }
  }

  // ---- Steps keep the history ----

  /** Only later entries are added to the record. */
  ghost predicate Extends(issue: Issue, issue': Issue, limit: nat) {
    && (forall c :: c in issue.comments ==> c in issue'.comments)
    && (forall a :: a in issue.timeline ==> a in issue'.timeline)
    && (forall c :: c in issue'.comments && c !in issue.comments ==> c.at >= limit)
    && (forall a :: a in issue'.timeline && a !in issue.timeline ==> a.at >= limit)
  }

  lemma ActiveStays(issue: Issue, issue': Issue, limit: nat, user: User, t: nat)
    requires Extends(issue, issue', limit)
    ensures Active(issue, user, t) ==> Active(issue', user, t)
    ensures Active(issue', user, t) && t < limit ==> Active(issue, user, t)
  {
  }

  /** A step adds at most one comment, and a marker only when it is a quote or a nudge. */
  ghost predicate CommentsGrow(issue: Issue, issue': Issue, guild: set<User>, e: Timed) {
    || issue'.comments == issue.comments
    || exists c :: && issue'.comments == issue.comments + [c] && c.at == e.at
                   && (c.marker ==> e.event.Quote? || (e.event.StaleSweep? && Decide(issue, guild, e.at) == Nudge(c.to)))
                   && (e.event.StaleSweep? ==> c.marker)
  }

  /** A step adds at most the assignment of a user that was not assigned. */
  ghost predicate TimelineGrows(issue: Issue, issue': Issue, e: Timed) {
    if e.event.Assign? && e.event.user !in issue.assignees then
      && issue'.timeline == issue.timeline + [Assignment(e.event.user, e.at)]
      && issue'.assignees == issue.assignees + [e.event.user]
    else
      && issue'.timeline == issue.timeline
      && forall u :: u in issue'.assignees ==> u in issue.assignees
  }

  lemma StepCommentsGrow(issue: Issue, guild: set<User>, e: Timed)
    ensures CommentsGrow(issue, Step(issue, guild, e), guild, e)
  {
    hide Decide, Remove;
    var issue' := Step(issue, guild, e);
    match e.event
    case Reply(u) => assert issue'.comments == issue.comments + [Comment(u, e.at, false, "")];
    case Quote(u) => assert issue'.comments == issue.comments + [Comment(u, e.at, true, "")];
    case StaleSweep =>
      var d := Decide(issue, guild, e.at);
      if d.Nudge? {
        assert issue'.comments == issue.comments + [Comment(BOT, e.at, true, d.user)];
      }
    case _ =>
  }

  lemma StepTimelineGrows(issue: Issue, guild: set<User>, e: Timed)
    ensures TimelineGrows(issue, Step(issue, guild, e), e)
  {
    hide Decide;
  }

  lemma StepGrows(issue: Issue, guild: set<User>, e: Timed)
    ensures CommentsGrow(issue, Step(issue, guild, e), guild, e)
    ensures TimelineGrows(issue, Step(issue, guild, e), e)
  {
    hide Step;
    StepCommentsGrow(issue, guild, e);
    StepTimelineGrows(issue, guild, e);
  }

  lemma StepExtends(issue: Issue, guild: set<User>, e: Timed, limit: nat)
    requires limit <= e.at
    ensures Extends(issue, Step(issue, guild, e), limit)
    ensures Past(issue, limit) ==> Past(Step(issue, guild, e), e.at + 1)
  {
    hide Step, Decide;
    StepGrows(issue, guild, e);
  }

  /** The only marker a step adds is the check-in of a sweep that nudges. */
  lemma NewMarker(issue: Issue, guild: set<User>, e: Timed, c: Comment)
    requires !e.event.Quote?
    requires c in Step(issue, guild, e).comments && c !in issue.comments && c.marker
    ensures e.event.StaleSweep? && c.at == e.at && Decide(issue, guild, e.at) == Nudge(c.to)
  {
    hide Step, Decide;
    StepGrows(issue, guild, e);
  }

  lemma NudgeQuiet(issue: Issue, guild: set<User>, now: nat, user: User, t: nat)
    requires Decide(issue, guild, now) == Nudge(user) && Active(issue, user, t)
    ensures t + CHECK_IN <= now
  {
    DecideMeans(issue, guild, now, user);
    LastActivityIsLatest(issue, user);
  }

  lemma NudgeHeard(issue: Issue, guild: set<User>, now: nat, user: User, c: Comment)
    requires Decide(issue, guild, now) == Nudge(user) && c in issue.comments && c.marker
    ensures Heard(issue, user, c.at, now)
  {
    DecideMeans(issue, guild, now, user);
    LastActivityIsLatest(issue, user);
    var i :| 0 <= i < |issue.comments| && issue.comments[i] == c;
    assert LatestCheckIn(issue.comments).Some? && c.at <= LatestCheckIn(issue.comments).value;
  }

  lemma StepQuiet(issue: Issue, guild: set<User>, e: Timed, limit: nat)
    requires Past(issue, limit) && limit <= e.at && QuietBefore(issue) && !e.event.Quote?
    ensures QuietBefore(Step(issue, guild, e))
  {
    hide Step, Decide, Active;
    var issue' := Step(issue, guild, e);
    StepExtends(issue, guild, e, limit);
    forall c, t: nat | c in issue'.comments && c.marker && Active(issue', c.to, t) && t <= c.at
      ensures t + CHECK_IN <= c.at
    {
      ActiveStays(issue, issue', limit, c.to, t);
      if c in issue.comments {
        assert t < limit;
      } else {
        NewMarker(issue, guild, e, c);
        NudgeNoActivity(issue, guild, e, c.to, t);
        NudgeQuiet(issue, guild, e.at, c.to, t);
      }
    }
  }

  /** A nudge is no activity of the user. */
  lemma NudgeNoActivity(issue: Issue, guild: set<User>, e: Timed, user: User, t: nat)
    requires e.event.StaleSweep? && Active(Step(issue, guild, e), user, t)
    ensures Active(issue, user, t)
  {
    hide Step, Decide;
    StepGrows(issue, guild, e);
  }

  lemma StepHeard(issue: Issue, guild: set<User>, e: Timed, limit: nat)
    requires Past(issue, limit) && limit <= e.at && HeardBetween(issue) && !e.event.Quote?
    ensures HeardBetween(Step(issue, guild, e))
  {
    hide Step, Decide, Active;
    var issue' := Step(issue, guild, e);
    StepExtends(issue, guild, e, limit);
    forall c, d | c in issue'.comments && d in issue'.comments && c.marker && d.marker && c.at < d.at
      ensures Heard(issue', d.to, c.at, d.at)
    {
      if d in issue.comments {
        assert c in issue.comments;
        assert Heard(issue, d.to, c.at, d.at);
      } else {
        NewMarker(issue, guild, e, d);
        if c !in issue.comments {
          NewMarker(issue, guild, e, c);
        }
        NudgeHeard(issue, guild, e.at, d.to, c);
      }
      var t: nat :| c.at < t < d.at && Active(issue, d.to, t);
      ActiveStays(issue, issue', limit, d.to, t);
    }
  }

  lemma StepRecorded(issue: Issue, guild: set<User>, e: Timed)
    requires Recorded(issue)
    ensures Recorded(Step(issue, guild, e))
  {
    hide Step, Decide;
    StepGrows(issue, guild, e);
    var issue' := Step(issue, guild, e);
    forall u | u in issue'.assignees ensures WasAssigned(issue', u) {
      if u in issue.assignees {
        var a :| a in issue.timeline && a.user == u;
        assert a in issue'.timeline;
      } else {
        assert Assignment(u, e.at) in issue'.timeline;
      }
    }
  }

  lemma AssignedHasTime(issue: Issue, user: User)
    requires WasAssigned(issue, user)
    ensures LatestAssignment(issue.timeline, user).Some?
  {
    var a :| a in issue.timeline && a.user == user;
    var i :| 0 <= i < |issue.timeline| && issue.timeline[i] == a;
  }

  lemma {:induction false} RunRecorded(kind: IssueType, guild: Membership, run: seq<Timed>)
    ensures Recorded(Exec(kind, guild, run))
  {
    hide Step;
    if run != [] {
      RunRecorded(kind, guild, run[..|run| - 1]);
      StepRecorded(Exec(kind, guild, run[..|run| - 1]), guild(run[|run| - 1].at), run[|run| - 1]);
    }
  }

  /** In no run does the sweep meet an assignee without an assignment event. */
  lemma NeverBroken(kind: IssueType, guild: Membership, run: seq<Timed>, now: nat)
    ensures !Decide(Exec(kind, guild, run), guild(now), now).Broken?
  {
    var issue := Exec(kind, guild, run);
    var members := Filter(issue.assignees, guild(now));
    RunRecorded(kind, guild, run);
    if members != [] {
      assert members[0] in members;
      AssignedHasTime(issue, members[0]);
    }
  }

  /** The board whose issues went through these runs. */
  function BoardOf(kinds: seq<IssueType>, guild: Membership, runs: seq<seq<Timed>>): seq<Issue>
    requires |kinds| == |runs|
  {
    seq(|runs|, i requires 0 <= i < |runs| => Exec(kinds[i], guild, runs[i]))
  }

  /** A sweep over a board is one more step in the run of each of its issues. */
  lemma BoardSweeps(kinds: seq<IssueType>, guild: Membership, runs: seq<seq<Timed>>, now: nat)
    requires |kinds| == |runs|
    ensures forall i :: 0 <= i < |runs| ==>
                          SweepAll(BoardOf(kinds, guild, runs), guild(now), now).items[i]
                          == Exec(kinds[i], guild, runs[i] + [Timed(now, StaleSweep)])
  {
    hide Decide, Exec, SweepAll, Sweep;
    var items := BoardOf(kinds, guild, runs);
    forall i | 0 <= i < |items| ensures !Decide(items[i], guild(now), now).Broken? {
      NeverBroken(kinds[i], guild, runs[i], now);
    }
    SweepAllMeans(items, guild(now), now, |items|);
    forall i | 0 <= i < |runs|
      ensures SweepAll(items, guild(now), now).items[i] == Exec(kinds[i], guild, runs[i] + [Timed(now, StaleSweep)])
    {
      ExecSnoc(kinds[i], guild, runs[i], Timed(now, StaleSweep));
    }
  }

  // ---- One member at a time ----

  lemma LatestAfterAppend(timeline: seq<Assignment>, a: Assignment, user: User)
    ensures LatestAssignment(timeline + [a], user)
         == if a.user == user then Later(LatestAssignment(timeline, user), a.at) else LatestAssignment(timeline, user)
  {
    assert (timeline + [a])[..|timeline|] == timeline;
  }

  lemma StepAddressed(issue: Issue, guild: set<User>, ever: set<User>, e: Timed, limit: nat)
    requires Past(issue, limit) && limit <= e.at && !e.event.Quote? && guild <= ever
    requires Addressed(issue, ever) && AtMostOne(issue, ever)
    ensures Addressed(Step(issue, guild, e), ever)
  {
    hide Step, Decide;
    StepGrows(issue, guild, e);
    var issue' := Step(issue, guild, e);
    forall u, c | u in issue'.assignees && u in ever && Counts(issue', c, u) ensures c.to == u {
      StintCarriesOver(issue, issue', e, u, c.at);
      if c in issue.comments {
        assert Counts(issue, c, u);
      } else {
        NewMarker(issue, guild, e, c);
        NudgesMember(issue, guild, e.at, c.to);
      }
    }
  }

  lemma StintCarriesOver(issue: Issue, issue': Issue, e: Timed, user: User, t: nat)
    requires TimelineGrows(issue, issue', e) && user in issue'.assignees && StintIncludes(issue', user, t)
    ensures t < e.at ==> user in issue.assignees && StintIncludes(issue, user, t)
    ensures e.event.StaleSweep? ==> user in issue.assignees
  {
    if e.event.Assign? && e.event.user !in issue.assignees {
      LatestAfterAppend(issue.timeline, Assignment(e.event.user, e.at), user);
    }
  }

  lemma NudgesMember(issue: Issue, guild: set<User>, now: nat, user: User)
    requires Decide(issue, guild, now) in {Nudge(user), Clear(user)}
    ensures user in issue.assignees && user in guild
  {
    var members := Filter(issue.assignees, guild);
    assert members[0] in members;
  }

  // ---- Runs ----

  function Horizon(run: seq<Timed>): nat {
    if run == [] then 0 else run[|run| - 1].at + 1
  }

  lemma {:induction false} RunHistory(kind: IssueType, guild: Membership, run: seq<Timed>)
    requires Ordered(run) && NoQuotes(run)
    ensures History(Exec(kind, guild, run), Horizon(run))
  {
    hide Step;
    if run != [] {
      var n := |run| - 1;
      RunHistory(kind, guild, run[..n]);
      var issue, e, limit := Exec(kind, guild, run[..n]), run[n], Horizon(run[..n]);
      StepExtends(issue, guild(e.at), e, limit);
      StepQuiet(issue, guild(e.at), e, limit);
      StepHeard(issue, guild(e.at), e, limit);
      StepRecorded(issue, guild(e.at), e);
    }
  }

  lemma {:induction false} RunAddressed(kind: IssueType, guild: Membership, ever: set<User>, run: seq<Timed>)
    requires Ordered(run) && NoQuotes(run) && Within(guild, ever) && OneMember(kind, guild, ever, run)
    ensures Addressed(Exec(kind, guild, run), ever)
  {
    hide Step, History;
    if run != [] {
      var n := |run| - 1;
      forall k | 0 <= k <= n ensures AtMostOne(Exec(kind, guild, run[..n][..k]), ever) {
        assert run[..n][..k] == run[..k];
      }
      RunAddressed(kind, guild, ever, run[..n]);
      RunHistory(kind, guild, run[..n]);
      HistoryPast(Exec(kind, guild, run[..n]), Horizon(run[..n]));
      assert AtMostOne(Exec(kind, guild, run[..n]), ever);
      StepAddressed(Exec(kind, guild, run[..n]), guild(run[n].at), ever, run[n], Horizon(run[..n]));
    }
  }

  lemma HistoryPast(issue: Issue, limit: nat)
    requires History(issue, limit)
    ensures Past(issue, limit)
  {
  }

  /** A clear that rests on a check-in greeting the cleared user comes at least 21 days after
      everything that user did: 14 before the check-in and 7 after it. */
  lemma ClearIsSafe(issue: Issue, guild: set<User>, limit: nat, now: nat, user: User, c: Comment, t: nat)
    requires History(issue, limit) && Decide(issue, guild, now) == Clear(user)
    requires c in issue.comments && c.marker && LatestCheckIn(issue.comments) == Some(c.at) && c.to == user
    requires Active(issue, user, t)
    ensures t + CHECK_IN <= c.at && c.at + GRACE <= now
  {
    DecideMeans(issue, guild, now, user);
    LastActivityIsLatest(issue, user);
  }

  /** The sweep takes the user off the issue. */
  predicate Removed(issue: Issue, guild: set<User>, now: nat, user: User) {
    user in issue.assignees && user !in Sweep(issue, guild, now).assignees
  }

  /** A sweep that clears takes every guild member off the issue, and nothing else takes anyone off. */
  lemma RemovedIff(issue: Issue, guild: set<User>, now: nat, user: User)
    ensures Removed(issue, guild, now, user) <==>
              Decide(issue, guild, now).Clear? && user in issue.assignees && user in guild
  {
    hide Decide;
  }

  /** Whoever a sweep removes, the latest check-in is a week old. It is of the removed member's present
      stint, with no activity since, if that is the member the sweep looked at, or the only one. In
      every run where only the bot writes the marker and no two users who are ever members are assigned
      at once, it also came after 14 days of silence. */
  lemma ClearedOnlyWhenQuiet(kind: IssueType, guild: Membership, ever: set<User>, run: seq<Timed>, now: nat, user: User, t: nat)
    requires Ordered(run) && Horizon(run) <= now && Within(guild, ever)
    requires Removed(Exec(kind, guild, run), guild(now), now, user) && Active(Exec(kind, guild, run), user, t)
    ensures var issue := Exec(kind, guild, run);
            var checkIn := LatestCheckIn(issue.comments);
            && checkIn.Some? && checkIn.value + GRACE <= now
            && (Decide(issue, guild(now), now) == Clear(user) || AtMostOne(issue, guild(now)) ==>
                  StintIncludes(issue, user, checkIn.value) && t <= checkIn.value)
            && (NoQuotes(run) && OneMember(kind, guild, ever, run) ==> t + CHECK_IN <= checkIn.value)
  {
    hide Exec, Active, History, OneMember, Removed, Decide;
    var issue := Exec(kind, guild, run);
    RemovedIff(issue, guild(now), now, user);
    var first := Decide(issue, guild(now), now).user;
    FirstIsMember(issue, guild(now), now, first);
    DecideMeans(issue, guild(now), now, first);
    LastActivityIsLatest(issue, first);
    if NoQuotes(run) && OneMember(kind, guild, ever, run) {
      OneMemberNow(kind, guild, ever, run);
      QuietBeforeClear(kind, guild, ever, run, now, user, t);
    }
  }

  lemma FirstIsMember(issue: Issue, guild: set<User>, now: nat, user: User)
    requires Decide(issue, guild, now) == Clear(user)
    ensures Filter(issue.assignees, guild) != [] && Filter(issue.assignees, guild)[0] == user
    ensures user in issue.assignees && user in guild && LatestAssignment(issue.timeline, user).Some?
  {
    NudgesMember(issue, guild, now, user);
  }

  lemma OneMemberNow(kind: IssueType, guild: Membership, ever: set<User>, run: seq<Timed>)
    requires OneMember(kind, guild, ever, run)
    ensures AtMostOne(Exec(kind, guild, run), ever)
  {
    hide Exec;
    assert run[..|run|] == run;
  }

  lemma QuietBeforeClear(kind: IssueType, guild: Membership, ever: set<User>, run: seq<Timed>, now: nat, user: User, t: nat)
    requires Ordered(run) && NoQuotes(run) && Within(guild, ever) && OneMember(kind, guild, ever, run)
    requires Decide(Exec(kind, guild, run), guild(now), now) == Clear(user)
    requires Active(Exec(kind, guild, run), user, t)
    ensures var checkIn := LatestCheckIn(Exec(kind, guild, run).comments);
            checkIn.Some? && t + CHECK_IN <= checkIn.value
  {
    hide Exec, Active, History, Decide;
    var issue := Exec(kind, guild, run);
    RunHistory(kind, guild, run);
    RunAddressed(kind, guild, ever, run);
    FirstIsMember(issue, guild(now), now, user);
    DecideMeans(issue, guild(now), now, user);
    LastActivityIsLatest(issue, user);
    var i :| 0 <= i < |issue.comments| && issue.comments[i].marker
             && issue.comments[i].at == LatestCheckIn(issue.comments).value;
    var c := issue.comments[i];
    assert user in ever;
    assert Counts(issue, c, user);
    ClearIsSafe(issue, guild(now), Horizon(run), now, user, c, t);
  }

  // ---- Progress ----

  /** The sweep watches the issue, and the user is the guild member it looks at. */
  predicate Watches(issue: Issue, guild: set<User>, user: User) {
    && !issue.archived && issue.status == InProgress && !issue.hold && !issue.closingPr
    && Filter(issue.assignees, guild) != [] && Filter(issue.assignees, guild)[0] == user
  }

  /** The user did nothing after `t`. */
  ghost predicate SilentSince(issue: Issue, user: User, t: nat) {
    Active(issue, user, t) && forall t': nat :: Active(issue, user, t') ==> t' <= t
  }

  /** In every run: a watched member who has been silent since `t`, with no check-in since, is greeted
      by any sweep from 14 days after `t` on, and no sweep before. */
  lemma SilentIsNudged(kind: IssueType, guild: Membership, run: seq<Timed>, user: User, t: nat, now: nat)
    requires var issue := Exec(kind, guild, run);
             Watches(issue, guild(now), user) && SilentSince(issue, user, t)
    requires forall c :: c in Exec(kind, guild, run).comments && c.marker ==> c.at < t
    ensures var issue := Exec(kind, guild, run);
            Sweep(issue, guild(now), now) == if t + CHECK_IN <= now
                                        then issue.(comments := issue.comments + [Comment(BOT, now, true, user)])
                                        else issue
  {
    hide Exec, Decide, Active;
    var issue := Exec(kind, guild, run);
    WatchedHasTime(kind, guild, run, guild(now), user);
    DecideMeans(issue, guild(now), now, user);
    LastActivityIsLatest(issue, user);
    WatchedChoices(issue, guild(now), now, user);
    if LatestCheckIn(issue.comments).Some? {
      var i :| 0 <= i < |issue.comments| && issue.comments[i].marker
               && issue.comments[i].at == LatestCheckIn(issue.comments).value;
      assert issue.comments[i] in issue.comments;
    }
  }

  lemma WatchedHasTime(kind: IssueType, guild: Membership, run: seq<Timed>, members: set<User>, user: User)
    requires Watches(Exec(kind, guild, run), members, user)
    ensures LatestAssignment(Exec(kind, guild, run).timeline, user).Some?
  {
    hide Exec;
    var issue := Exec(kind, guild, run);
    RunRecorded(kind, guild, run);
    assert Filter(issue.assignees, members)[0] in Filter(issue.assignees, members);
    AssignedHasTime(issue, user);
  }

  lemma WatchedChoices(issue: Issue, guild: set<User>, now: nat, user: User)
    requires Watches(issue, guild, user) && LatestAssignment(issue.timeline, user).Some?
    ensures Decide(issue, guild, now) in {Skip, Nudge(user), Clear(user)}
  {
  }

  /** In every run: a watched member with a check-in at `c` and no activity after it is removed, and
      with that member every other guild member, by any sweep from 7 days after the latest check-in on. */
  lemma SilentIsRemoved(kind: IssueType, guild: Membership, run: seq<Timed>, user: User, t: nat, c: nat, now: nat)
    requires var issue := Exec(kind, guild, run);
             Watches(issue, guild(now), user) && SilentSince(issue, user, t)
    requires LatestCheckIn(Exec(kind, guild, run).comments) == Some(c) && t <= c
    ensures var issue := Exec(kind, guild, run);
            if c + GRACE <= now then
              ClearedOf(issue, Sweep(issue, guild(now), now), guild(now))
            else
              Sweep(issue, guild(now), now) == issue
  {
    hide Exec, Decide, Active, Sweep, ClearedOf;
    var issue := Exec(kind, guild, run);
    WatchedHasTime(kind, guild, run, guild(now), user);
    DecideMeans(issue, guild(now), now, user);
    LastActivityIsLatest(issue, user);
    WatchedChoices(issue, guild(now), now, user);
    SweepMeans(issue, guild(now), now);
  }

  lemma CheckInAppended(comments: seq<Comment>, c: Comment)
    requires c.marker && forall d :: d in comments && d.marker ==> d.at <= c.at
    ensures LatestCheckIn(comments + [c]) == Some(c.at)
  {
    assert (comments + [c])[..|comments|] == comments;
    var r := LatestCheckIn(comments);
    if r.Some? {
      var i :| 0 <= i < |comments| && comments[i].marker && comments[i].at == r.value;
      assert comments[i] in comments;
    }
  }

  lemma NudgedStaysSilent(issue: Issue, user: User, t: nat, now: nat)
    requires SilentSince(issue, user, t)
    ensures SilentSince(issue.(comments := issue.comments + [Comment(BOT, now, true, user)]), user, t)
  {
    var issue' := issue.(comments := issue.comments + [Comment(BOT, now, true, user)]);
    forall t': nat ensures Active(issue', user, t') <==> Active(issue, user, t') {
    }
  }

  /** The event is not a sign of life of the user, and no one's comment with the marker. */
  predicate LeavesSilent(e: Event, user: User) {
    !e.Quote? && e != Assign(user) && e != Reply(user)
  }

  /** Since the check-in at `c`, nothing more was heard of the user and no other check-in was posted. */
  ghost predicate Pending(issue: Issue, user: User, t: nat, c: nat) {
    SilentSince(issue, user, t) && LatestCheckIn(issue.comments) == Some(c) && t <= c
  }

  lemma CheckInKept(comments: seq<Comment>, c: Comment)
    requires !c.marker
    ensures LatestCheckIn(comments + [c]) == LatestCheckIn(comments)
  {
    assert (comments + [c])[..|comments|] == comments;
  }

  lemma OtherEventKeepsPending(issue: Issue, members: set<User>, e: Timed, user: User, t: nat, c: nat)
    requires Pending(issue, user, t, c) && LeavesSilent(e.event, user) && !e.event.StaleSweep?
    ensures Pending(Step(issue, members, e), user, t, c)
  {
    hide Remove;
    var issue' := Step(issue, members, e);
    if e.event.Reply? {
      CheckInKept(issue.comments, Comment(e.event.user, e.at, false, ""));
    }
    forall t': nat ensures Active(issue', user, t') <==> Active(issue, user, t') {
      ActiveUnheard(issue, issue', user, t', e);
    }
  }

  lemma ActiveUnheard(issue: Issue, issue': Issue, user: User, t: nat, e: Timed)
    requires LeavesSilent(e.event, user)
    requires issue'.comments == issue.comments
             || (e.event.Reply? && issue'.comments == issue.comments + [Comment(e.event.user, e.at, false, "")])
    requires issue'.timeline == issue.timeline
             || (e.event.Assign? && issue'.timeline == issue.timeline + [Assignment(e.event.user, e.at)])
    ensures Active(issue', user, t) <==> Active(issue, user, t)
  {
  }

  /** A sweep of a pending issue either does nothing or removes every member. */
  lemma SweepOfPending(kind: IssueType, guild: Membership, run: seq<Timed>, user: User, t: nat, c: nat, now: nat)
    requires var issue := Exec(kind, guild, run); Watches(issue, guild(now), user) && Pending(issue, user, t, c)
    ensures var issue := Exec(kind, guild, run);
            if c + GRACE <= now then
              ClearedOf(issue, Sweep(issue, guild(now), now), guild(now))
            else
              Sweep(issue, guild(now), now) == issue
  {
    hide Exec, Sweep, Watches, SilentSince;
    SilentIsRemoved(kind, guild, run, user, t, c, now);
  }

  /** From `run` on, with `mid` next and a sweep at `now` after it, the sweep always watches the user. */
  ghost predicate WatchedThrough(kind: IssueType, guild: Membership, run: seq<Timed>, mid: seq<Timed>, now: nat, user: User) {
    && (forall k :: 0 <= k < |mid| ==> Watches(Exec(kind, guild, run + mid[..k]), guild(mid[k].at), user))
    && Watches(Exec(kind, guild, run + mid), guild(now), user)
  }

  /** While the user is watched and silent, no sweep in between has had reason to act. */
  lemma {:induction false} PendingStays(kind: IssueType, guild: Membership, run: seq<Timed>, mid: seq<Timed>, user: User, t: nat, c: nat)
    requires Pending(Exec(kind, guild, run), user, t, c)
    requires forall k :: 0 <= k < |mid| ==> LeavesSilent(mid[k].event, user)
    requires forall k :: 0 <= k < |mid| ==> Watches(Exec(kind, guild, run + mid[..k]), guild(mid[k].at), user)
    requires user in Exec(kind, guild, run + mid).assignees
    ensures Pending(Exec(kind, guild, run + mid), user, t, c)
    decreases |mid|
  {
    hide Exec, Pending, Step, Watches, Sweep;
    if mid == [] {
      assert run + mid == run;
    } else {
      var n := |mid| - 1;
      var init, e := mid[..n], mid[n];
      var before := Exec(kind, guild, run + init);
      forall k | 0 <= k < n ensures Watches(Exec(kind, guild, run + init[..k]), guild(init[k].at), user) {
        assert init[..k] == mid[..k];
      }
      assert Watches(before, guild(e.at), user);
      WatchedIsMember(before, guild(e.at), user);
      PendingStays(kind, guild, run, init, user, t, c);
      assert run + mid == run + init + [e];
      ExecSnoc(kind, guild, run + init, e);
      if e.event.StaleSweep? {
        SweepOfPending(kind, guild, run + init, user, t, c, e.at);
        StepSweeps(before, guild(e.at), e);
      } else {
        OtherEventKeepsPending(before, guild(e.at), e, user, t, c);
      }
    }
  }

  lemma StepSweeps(issue: Issue, members: set<User>, e: Timed)
    requires e.event.StaleSweep?
    ensures Step(issue, members, e) == Sweep(issue, members, e.at)
  {
  }

  lemma WatchedIsMember(issue: Issue, members: set<User>, user: User)
    requires Watches(issue, members, user)
    ensures user in issue.assignees && user in members
  {
    assert Filter(issue.assignees, members)[0] in Filter(issue.assignees, members);
  }

  lemma NudgeMakesPending(kind: IssueType, guild: Membership, run: seq<Timed>, user: User, t: nat, now: nat)
    requires var issue := Exec(kind, guild, run);
             Watches(issue, guild(now), user) && SilentSince(issue, user, t)
    requires forall c :: c in Exec(kind, guild, run).comments && c.marker ==> c.at < t
    requires t + CHECK_IN <= now
    ensures Pending(Exec(kind, guild, run + [Timed(now, StaleSweep)]), user, t, now)
  {
    hide Exec, Sweep, Watches, SilentSince;
    var issue, greeted := Exec(kind, guild, run), Comment(BOT, now, true, user);
    SilentIsNudged(kind, guild, run, user, t, now);
    ExecSnoc(kind, guild, run, Timed(now, StaleSweep));
    CheckInAppended(issue.comments, greeted);
    NudgedStaysSilent(issue, user, t, now);
  }

  /** In every run: a watched member who stays silent is gone after two sweeps, one from 14 days after
      the last activity on and one a week or more after that, and with that member every other one;
      whatever else happens in between, as long as the sweep goes on watching that member. */
  lemma SilenceEndsAssignment(kind: IssueType, guild: Membership, run: seq<Timed>, mid: seq<Timed>, user: User,
                              t: nat, n1: nat, n2: nat)
    requires var issue := Exec(kind, guild, run);
             Watches(issue, guild(n1), user) && SilentSince(issue, user, t)
    requires forall c :: c in Exec(kind, guild, run).comments && c.marker ==> c.at < t
    requires t + CHECK_IN <= n1 && n1 + GRACE <= n2
    requires forall k :: 0 <= k < |mid| ==> LeavesSilent(mid[k].event, user)
    requires WatchedThrough(kind, guild, run + [Timed(n1, StaleSweep)], mid, n2, user)
    ensures var before := run + [Timed(n1, StaleSweep)] + mid;
            var after := Exec(kind, guild, before + [Timed(n2, StaleSweep)]);
            ClearedOf(Exec(kind, guild, before), after, guild(n2))
  {
    hide Exec, Sweep, Watches, SilentSince, Pending, Step, ClearedOf;
    var run1 := run + [Timed(n1, StaleSweep)];
    var before := Exec(kind, guild, run1 + mid);
    NudgeMakesPending(kind, guild, run, user, t, n1);
    WatchedIsMember(before, guild(n2), user);
    PendingStays(kind, guild, run1, mid, user, t, n1);
    SweepOfPending(kind, guild, run1 + mid, user, t, n1, n2);
    ExecSnoc(kind, guild, run1 + mid, Timed(n2, StaleSweep));
    StepSweeps(before, guild(n2), Timed(n2, StaleSweep));
  }

  /** Between any two check-ins of a run the user greeted by the later one was assigned or replied. */
  lemma CheckInsSeparated(kind: IssueType, guild: Membership, run: seq<Timed>, c: Comment, d: Comment)
    requires Ordered(run) && NoQuotes(run)
    requires var issue := Exec(kind, guild, run); c in issue.comments && d in issue.comments
    requires c.marker && d.marker && c.at < d.at
    ensures Heard(Exec(kind, guild, run), d.to, c.at, d.at)
  {
    hide Exec;
    RunHistory(kind, guild, run);
  }

  /** The hold label was set and not taken off since, and the same for a closing pull request. */
  ghost predicate HeldSince(run: seq<Timed>, j: nat) {
    && j < |run| && run[j].event == SetHold(true)
    && forall i :: j < i < |run| ==> run[i].event != SetHold(false)
  }

  ghost predicate ClosingSince(run: seq<Timed>, j: nat) {
    && j < |run| && run[j].event == SetClosingPr(true)
    && forall i :: j < i < |run| ==> run[i].event != SetClosingPr(false)
  }

  lemma StepKeepsHold(issue: Issue, guild: set<User>, e: Timed)
    ensures !e.event.SetHold? ==> Step(issue, guild, e).hold == issue.hold
    ensures !e.event.SetClosingPr? ==> Step(issue, guild, e).closingPr == issue.closingPr
  {
    hide Decide;
  }

  lemma {:induction false} HoldStays(kind: IssueType, guild: Membership, run: seq<Timed>, j: nat)
    ensures HeldSince(run, j) ==> Exec(kind, guild, run).hold
    ensures ClosingSince(run, j) ==> Exec(kind, guild, run).closingPr
  {
    if j < |run| {
      var init, e := run[..|run| - 1], run[|run| - 1];
      StepKeepsHold(Exec(kind, guild, init), guild(e.at), e);
      if j < |init| {
        HoldStays(kind, guild, init, j);
      }
    }
  }

  /** In every run, no sweep posts a check-in or clears anyone after the hold label was set or a
      closing pull request linked, until that is undone. */
  lemma HoldStopsSweep(kind: IssueType, guild: Membership, run: seq<Timed>, j: nat, now: nat)
    requires HeldSince(run, j) || ClosingSince(run, j)
    ensures Exec(kind, guild, run + [Timed(now, StaleSweep)]) == Exec(kind, guild, run)
  {
    HoldStays(kind, guild, run, j);
    ExecSnoc(kind, guild, run, Timed(now, StaleSweep));
  }

  // ---- The promise, guild by guild ----

  /** Whoever a sweep at `now` removes had done nothing for 14 + 7 days. */
  ghost predicate ClearsQuietly(kind: IssueType, guild: Membership, run: seq<Timed>, now: nat) {
    var issue := Exec(kind, guild, run);
    forall u, t: nat :: Removed(issue, guild(now), now, u) && Active(issue, u, t) ==> t + CHECK_IN + GRACE <= now
  }

  /** No run of an issue of this kind, without quotes, clears too early, whoever of `ever` is a guild
      member at which time. */
  ghost predicate KeepsPromise(kind: IssueType, ever: set<User>) {
    forall guild: Membership, run: seq<Timed>, now: nat ::
      Within(guild, ever) && Ordered(run) && NoQuotes(run) && Horizon(run) <= now ==> ClearsQuietly(kind, guild, run, now)
  }

  predicate NoTwoMembers(guild: set<User>) {
    forall u, v :: u in guild && v in guild ==> u == v
  }

  lemma OneMemberKeepsPromise(kind: IssueType, guild: Membership, ever: set<User>, run: seq<Timed>, now: nat)
    requires NoTwoMembers(ever) && Within(guild, ever) && Ordered(run) && NoQuotes(run) && Horizon(run) <= now
    ensures ClearsQuietly(kind, guild, run, now)
  {
    hide Decide, Exec, Active, Removed;
    var issue := Exec(kind, guild, run);
    forall u, t: nat | Removed(issue, guild(now), now, u) && Active(issue, u, t) ensures t + CHECK_IN + GRACE <= now {
      ClearedOnlyWhenQuiet(kind, guild, ever, run, now, u, t);
    }
  }

  /** Membership that does not change. */
  function Always(guild: set<User>): Membership {
    (t: nat) => guild
  }

  /** The sweep keeps its promise, for issues of any kind, exactly when no two users are ever members. */
  lemma PromiseIff(kind: IssueType, ever: set<User>)
    ensures KeepsPromise(kind, ever) <==> NoTwoMembers(ever)
  {
    hide ClearsQuietly;
    if NoTwoMembers(ever) {
      forall guild: Membership, run: seq<Timed>, now: nat |
        Within(guild, ever) && Ordered(run) && NoQuotes(run) && Horizon(run) <= now
        ensures ClearsQuietly(kind, guild, run, now)
      {
        OneMemberKeepsPromise(kind, guild, ever, run, now);
      }
    } else {
      var u, v :| u in ever && v in ever && u != v;
      TwoMembersBreakIt(kind, ever, u, v);
      assert Within(Always(ever), ever);
    }
  }

  lemma ExecSnoc(kind: IssueType, guild: Membership, run: seq<Timed>, e: Timed)
    ensures Exec(kind, guild, run + [e]) == Step(Exec(kind, guild, run), guild(e.at), e)
  {
    assert (run + [e])[..|run|] == run;
  }

  // ---- Runs that break it ----

  /** `u` is greeted while `v` is assigned too; then `u` leaves and the issue goes on. */
  function SharedRun(u: User, v: User): seq<Timed> {
    [Timed(0, Assign(u))] + [Timed(13 * DAY, Assign(v))] + [Timed(14 * DAY, StaleSweep)]
    + [Timed(15 * DAY, Unassign(u))] + [Timed(16 * DAY, SetStatus(InProgress))]
  }

  function SharedIssue(kind: IssueType, status: Status, assignees: seq<User>, comments: seq<Comment>, u: User, v: User): Issue {
    Issue(false, status, kind, assignees, false, false, comments, [Assignment(u, 0)] + [Assignment(v, 13 * DAY)])
  }

  /** With any two members the promise fails: `v` is cleared eight days after being assigned, on the
      strength of a check-in that greeted `u`. */
  lemma TwoMembersBreakIt(kind: IssueType, guild: set<User>, u: User, v: User)
    requires u in guild && v in guild && u != v
    ensures Ordered(SharedRun(u, v)) && NoQuotes(SharedRun(u, v)) && Horizon(SharedRun(u, v)) <= 21 * DAY
    ensures var issue := Exec(kind, Always(guild), SharedRun(u, v));
            && Decide(issue, guild, 21 * DAY) == Clear(v)
            && Active(issue, v, 13 * DAY) && 21 * DAY < 13 * DAY + CHECK_IN + GRACE
    ensures !ClearsQuietly(kind, Always(guild), SharedRun(u, v), 21 * DAY)
  {
    hide Decide, Active, Exec, Step, Removed;
    var issue := Exec(kind, Always(guild), SharedRun(u, v));
    SharedLeft(kind, guild, u, v);
    SharedClear(kind, guild, u, v);
    RemovedIff(issue, guild, 21 * DAY, v);
    assert Removed(issue, guild, 21 * DAY, v) && Active(issue, v, 13 * DAY);
  }

  lemma SharedNudged(kind: IssueType, guild: set<User>, u: User, v: User)
    requires u in guild && v in guild && u != v
    ensures Exec(kind, Always(guild), [Timed(0, Assign(u))] + [Timed(13 * DAY, Assign(v))] + [Timed(14 * DAY, StaleSweep)])
         == SharedIssue(kind, InProgress, [u] + [v], [Comment(BOT, 14 * DAY, true, u)], u, v)
  {
    hide Decide, Exec;
    var r1 := [Timed(0, Assign(u))];
    var r2 := r1 + [Timed(13 * DAY, Assign(v))];
    ExecSnoc(kind, Always(guild), [], Timed(0, Assign(u)));
    assert [] + r1 == r1;
    StartsFresh(kind, Always(guild));
    ExecSnoc(kind, Always(guild), r1, Timed(13 * DAY, Assign(v)));
    ExecSnoc(kind, Always(guild), r2, Timed(14 * DAY, StaleSweep));
    assert Exec(kind, Always(guild), r1).assignees == [u];
    assert Exec(kind, Always(guild), r2) == SharedIssue(kind, InProgress, [u] + [v], [], u, v);
    SharedNudge(kind, guild, u, v);
    assert [] + [Comment(BOT, 14 * DAY, true, u)] == [Comment(BOT, 14 * DAY, true, u)];
  }

  lemma StartsFresh(kind: IssueType, guild: Membership)
    ensures Exec(kind, guild, []) == Fresh(kind)
  {
  }

  lemma SharedLatest(u: User, v: User)
    requires u != v
    ensures var timeline := [Assignment(u, 0)] + [Assignment(v, 13 * DAY)];
            LatestAssignment(timeline, u) == Some(0) && LatestAssignment(timeline, v) == Some(13 * DAY)
  {
    LatestAfterAppend([Assignment(u, 0)], Assignment(v, 13 * DAY), u);
    LatestAfterAppend([Assignment(u, 0)], Assignment(v, 13 * DAY), v);
    LatestAfterAppend([], Assignment(u, 0), u);
    LatestAfterAppend([], Assignment(u, 0), v);
    assert [] + [Assignment(u, 0)] == [Assignment(u, 0)];
  }

  lemma SharedNudge(kind: IssueType, guild: set<User>, u: User, v: User)
    requires u in guild && v in guild && u != v
    ensures Decide(SharedIssue(kind, InProgress, [u] + [v], [], u, v), guild, 14 * DAY) == Nudge(u)
  {
    SharedLatest(u, v);
    assert Filter([u] + [v], guild)[0] == u;
  }

  lemma SharedLeft(kind: IssueType, guild: set<User>, u: User, v: User)
    requires u in guild && v in guild && u != v
    ensures Exec(kind, Always(guild), SharedRun(u, v))
         == SharedIssue(kind, InProgress, [v], [Comment(BOT, 14 * DAY, true, u)], u, v)
  {
    hide Exec;
    var r3 := [Timed(0, Assign(u))] + [Timed(13 * DAY, Assign(v))] + [Timed(14 * DAY, StaleSweep)];
    SharedNudged(kind, guild, u, v);
    ExecSnoc(kind, Always(guild), r3, Timed(15 * DAY, Unassign(u)));
    ExecSnoc(kind, Always(guild), r3 + [Timed(15 * DAY, Unassign(u))], Timed(16 * DAY, SetStatus(InProgress)));
    assert ([u] + [v])[1..] == [v] && [v][1..] == [];
    assert Remove([v], {u}) == [v] + Remove([v][1..], {u});
    assert Remove([u] + [v], {u}) == [v];
  }

  lemma SharedClear(kind: IssueType, guild: set<User>, u: User, v: User)
    requires u in guild && v in guild && u != v
    ensures var issue := SharedIssue(kind, InProgress, [v], [Comment(BOT, 14 * DAY, true, u)], u, v);
            Decide(issue, guild, 21 * DAY) == Clear(v) && Active(issue, v, 13 * DAY)
  {
    var issue := SharedIssue(kind, InProgress, [v], [Comment(BOT, 14 * DAY, true, u)], u, v);
    assert Filter([v], guild) == [v] + Filter([v][1..], guild);
    SharedLatest(u, v);
    assert Assignment(v, 13 * DAY) in issue.timeline;
    OneMarker(Comment(BOT, 14 * DAY, true, u), v, 13 * DAY);
  }

  /** `u` is greeted, and `v` joins a day before the week is over. */
  function JoinedRun(u: User, v: User): seq<Timed> {
    [Timed(0, Assign(u))] + [Timed(14 * DAY, StaleSweep)] + [Timed(20 * DAY, Assign(v))]
  }

  function JoinedIssue(kind: IssueType, u: User, v: User): Issue {
    Issue(false, InProgress, kind, [u] + [v], false, false, [Comment(BOT, 14 * DAY, true, u)],
          [Assignment(u, 0)] + [Assignment(v, 20 * DAY)])
  }

  lemma OnlyAssigned(kind: IssueType, guild: set<User>, u: User)
    requires u in guild
    ensures var issue := Issue(false, InProgress, kind, [u], false, false, [], [Assignment(u, 0)]);
            && Exec(kind, Always(guild), [Timed(0, Assign(u))]) == issue
            && Decide(issue, guild, 14 * DAY) == Nudge(u)
  {
    var r1 := [Timed(0, Assign(u))];
    assert [] + r1 == r1;
    StartsFresh(kind, Always(guild));
    ExecSnoc(kind, Always(guild), [], Timed(0, Assign(u)));
    LatestAfterAppend([], Assignment(u, 0), u);
    assert [] + [Assignment(u, 0)] == [Assignment(u, 0)];
    assert Filter([u], guild)[0] == u;
  }

  lemma Joined(kind: IssueType, guild: set<User>, u: User, v: User)
    requires u in guild && v in guild && u != v
    ensures Exec(kind, Always(guild), JoinedRun(u, v)) == JoinedIssue(kind, u, v)
  {
    hide Exec, Decide;
    var r1 := [Timed(0, Assign(u))];
    OnlyAssigned(kind, guild, u);
    ExecSnoc(kind, Always(guild), r1, Timed(14 * DAY, StaleSweep));
    ExecSnoc(kind, Always(guild), r1 + [Timed(14 * DAY, StaleSweep)], Timed(20 * DAY, Assign(v)));
    assert [] + [Comment(BOT, 14 * DAY, true, u)] == [Comment(BOT, 14 * DAY, true, u)];
    assert v !in [u];
  }

  lemma JoinedLatest(u: User, v: User)
    requires u != v
    ensures var timeline := [Assignment(u, 0)] + [Assignment(v, 20 * DAY)];
            LatestAssignment(timeline, u) == Some(0) && LatestAssignment(timeline, v) == Some(20 * DAY)
  {
    LatestAfterAppend([Assignment(u, 0)], Assignment(v, 20 * DAY), u);
    LatestAfterAppend([Assignment(u, 0)], Assignment(v, 20 * DAY), v);
    LatestAfterAppend([], Assignment(u, 0), u);
    LatestAfterAppend([], Assignment(u, 0), v);
    assert [] + [Assignment(u, 0)] == [Assignment(u, 0)];
  }

  lemma JoinedClear(kind: IssueType, guild: set<User>, u: User, v: User)
    requires u in guild && v in guild && u != v
    ensures var issue := JoinedIssue(kind, u, v);
            && Decide(issue, guild, 21 * DAY) == Clear(u)
            && LatestCheckIn(issue.comments) == Some(14 * DAY) && !StintIncludes(issue, v, 14 * DAY)
            && Active(issue, v, 20 * DAY)
  {
    hide LatestCheckIn, LastActivity, LatestAssignment, Decide;
    var issue := JoinedIssue(kind, u, v);
    JoinedLatest(u, v);
    OneMarker(Comment(BOT, 14 * DAY, true, u), u, 0);
    assert Filter([u] + [v], guild)[0] == u;
    assert Assignment(v, 20 * DAY) in issue.timeline;
    DecideMeans(issue, guild, 21 * DAY, u);
  }

  /** With any two members, one is removed along with the other: `v`, a day after being assigned, on
      the strength of a check-in from before that. */
  lemma ClearedAlong(kind: IssueType, guild: set<User>, u: User, v: User)
    requires u in guild && v in guild && u != v
    ensures Ordered(JoinedRun(u, v)) && NoQuotes(JoinedRun(u, v)) && Horizon(JoinedRun(u, v)) <= 21 * DAY
    ensures var issue := Exec(kind, Always(guild), JoinedRun(u, v));
            && Removed(issue, guild, 21 * DAY, v) && Active(issue, v, 20 * DAY)
            && LatestCheckIn(issue.comments) == Some(14 * DAY) && !StintIncludes(issue, v, 14 * DAY)
    ensures !ClearsQuietly(kind, Always(guild), JoinedRun(u, v), 21 * DAY)
  {
    hide Exec, Decide, Active, Removed, StintIncludes;
    var issue := Exec(kind, Always(guild), JoinedRun(u, v));
    Joined(kind, guild, u, v);
    JoinedClear(kind, guild, u, v);
    RemovedIff(issue, guild, 21 * DAY, v);
    assert Removed(issue, guild, 21 * DAY, v) && Active(issue, v, 20 * DAY);
  }

  /** The assignee's own comment quotes the marker. */
  function QuotedRun(u: User): seq<Timed> {
    [Timed(0, Assign(u))] + [Timed(DAY, Quote(u))]
  }

  lemma QuotedIssue(kind: IssueType, guild: set<User>, u: User)
    requires u in guild
    ensures Exec(kind, Always(guild), QuotedRun(u))
         == Issue(false, InProgress, kind, [u], false, false, [Comment(u, DAY, true, "")], [Assignment(u, 0)])
  {
    hide Exec;
    var r1 := [Timed(0, Assign(u))];
    assert [] + r1 == r1;
    StartsFresh(kind, Always(guild));
    ExecSnoc(kind, Always(guild), [], Timed(0, Assign(u)));
    ExecSnoc(kind, Always(guild), r1, Timed(DAY, Quote(u)));
    assert Exec(kind, Always(guild), r1) == Issue(false, InProgress, kind, [u], false, false, [], [Assignment(u, 0)]);
  }

  lemma QuotedClear(kind: IssueType, guild: set<User>, u: User)
    requires u in guild
    ensures var issue := Issue(false, InProgress, kind, [u], false, false, [Comment(u, DAY, true, "")], [Assignment(u, 0)]);
            Decide(issue, guild, 8 * DAY) == Clear(u) && Active(issue, u, 0)
  {
    var issue := Issue(false, InProgress, kind, [u], false, false, [Comment(u, DAY, true, "")], [Assignment(u, 0)]);
    hide Decide, LatestCheckIn, LastActivity, LatestAssignment;
    LatestAfterAppend([], Assignment(u, 0), u);
    assert [] + [Assignment(u, 0)] == [Assignment(u, 0)];
    NoAssignment(u);
    assert Assignment(u, 0) in issue.timeline;
    assert Filter([u], guild) == [u] + Filter([u][1..], guild);
    OneMarker(Comment(u, DAY, true, ""), u, 0);
    DecideMeans(issue, guild, 8 * DAY, u);
  }

  lemma NoAssignment(u: User)
    ensures LatestAssignment([], u) == None
  {
  }

  lemma OneMarker(c: Comment, u: User, since: nat)
    requires c.marker
    ensures LatestCheckIn([c]) == Some(c.at) && LastActivity([c], u, since) == since
  {
    assert [c][..0] == [];
  }

  /** The quote passes for a check-in, and its author is cleared a week later. */
  lemma QuotesBreakIt(kind: IssueType, guild: set<User>, u: User)
    requires u in guild
    ensures Ordered(QuotedRun(u)) && Horizon(QuotedRun(u)) <= 8 * DAY
    ensures var issue := Exec(kind, Always(guild), QuotedRun(u));
            Decide(issue, guild, 8 * DAY) == Clear(u) && Active(issue, u, 0)
    ensures !ClearsQuietly(kind, Always(guild), QuotedRun(u), 8 * DAY)
  {
    hide Exec, Decide, Active, Removed;
    var issue := Exec(kind, Always(guild), QuotedRun(u));
    QuotedIssue(kind, guild, u);
    QuotedClear(kind, guild, u);
    RemovedIff(issue, guild, 8 * DAY, u);
    assert Removed(issue, guild, 8 * DAY, u) && Active(issue, u, 0);
  }

  /** No run clears too early, even if comments quote the marker. */
  ghost predicate KeepsPromiseDespiteQuotes(kind: IssueType, ever: set<User>) {
    forall guild: Membership, run: seq<Timed>, now: nat ::
      Within(guild, ever) && Ordered(run) && Horizon(run) <= now ==> ClearsQuietly(kind, guild, run, now)
  }

  /** If comments may quote the marker, the promise fails as soon as anyone is ever a member. */
  lemma QuotesPromiseIff(kind: IssueType, ever: set<User>)
    ensures KeepsPromiseDespiteQuotes(kind, ever) <==> ever == {}
  {
    hide ClearsQuietly;
    if ever == {} {
      forall guild: Membership, run: seq<Timed>, now: nat | Within(guild, ever) && Ordered(run) && Horizon(run) <= now
        ensures ClearsQuietly(kind, guild, run, now)
      {
        NobodyToClear(kind, guild, run, now);
      }
    } else {
      var u :| u in ever;
      QuotesBreakIt(kind, ever, u);
      assert Within(Always(ever), ever);
    }
  }

  lemma NobodyToClear(kind: IssueType, guild: Membership, run: seq<Timed>, now: nat)
    requires Within(guild, {})
    ensures ClearsQuietly(kind, guild, run, now)
  {
    hide Exec, Active, Removed, Decide;
    forall u ensures !Removed(Exec(kind, guild, run), guild(now), now, u) {
      RemovedIff(Exec(kind, guild, run), guild(now), now, u);
    }
  }

  /** `u` is the only member until day 20, and `v` the only one after. */
  function Succession(u: User, v: User): Membership {
    (t: nat) => if t < 20 * DAY then {u} else {v}
  }

  function SuccessionRun(u: User, v: User): seq<Timed> {
    [Timed(0, Assign(u))] + [Timed(13 * DAY, Assign(v))] + [Timed(14 * DAY, StaleSweep)]
  }

  /** That no two users are members at the same time is not enough: `v`, a member from day 20 on, is
      cleared eight days after being assigned, on the strength of a check-in that greeted `u`. */
  lemma SuccessionBreaksIt(kind: IssueType, u: User, v: User)
    requires u != v
    ensures Ordered(SuccessionRun(u, v)) && NoQuotes(SuccessionRun(u, v)) && Horizon(SuccessionRun(u, v)) <= 21 * DAY
    ensures forall t: nat :: NoTwoMembers(Succession(u, v)(t))
    ensures !ClearsQuietly(kind, Succession(u, v), SuccessionRun(u, v), 21 * DAY)
  {
    hide Exec, Decide, Active, Removed;
    var issue := SharedIssue(kind, InProgress, [u] + [v], [Comment(BOT, 14 * DAY, true, u)], u, v);
    SuccessionNudged(kind, u, v);
    SuccessionClear(kind, u, v);
    RemovedIff(issue, {v}, 21 * DAY, v);
    assert Succession(u, v)(21 * DAY) == {v};
    assert Removed(issue, {v}, 21 * DAY, v) && Active(issue, v, 13 * DAY);
  }

  lemma SuccessionNudged(kind: IssueType, u: User, v: User)
    requires u != v
    ensures Exec(kind, Succession(u, v), SuccessionRun(u, v))
         == SharedIssue(kind, InProgress, [u] + [v], [Comment(BOT, 14 * DAY, true, u)], u, v)
  {
    hide Exec, Decide;
    var guild := Succession(u, v);
    var r1 := [Timed(0, Assign(u))];
    var r2 := r1 + [Timed(13 * DAY, Assign(v))];
    ExecSnoc(kind, guild, [], Timed(0, Assign(u)));
    assert [] + r1 == r1;
    StartsFresh(kind, guild);
    ExecSnoc(kind, guild, r1, Timed(13 * DAY, Assign(v)));
    ExecSnoc(kind, guild, r2, Timed(14 * DAY, StaleSweep));
    assert Exec(kind, guild, r1).assignees == [u];
    assert Exec(kind, guild, r2) == SharedIssue(kind, InProgress, [u] + [v], [], u, v);
    SuccessionNudge(kind, u, v);
    assert [] + [Comment(BOT, 14 * DAY, true, u)] == [Comment(BOT, 14 * DAY, true, u)];
  }

  lemma SuccessionNudge(kind: IssueType, u: User, v: User)
    requires u != v
    ensures Decide(SharedIssue(kind, InProgress, [u] + [v], [], u, v), {u}, 14 * DAY) == Nudge(u)
  {
    SharedLatest(u, v);
    assert Filter([u] + [v], {u})[0] == u;
  }

  lemma SuccessionClear(kind: IssueType, u: User, v: User)
    requires u != v
    ensures var issue := SharedIssue(kind, InProgress, [u] + [v], [Comment(BOT, 14 * DAY, true, u)], u, v);
            Decide(issue, {v}, 21 * DAY) == Clear(v) && Active(issue, v, 13 * DAY)
  {
    hide LatestCheckIn, LastActivity, LatestAssignment, Decide;
    var issue := SharedIssue(kind, InProgress, [u] + [v], [Comment(BOT, 14 * DAY, true, u)], u, v);
    SharedLatest(u, v);
    OneMarker(Comment(BOT, 14 * DAY, true, u), v, 13 * DAY);
    assert ([u] + [v])[1..] == [v] && [v][1..] == [];
    assert Filter([v], {v}) == [v] + Filter([v][1..], {v});
    assert Filter([u] + [v], {v}) == Filter(([u] + [v])[1..], {v});
    assert Assignment(v, 13 * DAY) in issue.timeline;
    DecideMeans(issue, {v}, 21 * DAY, v);
  }
}
