/** The stale sweep of the Guild board: assign, silence, nudge, grace, clear. */
module GuildBoard {
  import opened Wrappers

  type User = string

  /** Times are seconds. */
  const DAY := 86400
  const CHECK_IN_AFTER_DAYS := 14
  const AUTO_CLEAR_AFTER_DAYS := 7

  datatype Status = InProgress | BugBashers | ShipFeature | OtherStatus
  datatype IssueType = Feature | Bug | Docs | Crash | Untyped

  /** `marker` says that the body contains the hidden check-in marker, `to` whom a check-in greets. */
  datatype Comment = Comment(author: User, at: nat, marker: bool, to: User)

  datatype Assignment = Assignment(user: User, at: nat)

  datatype Issue = Issue(
    archived: bool,
    status: Status,
    kind: IssueType,
    assignees: seq<User>,
    hold: bool,
    closingPr: bool,
    comments: seq<Comment>,
    timeline: seq<Assignment>)

  const BOT: User := "zedgar"

  function StatusForType(kind: IssueType): Option<Status> {
    match kind
    case Feature => Some(ShipFeature)
    case Untyped => None
    case _ => Some(BugBashers)
  }

  function Filter(users: seq<User>, keep: set<User>): (r: seq<User>)
    ensures forall u :: u in r <==> u in users && u in keep
  {
    if users == [] then []
    else if users[0] in keep then [users[0]] + Filter(users[1..], keep)
    else Filter(users[1..], keep)
  }

  function Remove(users: seq<User>, drop: set<User>): (r: seq<User>)
    ensures forall u :: u in r <==> u in users && u !in drop
  {
    if users == [] then []
    else if users[0] in drop then Remove(users[1..], drop)
    else [users[0]] + Remove(users[1..], drop)
  }

  /** The first member is the earliest assignee in the guild. */
  lemma {:induction false} FirstMember(users: seq<User>, keep: set<User>, i: nat)
    requires i < |users| && users[i] in keep && forall j :: 0 <= j < i ==> users[j] !in keep
    ensures Filter(users, keep) != [] && Filter(users, keep)[0] == users[i]
  {
    if i > 0 {
      FirstMember(users[1..], keep, i - 1);
    }
  }

  /** Whoever is not removed stays, in the same order. */
  lemma {:induction false} RemoveKeeps(users: seq<User>, drop: set<User>)
    ensures users == [] ==> Remove(users, drop) == []
    ensures users != [] ==>
              var n := |users| - 1;
              Remove(users, drop) == if users[n] in drop then Remove(users[..n], drop) else Remove(users[..n], drop) + [users[n]]
  {
    if |users| > 1 {
      RemoveKeeps(users[1..], drop);
      var n := |users| - 1;
      assert users[1..][..n - 1] == users[..n][1..] && users[1..][n - 1] == users[n] && users[..n][0] == users[0];
    }
  }

  function Max(a: nat, b: nat): nat {
    if a < b then b else a
  }

  function Later(a: Option<nat>, b: nat): Option<nat> {
    Some(if a.None? then b else Max(a.value, b))
  }

  /** `latest_assignment_time`, none when the timeline has no such event. */
  function LatestAssignment(timeline: seq<Assignment>, user: User): (r: Option<nat>)
    ensures forall i :: 0 <= i < |timeline| && timeline[i].user == user ==> r.Some? && timeline[i].at <= r.value
    ensures r.Some? ==> exists i :: 0 <= i < |timeline| && timeline[i] == Assignment(user, r.value)
  {
    if timeline == [] then None else
      var n := |timeline| - 1;
      var r := LatestAssignment(timeline[..n], user);
      if timeline[n].user == user then Later(r, timeline[n].at) else r
  }

  /** `latest_check_in_time` */
  function LatestCheckIn(comments: seq<Comment>): (r: Option<nat>)
    ensures forall i :: 0 <= i < |comments| && comments[i].marker ==> r.Some? && comments[i].at <= r.value
    ensures r.Some? ==> exists i :: 0 <= i < |comments| && comments[i].marker && comments[i].at == r.value
  {
    if comments == [] then None else
      var n := |comments| - 1;
      var r := LatestCheckIn(comments[..n]);
      if comments[n].marker then Later(r, comments[n].at) else r
  }

  predicate IsReply(c: Comment, user: User) {
    !c.marker && c.author == user
  }

  /** The user's last activity: `since`, or a later comment of theirs. */
  function LastActivity(comments: seq<Comment>, user: User, since: nat): (r: nat)
    ensures since <= r
    ensures forall i :: 0 <= i < |comments| && IsReply(comments[i], user) ==> comments[i].at <= r
    ensures r == since || exists i :: 0 <= i < |comments| && IsReply(comments[i], user) && comments[i].at == r
  {
    if comments == [] then since else
      var n := |comments| - 1;
      var r := LastActivity(comments[..n], user, since);
      if IsReply(comments[n], user) then Max(r, comments[n].at) else r
  }

  lemma ScanStep(comments: seq<Comment>, k: nat, user: User, since: nat)
    requires k < |comments|
    ensures LastActivity(comments[..k + 1], user, since)
         == var r := LastActivity(comments[..k], user, since);
            if IsReply(comments[k], user) then Max(r, comments[k].at) else r
    ensures LatestCheckIn(comments[..k + 1])
         == var r := LatestCheckIn(comments[..k]);
            if comments[k].marker then Later(r, comments[k].at) else r
  {
    assert comments[..k + 1][..k] == comments[..k];
  }

  /** One pass over the comments for both times. */
  method ScanComments(comments: seq<Comment>, user: User, since: nat)
    returns (lastActivity: nat, checkIn: Option<nat>)
    ensures lastActivity == LastActivity(comments, user, since)
    ensures checkIn == LatestCheckIn(comments)
  {
    lastActivity, checkIn := since, None;
    for k := 0 to |comments|
      invariant lastActivity == LastActivity(comments[..k], user, since)
      invariant checkIn == LatestCheckIn(comments[..k])
    {
      hide LastActivity, LatestCheckIn;
      ScanStep(comments, k, user, since);
      var c := comments[k];
      if c.marker {
        if checkIn.None? || c.at > checkIn.value {
          checkIn := Some(c.at);
        }
      } else if c.author == user {
        if c.at > lastActivity {
          lastActivity := c.at;
        }
      }
    }
    assert comments[..|comments|] == comments;
  }

  /** `timedelta.days` of the time from `then` to `now`. */
  function Days(now: nat, then_: nat): int {
    (now - then_) / DAY
  }

  datatype Decision = Skip | Nudge(user: User) | Clear(user: User) | Broken

  /** What the sweep does about one item. An assignee without an assignment event is an error. */
  function Decide(issue: Issue, guild: set<User>, now: nat): Decision {
    var members := Filter(issue.assignees, guild);
    if issue.archived || issue.status != InProgress || members == [] || issue.hold || issue.closingPr then
      Skip
    else
      var user := members[0];
      var since := LatestAssignment(issue.timeline, user);
      if since.None? then Broken else
        var last := LastActivity(issue.comments, user, since.value);
        var checkIn := LatestCheckIn(issue.comments);
        if checkIn.None? || checkIn.value < last then
          if Days(now, last) < CHECK_IN_AFTER_DAYS then Skip else Nudge(user)
        else
          if Days(now, checkIn.value) < AUTO_CLEAR_AFTER_DAYS then Skip else Clear(user)
  }

  /** The item after the sweep has acted on it. */
  function Act(issue: Issue, guild: set<User>, decision: Decision, now: nat): Issue {
    match decision
    case Nudge(user) => issue.(comments := issue.comments + [Comment(BOT, now, true, user)])
    case Clear(_) =>
      var column := StatusForType(issue.kind);
      issue.(assignees := Remove(issue.assignees, guild),
             status := if column.Some? then column.value else issue.status)
    case _ => issue
  }

  function Sweep(issue: Issue, guild: set<User>, now: nat): Issue {
    Act(issue, guild, Decide(issue, guild, now), now)
  }

  // ---- The whole board ----

  /** The items after a sweep, and how many members it nudged and cleared. */
  datatype Swept = Swept(items: seq<Issue>, checkedIn: nat, cleared: nat)

  /** A sweep over the items in order; an error ends it there. */
  function SweepAll(items: seq<Issue>, guild: set<User>, now: nat): (r: Swept)
    ensures |r.items| == |items|
  {
    if items == [] then Swept([], 0, 0) else
      var d := Decide(items[0], guild, now);
      if d.Broken? then Swept(items, 0, 0) else
        var rest := SweepAll(items[1..], guild, now);
        Swept([Act(items[0], guild, d, now)] + rest.items,
              rest.checkedIn + (if d.Nudge? then 1 else 0),
              rest.cleared + (if d.Clear? then 1 else 0))
  }

  lemma {:induction false} SweepAllAppend(items: seq<Issue>, issue: Issue, guild: set<User>, now: nat)
    requires forall i :: 0 <= i < |items| ==> !Decide(items[i], guild, now).Broken?
    ensures var all, d := SweepAll(items, guild, now), Decide(issue, guild, now);
            SweepAll(items + [issue], guild, now)
            == Swept(all.items + [if d.Broken? then issue else Act(issue, guild, d, now)],
                     all.checkedIn + (if d.Nudge? then 1 else 0),
                     all.cleared + (if d.Clear? then 1 else 0))
  {
    hide Decide, Act;
    if items == [] {
      assert items + [issue] == [issue] && [issue][1..] == [];
    } else {
      assert (items + [issue])[1..] == items[1..] + [issue] && (items + [issue])[0] == items[0];
      SweepAllAppend(items[1..], issue, guild, now);
    }
  }

  lemma {:induction false} SweepAllStops(items: seq<Issue>, rest: seq<Issue>, guild: set<User>, now: nat)
    requires forall i :: 0 <= i < |items| ==> !Decide(items[i], guild, now).Broken?
    requires rest != [] ==> Decide(rest[0], guild, now).Broken?
    ensures var all := SweepAll(items, guild, now);
            SweepAll(items + rest, guild, now) == Swept(all.items + rest, all.checkedIn, all.cleared)
  {
    hide Decide, Act;
    if items == [] {
      assert items + rest == rest;
    } else {
      assert (items + rest)[1..] == items[1..] + rest && (items + rest)[0] == items[0];
      SweepAllStops(items[1..], rest, guild, now);
    }
  }

  /** The items up to `n` that the sweep nudges, and those it clears. */
  function Nudged(items: seq<Issue>, guild: set<User>, now: nat, n: nat): set<nat>
    requires n <= |items|
  {
    set i: nat | i < n && Decide(items[i], guild, now).Nudge?
  }

  function ClearedItems(items: seq<Issue>, guild: set<User>, now: nat, n: nat): set<nat>
    requires n <= |items|
  {
    set i: nat | i < n && Decide(items[i], guild, now).Clear?
  }

  lemma NudgedGrows(items: seq<Issue>, guild: set<User>, now: nat, n: nat)
    requires n < |items|
    ensures |Nudged(items, guild, now, n + 1)|
         == |Nudged(items, guild, now, n)| + (if Decide(items[n], guild, now).Nudge? then 1 else 0)
  {
    hide Decide;
    assert Nudged(items, guild, now, n + 1)
        == Nudged(items, guild, now, n) + (if Decide(items[n], guild, now).Nudge? then {n} else {});
  }

  lemma ClearedGrows(items: seq<Issue>, guild: set<User>, now: nat, n: nat)
    requires n < |items|
    ensures |ClearedItems(items, guild, now, n + 1)|
         == |ClearedItems(items, guild, now, n)| + (if Decide(items[n], guild, now).Clear? then 1 else 0)
  {
    hide Decide;
    assert ClearedItems(items, guild, now, n + 1)
        == ClearedItems(items, guild, now, n) + (if Decide(items[n], guild, now).Clear? then {n} else {});
  }

  lemma {:induction false} SweepPrefix(items: seq<Issue>, guild: set<User>, now: nat, n: nat)
    requires n <= |items| && forall i :: 0 <= i < n ==> !Decide(items[i], guild, now).Broken?
    ensures var all := SweepAll(items[..n], guild, now);
            && (forall i :: 0 <= i < n ==> all.items[i] == Sweep(items[i], guild, now))
            && all.checkedIn == |Nudged(items, guild, now, n)|
            && all.cleared == |ClearedItems(items, guild, now, n)|
  {
    hide Decide, Act;
    if n > 0 {
      SweepPrefix(items, guild, now, n - 1);
      assert items[..n] == items[..n - 1] + [items[n - 1]];
      SweepAllAppend(items[..n - 1], items[n - 1], guild, now);
      NudgedGrows(items, guild, now, n - 1);
      ClearedGrows(items, guild, now, n - 1);
    }
  }

  /** `n` is the first item on which the sweep fails, or the number of items. */
  predicate StopsAt(items: seq<Issue>, guild: set<User>, now: nat, n: nat) {
    && n <= |items|
    && (forall i :: 0 <= i < n ==> !Decide(items[i], guild, now).Broken?)
    && (n < |items| ==> Decide(items[n], guild, now).Broken?)
  }

  /** The sweep treats every item up to the first failure by itself and leaves the others alone; its
      counters count the items it nudged and those it cleared. */
  lemma SweepAllMeans(items: seq<Issue>, guild: set<User>, now: nat, n: nat)
    requires StopsAt(items, guild, now, n)
    ensures var all := SweepAll(items, guild, now);
            && (forall i :: 0 <= i < n ==> all.items[i] == Sweep(items[i], guild, now))
            && (forall i :: n <= i < |items| ==> all.items[i] == items[i])
            && all.checkedIn == |Nudged(items, guild, now, n)|
            && all.cleared == |ClearedItems(items, guild, now, n)|
  {
    hide Decide, Sweep, SweepAll;
    SweepPrefix(items, guild, now, n);
    SweepAllStops(items[..n], items[n..], guild, now);
    assert items[..n] + items[n..] == items;
  }

  class Board {
    var items: seq<Issue>

    constructor (issues: seq<Issue>)
      ensures items == issues
    {
      items := issues;
    }

    /** `run_stale` */
    method RunStale(guild: set<User>, now: nat) returns (checkedIn: nat, cleared: nat)
      modifies this
      ensures Swept(items, checkedIn, cleared) == SweepAll(old(items), guild, now)
      ensures (forall i :: 0 <= i < |old(items)| ==> !Decide(old(items)[i], guild, now).Broken?) ==>
                && |items| == |old(items)|
                && (forall i :: 0 <= i < |items| ==> items[i] == Sweep(old(items)[i], guild, now))
                && checkedIn == |Nudged(old(items), guild, now, |items|)|
                && cleared == |ClearedItems(old(items), guild, now, |items|)|
    {
      checkedIn, cleared := SweepItems(guild, now);
      if forall i :: 0 <= i < |old(items)| ==> !Decide(old(items)[i], guild, now).Broken? {
        SweepAllMeans(old(items), guild, now, |old(items)|);
      }
    }

    method SweepItems(guild: set<User>, now: nat) returns (checkedIn: nat, cleared: nat)
      modifies this
      ensures Swept(items, checkedIn, cleared) == SweepAll(old(items), guild, now)
    {
      hide Decide, Act;
      checkedIn, cleared := 0, 0;
      var done: seq<Issue>, todo := [], items;
      while todo != []
        invariant items == done + todo
        invariant var rest := SweepAll(todo, guild, now);
                  SweepAll(old(items), guild, now)
                  == Swept(done + rest.items, checkedIn + rest.checkedIn, cleared + rest.cleared)
        decreases |todo|
      {
        var decision := DecideOne(todo[0], guild, now);
        if decision.Broken? {
          return;
        }
        var issue := Act(todo[0], guild, decision, now);
        ghost var rest := SweepAll(todo[1..], guild, now).items;
        assert done + ([issue] + rest) == done + [issue] + rest;
        done := done + [issue];
        todo := todo[1..];
        items := done + todo;
        if decision.Nudge? {
          checkedIn := checkedIn + 1;
        } else if decision.Clear? {
          cleared := cleared + 1;
        }
      }
    }
  }

  /** The body of the sweep's loop for one item. */
  method DecideOne(issue: Issue, guild: set<User>, now: nat) returns (d: Decision)
    ensures d == Decide(issue, guild, now)
  {
    if issue.archived || issue.status != InProgress {
      return Skip;
    }
    var members := Filter(issue.assignees, guild);
    if members == [] || issue.hold || issue.closingPr {
      return Skip;
    }
    var user := members[0];
    var since := LatestAssignment(issue.timeline, user);
    if since.None? {
      return Broken;
    }
    var last, checkIn := ScanComments(issue.comments, user, since.value);
    if checkIn.None? || checkIn.value < last {
      if Days(now, last) < CHECK_IN_AFTER_DAYS {
        return Skip;
      }
      return Nudge(user);
    }
    if Days(now, checkIn.value) < AUTO_CLEAR_AFTER_DAYS {
      return Skip;
    }
    return Clear(user);
  }

  // ---- Runs of one issue ----

  /** What can happen to an issue. `Quote` is a comment by a user that contains the marker. */
  datatype Event =
    | Assign(user: User)
    | Unassign(user: User)
    | Reply(user: User)
    | Quote(user: User)
    | SetHold(on: bool)
    | SetClosingPr(on: bool)
    | SetStatus(status: Status)
    | StaleSweep

  datatype Timed = Timed(at: nat, event: Event)

  function Step(issue: Issue, guild: set<User>, e: Timed): Issue {
    match e.event
    case Assign(u) =>
      if u in issue.assignees then issue else
        issue.(assignees := issue.assignees + [u],
               timeline := issue.timeline + [Assignment(u, e.at)],
               status := if u in guild then InProgress else issue.status)
    case Unassign(u) =>
      var column := StatusForType(issue.kind);
      issue.(assignees := Remove(issue.assignees, {u}),
             status := if u in issue.assignees && u in guild && issue.status == InProgress && column.Some?
                       then column.value else issue.status)
    case Reply(u) => issue.(comments := issue.comments + [Comment(u, e.at, false, "")])
    case Quote(u) => issue.(comments := issue.comments + [Comment(u, e.at, true, "")])
    case SetHold(on) => issue.(hold := on)
    case SetClosingPr(on) => issue.(closingPr := on)
    case SetStatus(s) => issue.(status := s)
    case StaleSweep => Sweep(issue, guild, e.at)
  }

  /** A new issue on the board. */
  function Fresh(kind: IssueType): Issue {
    Issue(false, OtherStatus, kind, [], false, false, [], [])
  }

  /** Who is a guild member, which is asked anew each time. */
  type Membership = nat -> set<User>

  function Exec(kind: IssueType, guild: Membership, run: seq<Timed>): Issue {
    if run == [] then Fresh(kind)
    else Step(Exec(kind, guild, run[..|run| - 1]), guild(run[|run| - 1].at), run[|run| - 1])
  }

  /** Only these users are ever members. */
  ghost predicate Within(guild: Membership, ever: set<User>) {
    forall t: nat :: guild(t) <= ever
  }

  ghost predicate Ordered(run: seq<Timed>) {
    forall i, j :: 0 <= i < j < |run| ==> run[i].at < run[j].at
  }

  /** Only the bot writes the marker. */
  ghost predicate NoQuotes(run: seq<Timed>) {
    forall i :: 0 <= i < |run| ==> !run[i].event.Quote?
  }

  /** At no time were two of these users assigned. */
  ghost predicate OneMember(kind: IssueType, guild: Membership, ever: set<User>, run: seq<Timed>) {
    forall k :: 0 <= k <= |run| ==> AtMostOne(Exec(kind, guild, run[..k]), ever)
  }

  ghost predicate AtMostOne(issue: Issue, guild: set<User>) {
    forall u, v :: u in issue.assignees && v in issue.assignees && u in guild && v in guild ==> u == v
  }
}
