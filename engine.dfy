/**
 * The background notification loop. Every wake-up computes the week-minute;
 * a minute differing from `last` is processed once: the due users are
 * selected, each gets either a "Set your project." notice (which then ends
 * the loop for good) or a statistics request and a report comparing the
 * tracked seconds with the goal, and at minute 0 every selected project is
 * cleared afterwards. The clock is the `now` argument, the statistics
 * service is the `stats` function, and the notices and requests sent are
 * recorded in `sent` and `requests`.
 */
module Engine {
  import opened Wrappers
  import opened Json
  import opened Clock
  import opened Schedule
  import opened Hms
  import opened Stats
  import opened Store

  datatype Header = Header(name: string, value: string)

  /** A POST to the user's notification topic: its headers and its plain-text body. */
  datatype Notice = Notice(username: string, headers: seq<Header>, body: string)

  /** A GET of the user's statistics from `start` (seconds since the epoch, UTC). */
  datatype Request = Request(username: string, start: int)

  /** The statistics start of the weekly check: Monday 04:00 UTC. */
  const WEEKLY_START_OFFSET: int := 4 * 3600

  /** The reminder to a user without a project: a title and no tags, where every report has two headers. */
  function SetProjectNotice(username: string): (n: Notice)
    ensures n.username == username && |n.headers| == 1 && n.headers[0] == Header("Title", "Set your project.")
  {
    Notice(username, [Header("Title", "Set your project.")], "You haven't set a project for this week.")
  }

  /** The report for a difference `diff` of tracked seconds over the goal: one of four templates. */
  function Report(username: string, weekly: bool, diff: int): (n: Notice)
    ensures n.username == username && |n.headers| == 2
    ensures n.headers[0].name == "Title" && n.headers[1] == Header("Tags", if diff >= 0 then "tada" else "warning")
  {
    var t := HmsText(diff);
    if !weekly then
      if diff >= 0 then
        Notice(username, [Header("Title", "Good Job!"), Header("Tags", "tada")],
               "You worked for " + t + " more than your goal was.")
      else
        Notice(username, [Header("Title", "You need to lock in!"), Header("Tags", "warning")],
               "You worked for " + t + " less than your goal was.")
    else
      if diff >= 0 then
        Notice(username, [Header("Title", "Good Job, don't forget to submit!"), Header("Tags", "tada")],
               "You worked for " + t + " more than your weekly goal was.")
      else
        Notice(username, [Header("Title", "You need to lock in!"), Header("Tags", "warning")],
               "You're " + t + " short of your weekly goal and you need to submit soon.")
  }

  /** Where the statistics window of a due row starts, for the week beginning at `monday`. */
  function WindowStart(row: DueRow, monday: int): (start: int)
    ensures start == monday + (if row.weekly then 4 * 60 else row.lookback) * 60
  {
    if row.weekly then monday + WEEKLY_START_OFFSET else monday + row.lookback * 60
  }

  /** What one due row leads to: the request made, the notice sent, and whether the loop ends. */
  datatype Visit = Visit(request: Option<Request>, notice: Option<Notice>, stop: bool)

  /** The body of the per-user loop for one row. */
  function VisitRow(row: DueRow, monday: int, stats: (string, int) -> Reply): (v: Visit)
    ensures v.stop <==> row.project.None? || row.project == Some("")
    ensures v.request.Some? <==> !v.stop
    ensures v.request.Some? ==> v.request.value == Request(row.username, WindowStart(row, monday))
    ensures row.project == Some("") ==> v.notice == Some(SetProjectNotice(row.username))
  {
    match row.project
    case None => Visit(None, None, true)
    case Some(project) =>
      if project == "" then Visit(None, Some(SetProjectNotice(row.username)), true)
      else
        var start := WindowStart(row, monday);
        match stats(row.username, start)
        case Transport(_) => Visit(Some(Request(row.username, start)), None, false)
        case Response(status, _, body) =>
          if !IsSuccess(status) || body.None? then Visit(Some(Request(row.username, start)), None, false)
          else
            var seconds := ProjectSeconds(body.value, project).GetOr(0);
            Visit(Some(Request(row.username, start)), Some(Report(row.username, row.weekly, seconds - row.goal * 3600)), false)
  }

  function OptionSeq<T>(o: Option<T>): seq<T> {
    if o.Some? then [o.value] else []
  }

  /** The requests and notices of one tick's loop over the due rows, and whether it ended the task. */
  datatype RunResult = RunResult(requests: seq<Request>, notices: seq<Notice>, stopped: bool)

  /** The loop state after visiting one more row: nothing more once it has ended. */
  function Extend(prev: RunResult, v: Visit): RunResult {
    if prev.stopped then prev
    else RunResult(prev.requests + OptionSeq(v.request), prev.notices + OptionSeq(v.notice), v.stop)
  }

  /** The loop over `due`, row by row, until a row ends it. */
  function Run(due: seq<DueRow>, monday: int, stats: (string, int) -> Reply): (r: RunResult)
    ensures |r.requests| <= |due| && |r.notices| <= |due|
    decreases |due|
  {
    if due == [] then RunResult([], [], false)
    else Extend(Run(due[..|due| - 1], monday, stats), VisitRow(due[|due| - 1], monday, stats))
  }

  /** The loop ends the task exactly when one of the rows does. */
  lemma RunStoppedIff(due: seq<DueRow>, monday: int, stats: (string, int) -> Reply)
    ensures Run(due, monday, stats).stopped <==>
      exists i :: 0 <= i < |due| && (due[i].project.None? || due[i].project == Some(""))
  {
    if Run(due, monday, stats).stopped {
      RunStoppedHasRow(due, monday, stats);
    }
    if i :| 0 <= i < |due| && (due[i].project.None? || due[i].project == Some("")) {
      RowStopsRun(due, i, monday, stats);
    }
  }

  lemma {:induction false} RunStoppedHasRow(due: seq<DueRow>, monday: int, stats: (string, int) -> Reply)
    requires Run(due, monday, stats).stopped
    ensures exists i :: 0 <= i < |due| && (due[i].project.None? || due[i].project == Some(""))
    decreases |due|
  {
    var n := |due| - 1;
    var init := due[..n];
    RunStoppedStep(due, monday, stats);
    if Run(init, monday, stats).stopped {
      RunStoppedHasRow(init, monday, stats);
      var i :| 0 <= i < n && (init[i].project.None? || init[i].project == Some(""));
      assert init[i] == due[i];
    }
  }

  lemma RowStopsRun(due: seq<DueRow>, i: nat, monday: int, stats: (string, int) -> Reply)
    requires i < |due| && (due[i].project.None? || due[i].project == Some(""))
    ensures Run(due, monday, stats).stopped
  {
    var pre := due[..i + 1];
    assert pre[..i] == due[..i];
    RunStoppedStep(pre, monday, stats);
    RunStoppedPrefix(due, i + 1, monday, stats);
  }

  lemma RunStoppedStep(due: seq<DueRow>, monday: int, stats: (string, int) -> Reply)
    requires due != []
    ensures var last := due[|due| - 1];
      Run(due, monday, stats).stopped == (Run(due[..|due| - 1], monday, stats).stopped || last.project.None? || last.project == Some(""))
  {
  }

  /** `order` lists each user due at `tick` exactly once, and nobody else. */
  predicate ListsDue(rows: map<string, UserRow>, order: seq<string>, tick: int) {
    && (forall i :: 0 <= i < |order| ==> order[i] in rows && Due(rows[order[i]].slots, tick))
    && (forall u :: u in rows && Due(rows[u].slots, tick) ==> u in order)
    && (forall i, j :: 0 <= i < j < |order| ==> order[i] != order[j])
  }

  /** The rows the selection query returns, in the order `order`. */
  function DueRows(rows: map<string, UserRow>, order: seq<string>, tick: int): (due: seq<DueRow>)
    requires ListsDue(rows, order, tick)
    ensures |due| == |order|
    ensures forall i :: 0 <= i < |order| ==> due[i] == Select(order[i], rows[order[i]], tick)
  {
    seq(|order|, i requires 0 <= i < |order| && ListsDue(rows, order, tick) =>
      Select(order[i], rows[order[i]], tick))
  }

  /** The per-user loop body: statistics request, `get_project`, difference, then the notice. */
  method VisitUser(row: DueRow, monday: int, stats: (string, int) -> Reply) returns (v: Visit)
    ensures v == VisitRow(row, monday, stats)
  {
    if row.project.None? {
      return Visit(None, None, true);
    }
    var project := row.project.value;
    if project == "" {
      var headers: seq<Header> := [];
      headers := headers + [Header("Title", "Set your project.")];
      assert headers == [Header("Title", "Set your project.")];
      return Visit(None, Some(Notice(row.username, headers, "You haven't set a project for this week.")), true);
    }
    var start := WindowStart(row, monday);
    var req := Request(row.username, start);
    var res := stats(row.username, start);
    if res.Transport? || !IsSuccess(res.status) || res.body.None? {
      return Visit(Some(req), None, false);
    }
    var found := GetProject(res.body.value, project);
    var seconds := found.GetOr(0);
    var diff := seconds - row.goal * 60 * 60;
    assert diff == seconds - row.goal * 3600;
    var notice := BuildReport(row.username, row.weekly, diff);
    v := Visit(Some(req), Some(notice), false);
  }

  /** The report, built as the loop builds it: headers appended in place, the body around the `sec_to_hms` text. */
  method BuildReport(username: string, weekly: bool, diff: int) returns (n: Notice)
    ensures n == Report(username, weekly, diff)
  {
    var text := SecToHms(diff);
    var headers: seq<Header> := [];
    var msg;
    if !weekly {
      if diff >= 0 {
        headers := headers + [Header("Title", "Good Job!")];
        headers := headers + [Header("Tags", "tada")];
        msg := "You worked for " + text + " more than your goal was.";
      } else {
        headers := headers + [Header("Title", "You need to lock in!")];
        headers := headers + [Header("Tags", "warning")];
        msg := "You worked for " + text + " less than your goal was.";
      }
    } else {
      if diff >= 0 {
        headers := headers + [Header("Title", "Good Job, don't forget to submit!")];
        headers := headers + [Header("Tags", "tada")];
        msg := "You worked for " + text + " more than your weekly goal was.";
      } else {
        headers := headers + [Header("Title", "You need to lock in!")];
        headers := headers + [Header("Tags", "warning")];
        msg := "You're " + text + " short of your weekly goal and you need to submit soon.";
      }
    }
    n := Notice(username, headers, msg);
  }

  /** Once the loop has ended, later rows change nothing. */
  lemma {:induction false} RunStoppedPrefix(due: seq<DueRow>, k: nat, monday: int, stats: (string, int) -> Reply)
    requires k <= |due| && Run(due[..k], monday, stats).stopped
    ensures Run(due, monday, stats) == Run(due[..k], monday, stats)
    decreases |due| - k
  {
    if k < |due| {
      var init := due[..|due| - 1];
      assert init[..k] == due[..k];
      RunStoppedPrefix(init, k, monday, stats);
    } else {
      assert due[..k] == due;
    }
  }

  /** The loop after one more row. */
  lemma RunExtend(due: seq<DueRow>, i: nat, monday: int, stats: (string, int) -> Reply)
    requires i < |due|
    ensures Run(due[..i + 1], monday, stats) == Extend(Run(due[..i], monday, stats), VisitRow(due[i], monday, stats))
  {
    assert due[..i + 1][..i] == due[..i];
  }

  /** The loop state after the given visits, in order. */
  function Fold(visits: seq<Visit>): RunResult
    decreases |visits|
  {
    if visits == [] then RunResult([], [], false)
    else Extend(Fold(visits[..|visits| - 1]), visits[|visits| - 1])
  }

  lemma FoldSnoc(visits: seq<Visit>, v: Visit)
    ensures Fold(visits + [v]) == Extend(Fold(visits), v)
  {
    assert (visits + [v])[..|visits|] == visits;
  }

  /** `visit` is the visit of one row, for the week beginning at `monday`. */
  ghost predicate IsVisitOf(visit: DueRow -> Visit, monday: int, stats: (string, int) -> Reply) {
    forall row {:trigger VisitRow(row, monday, stats)} :: visit(row) == VisitRow(row, monday, stats)
  }

  /** `visits` are the visits of the first `|visits|` rows of `due`, in order. */
  ghost predicate Visited(due: seq<DueRow>, visits: seq<Visit>, visit: DueRow -> Visit)
    decreases |visits|
  {
    |visits| <= |due| &&
    (visits == [] || (Visited(due, visits[..|visits| - 1], visit) && visits[|visits| - 1] == visit(due[|visits| - 1])))
  }

  lemma VisitedSnoc(due: seq<DueRow>, visits: seq<Visit>, v: Visit, visit: DueRow -> Visit)
    requires Visited(due, visits, visit) && |visits| < |due| && v == visit(due[|visits|])
    ensures Visited(due, visits + [v], visit)
  {
    assert (visits + [v])[..|visits|] == visits;
  }

  /** The loop over a prefix of the rows is the fold of their visits. */
  lemma {:induction false} RunIsFold(due: seq<DueRow>, visits: seq<Visit>, monday: int, stats: (string, int) -> Reply, visit: DueRow -> Visit)
    requires IsVisitOf(visit, monday, stats) && Visited(due, visits, visit)
    ensures Run(due[..|visits|], monday, stats) == Fold(visits)
    decreases |visits|
  {
    if visits != [] {
      var n := |visits| - 1;
      RunIsFold(due, visits[..n], monday, stats, visit);
      RunExtend(due, n, monday, stats);
    }
  }

  /** Visits of all the rows, or of a prefix that ends the loop, decide the whole loop. */
  lemma RunIsFoldOf(due: seq<DueRow>, visits: seq<Visit>, monday: int, stats: (string, int) -> Reply, visit: DueRow -> Visit)
    requires IsVisitOf(visit, monday, stats) && Visited(due, visits, visit) && (|visits| == |due| || Fold(visits).stopped)
    ensures Run(due, monday, stats) == Fold(visits)
  {
    RunIsFold(due, visits, monday, stats, visit);
    if |visits| == |due| {
      assert due[..|visits|] == due;
    } else {
      RunStoppedPrefix(due, |visits|, monday, stats);
    }
  }

  /**
   * A due user without a project gets the reminder, makes no statistics
   * request, and ends the loop: later users are not visited.
   */
  lemma RunEmptyProjectStops(pre: seq<DueRow>, row: DueRow, post: seq<DueRow>, monday: int, stats: (string, int) -> Reply)
    requires !Run(pre, monday, stats).stopped && row.project == Some("")
    ensures var prev := Run(pre, monday, stats);
      Run(pre + [row] + post, monday, stats) == RunResult(prev.requests, prev.notices + [SetProjectNotice(row.username)], true)
  {
    var s := pre + [row] + post;
    assert s[..|pre| + 1] == pre + [row];
    assert (pre + [row])[..|pre|] == pre;
    RunStoppedPrefix(s, |pre| + 1, monday, stats);
  }

  /** A user whose statistics request fails gets no notice, and the users after it are still visited. */
  lemma {:induction false} RunSkipsFailedUser(pre: seq<DueRow>, row: DueRow, post: seq<DueRow>, monday: int, stats: (string, int) -> Reply)
    requires VisitRow(row, monday, stats).notice.None? && !VisitRow(row, monday, stats).stop
    ensures Run(pre + [row] + post, monday, stats).notices == Run(pre + post, monday, stats).notices
    ensures Run(pre + [row] + post, monday, stats).stopped == Run(pre + post, monday, stats).stopped
    decreases |post|
  {
    var s, t := pre + [row] + post, pre + post;
    var v := VisitRow(row, monday, stats);
    if post == [] {
      assert s[..|s| - 1] == pre && s[|s| - 1] == row && t == pre;
      RunLast(s, monday, stats);
      ExtendSkips(Run(pre, monday, stats), v);
    } else {
      var post', last := post[..|post| - 1], post[|post| - 1];
      RunSkipsFailedUser(pre, row, post', monday, stats);
      assert s[..|s| - 1] == pre + [row] + post' && s[|s| - 1] == last;
      assert t[..|t| - 1] == pre + post' && t[|t| - 1] == last;
      RunLast(s, monday, stats);
      RunLast(t, monday, stats);
      ExtendCongruent(Run(pre + [row] + post', monday, stats), Run(pre + post', monday, stats),
                      VisitRow(last, monday, stats));
    }
  }

  lemma RunLast(s: seq<DueRow>, monday: int, stats: (string, int) -> Reply)
    requires s != []
    ensures Run(s, monday, stats) == Extend(Run(s[..|s| - 1], monday, stats), VisitRow(s[|s| - 1], monday, stats))
  {
  }

  lemma ExtendSkips(prev: RunResult, v: Visit)
    requires v.notice.None? && !v.stop
    ensures Extend(prev, v).notices == prev.notices && Extend(prev, v).stopped == prev.stopped
  {
  }

  lemma ExtendCongruent(p: RunResult, q: RunResult, v: Visit)
    requires p.notices == q.notices && p.stopped == q.stopped
    ensures Extend(p, v).notices == Extend(q, v).notices && Extend(p, v).stopped == Extend(q, v).stopped
  {
  }

  /** The four report templates, chosen by the weekly flag and the sign of the difference. */
  lemma ReportTemplates(username: string, weekly: bool, diff: int)
    ensures var n := Report(username, weekly, diff);
      && n.username == username
      && n.headers[1] == (if diff >= 0 then Header("Tags", "tada") else Header("Tags", "warning"))
      && n.headers[0] == Header("Title",
           if diff < 0 then "You need to lock in!"
           else if weekly then "Good Job, don't forget to submit!" else "Good Job!")
      && (weekly && diff < 0 ==>
            n.body == "You're " + HmsText(diff) + " short of your weekly goal and you need to submit soon.")
      && (weekly && diff >= 0 ==> n.body == "You worked for " + HmsText(diff) + " more than your weekly goal was.")
      && (!weekly && diff >= 0 ==> n.body == "You worked for " + HmsText(diff) + " more than your goal was.")
      && (!weekly && diff < 0 ==> n.body == "You worked for " + HmsText(diff) + " less than your goal was.")
  {
  }

  /**
   * A due user with a project is asked for the seconds since the window
   * start (Monday 00:00 plus the lookback minutes, or Monday 04:00 for the
   * weekly check) and, when the reply succeeds, is sent the report for the
   * seconds of that project (0 when the reply lacks them) minus the goal.
   */
  lemma VisitWithProject(row: DueRow, monday: int, stats: (string, int) -> Reply)
    requires row.project.Some? && row.project.value != ""
    ensures var v, start := VisitRow(row, monday, stats), if row.weekly then monday + 4 * 3600 else monday + row.lookback * 60;
      var reply := stats(row.username, start);
      && v.request == Some(Request(row.username, start))
      && !v.stop
      && if reply.Response? && IsSuccess(reply.status) && reply.body.Some? then
           v.notice == Some(Report(row.username, row.weekly,
                                   ProjectSeconds(reply.body.value, row.project.value).GetOr(0) - row.goal * 3600))
         else v.notice.None?
  {
    var start := WindowStart(row, monday);
    assert start == if row.weekly then monday + 4 * 3600 else monday + row.lookback * 60;
    var reply := stats(row.username, start);
    if reply.Response? && IsSuccess(reply.status) && reply.body.Some? {
      VisitReported(row, monday, stats);
    } else {
      VisitUnreported(row, monday, stats);
    }
  }

  lemma VisitReported(row: DueRow, monday: int, stats: (string, int) -> Reply)
    requires row.project.Some? && row.project.value != ""
    requires var reply := stats(row.username, WindowStart(row, monday));
      reply.Response? && IsSuccess(reply.status) && reply.body.Some?
    ensures var reply := stats(row.username, WindowStart(row, monday));
      VisitRow(row, monday, stats).notice ==
        Some(Report(row.username, row.weekly, ProjectSeconds(reply.body.value, row.project.value).GetOr(0) - row.goal * 3600))
  {
  }

  lemma VisitUnreported(row: DueRow, monday: int, stats: (string, int) -> Reply)
    requires row.project.Some? && row.project.value != ""
    requires var reply := stats(row.username, WindowStart(row, monday));
      !(reply.Response? && IsSuccess(reply.status) && reply.body.Some?)
    ensures VisitRow(row, monday, stats).notice.None?
  {
  }

  /** The statistics reply used by the scenarios below: one project with the given total. */
  function OneProjectReply(name: string, total: int): Reply {
    Response(200, Some("OK"), Some(Obj(map["data" := Obj(map["projects" :=
      Arr([Obj(map["name" := Str(name), "total_seconds" := Int(total)])])])])))
  }

  /** The reply lists the project's own total; another name finds nothing. */
  lemma OneProjectSeconds(name: string, total: int, project: string)
    requires I64_MIN <= total <= I64_MAX
    ensures ProjectSeconds(OneProjectReply(name, total).body.value, project) ==
      if project == name then Some(total) else None
  {
    var item := Obj(map["name" := Str(name), "total_seconds" := Int(total)]);
    var items := ProjectList(OneProjectReply(name, total).body.value).value;
    assert items == [item];
    assert NameOf(item) == Some(name) && TotalOf(item) == Some(total);
    if project == name {
      LookupFound(items, project, 0);
    } else {
      LookupMissing(items, project);
    }
  }

  lemma RunSingle(row: DueRow, monday: int, stats: (string, int) -> Reply)
    ensures Run([row], monday, stats) == Extend(RunResult([], [], false), VisitRow(row, monday, stats))
  {
    assert [row][..0] == [];
  }

  lemma ReportOnGoal(username: string)
    ensures Report(username, false, 0) ==
      Notice(username, [Header("Title", "Good Job!"), Header("Tags", "tada")], "You worked for  more than your goal was.")
  {
    OnGoalText();
  }

  lemma OnGoalText()
    ensures "You worked for " + "" + " more than your goal was." == "You worked for  more than your goal was."
  {
  }

  lemma ReportHourShort(username: string)
    ensures Report(username, false, -3600) ==
      Notice(username, [Header("Title", "You need to lock in!"), Header("Tags", "warning")],
             "You worked for 60m  less than your goal was.")
  {
    HmsOneHour();
    HourShortText();
  }

  lemma HourShortText()
    ensures "You worked for " + "60m " + " less than your goal was." == "You worked for 60m  less than your goal was."
  {
  }

  /** Monday check, goal 2 h, 7200 s tracked on the project: an exact hit is a "Good Job!" with an empty difference. */
  lemma ScenarioGoalMet(monday: int, stats: (string, int) -> Reply)
    requires stats("alice", monday) == OneProjectReply("siege", 7200)
    ensures Run([DueRow("alice", Some("siege"), 2, 0, false)], monday, stats) ==
      RunResult([Request("alice", monday)],
                [Notice("alice", [Header("Title", "Good Job!"), Header("Tags", "tada")],
                        "You worked for  more than your goal was.")], false)
  {
    var row := DueRow("alice", Some("siege"), 2, 0, false);
    OneProjectSeconds("siege", 7200, "siege");
    RunSingle(row, monday, stats);
    assert WindowStart(row, monday) == monday;
    assert VisitRow(row, monday, stats) == Visit(Some(Request("alice", monday)), Some(Report("alice", false, 0)), false);
    ReportOnGoal("alice");
  }

  /** The same user with 3600 s tracked is an hour short, printed as sixty minutes. */
  lemma ScenarioGoalMissed(monday: int, stats: (string, int) -> Reply)
    requires stats("alice", monday) == OneProjectReply("siege", 3600)
    ensures Run([DueRow("alice", Some("siege"), 2, 0, false)], monday, stats).notices ==
      [Notice("alice", [Header("Title", "You need to lock in!"), Header("Tags", "warning")],
              "You worked for 60m  less than your goal was.")]
  {
    var row := DueRow("alice", Some("siege"), 2, 0, false);
    OneProjectSeconds("siege", 3600, "siege");
    RunSingle(row, monday, stats);
    assert VisitRow(row, monday, stats) == Visit(Some(Request("alice", monday)), Some(Report("alice", false, -3600)), false);
    ReportHourShort("alice");
  }

  /** A reply that lists only another project counts as zero seconds tracked. */
  lemma ScenarioOtherProject(monday: int, stats: (string, int) -> Reply)
    requires stats("alice", monday) == OneProjectReply("other", 9000)
    ensures Run([DueRow("alice", Some("siege"), 1, 0, false)], monday, stats).notices ==
      [Notice("alice", [Header("Title", "You need to lock in!"), Header("Tags", "warning")],
              "You worked for 60m  less than your goal was.")]
  {
    var row := DueRow("alice", Some("siege"), 1, 0, false);
    OneProjectSeconds("other", 9000, "siege");
    RunSingle(row, monday, stats);
    assert VisitRow(row, monday, stats) == Visit(Some(Request("alice", monday)), Some(Report("alice", false, -3600)), false);
    ReportHourShort("alice");
  }

  /** A server error for the statistics gives no notice. */
  lemma ScenarioServerError(monday: int, stats: (string, int) -> Reply)
    requires stats("alice", monday).Response? && stats("alice", monday).status == 500
    ensures Run([DueRow("alice", Some("siege"), 2, 0, false)], monday, stats) ==
      RunResult([Request("alice", monday)], [], false)
  {
    RunSingle(DueRow("alice", Some("siege"), 2, 0, false), monday, stats);
  }

  class Notifier {
    /** The last week-minute processed; 0 when the task starts. */
    var last: int
    /** The task has returned and no longer runs. */
    var halted: bool
    /** Every notice posted so far, in order. */
    var sent: seq<Notice>
    /** Every statistics request made so far, in order. */
    var requests: seq<Request>
    const store: UserTable

    constructor (store: UserTable)
      ensures this.store == store
      ensures last == 0 && !halted && sent == [] && requests == []
    {
      this.store := store;
      last := 0;
      halted := false;
      sent := [];
      requests := [];
    }

    /**
     * One wake-up at instant `now`. `order` is the order in which the
     * selection query returns the due users, `selectOk` and `resetOk` say
     * whether the two table statements succeed.
     */
    method Step(now: int, order: seq<string>, stats: (string, int) -> Reply, selectOk: bool, resetOk: bool)
      requires ListsDue(store.rows, order, WeekMinute(now))
      modifies this, store
      ensures var tick := WeekMinute(now);
        if old(halted) || tick == old(last) then
          && last == old(last) && halted == old(halted)
          && sent == old(sent) && requests == old(requests) && store.rows == old(store.rows)
        else if !selectOk then
          && last == tick && !halted
          && sent == old(sent) && requests == old(requests) && store.rows == old(store.rows)
        else
          var run := Run(DueRows(old(store.rows), order, tick), MondayMidnight(now), stats);
          && last == tick && halted == run.stopped
          && sent == old(sent) + run.notices
          && requests == old(requests) + run.requests
          && store.rows == if tick == 0 && !run.stopped && resetOk then ClearAll(old(store.rows)) else old(store.rows)
    {
      if halted {
        return;
      }
      var tick := WeekMinute(now);
      if tick == last {
        return;
      }
      last := tick;
      if !selectOk {
        return;
      }
      ProcessTick(tick, MondayMidnight(now), order, stats, resetOk);
    }

    /** The work of a new minute once the due rows are selected: the loop over them, then the reset at minute 0. */
    method ProcessTick(tick: int, monday: int, order: seq<string>, stats: (string, int) -> Reply, resetOk: bool)
      requires ListsDue(store.rows, order, tick) && !halted
      modifies this, store
      ensures var run := Run(DueRows(old(store.rows), order, tick), monday, stats);
        && last == old(last) && halted == run.stopped
        && sent == old(sent) + run.notices
        && requests == old(requests) + run.requests
        && store.rows == if tick == 0 && !run.stopped && resetOk then ClearAll(old(store.rows)) else old(store.rows)
    {
      var due := DueRows(store.rows, order, tick);
      VisitAll(due, monday, stats);
      if tick == 0 && resetOk && !halted {
        store.ClearProjects();
      }
    }

    /** The loop over the selected rows; a row that ends the task ends it at once. */
    method VisitAll(due: seq<DueRow>, monday: int, stats: (string, int) -> Reply)
      requires !halted
      modifies this`sent, this`requests, this`halted
      ensures var run := Run(due, monday, stats);
        halted == run.stopped && sent == old(sent) + run.notices && requests == old(requests) + run.requests
    {
      ghost var visit := (row: DueRow) => VisitRow(row, monday, stats);
      ghost var visits := VisitLoop(due, monday, stats, visit);
      RunIsFoldOf(due, visits, monday, stats, visit);
    }

    /** The loop itself, stated over the visits it makes: all of the rows, or up to the one that ends the task. */
    method VisitLoop(due: seq<DueRow>, monday: int, stats: (string, int) -> Reply, ghost visit: DueRow -> Visit)
      returns (ghost visits: seq<Visit>)
      requires !halted && IsVisitOf(visit, monday, stats)
      modifies this`sent, this`requests, this`halted
      ensures Visited(due, visits, visit) && (|visits| == |due| || Fold(visits).stopped)
      ensures halted == Fold(visits).stopped
      ensures sent == old(sent) + Fold(visits).notices && requests == old(requests) + Fold(visits).requests
    {
      var i := 0;
      visits := [];
      while i < |due|
        invariant 0 <= i <= |due| && |visits| == i && Visited(due, visits, visit)
        invariant !halted && !Fold(visits).stopped
        invariant sent == old(sent) + Fold(visits).notices && requests == old(requests) + Fold(visits).requests
      {
        var v := VisitNext(due, i, visits, monday, stats, visit);
        visits := visits + [v];
        if v.stop {
          halted := true;
          return;
        }
        i := i + 1;
      }
    }

    /** One pass of the loop: visit the next row and record its request and notice. */
    method VisitNext(due: seq<DueRow>, i: nat, ghost visits: seq<Visit>, monday: int, stats: (string, int) -> Reply,
                     ghost visit: DueRow -> Visit) returns (v: Visit)
      requires i == |visits| < |due| && IsVisitOf(visit, monday, stats) && Visited(due, visits, visit)
      modifies this`sent, this`requests
      ensures Visited(due, visits + [v], visit) && Fold(visits + [v]) == Extend(Fold(visits), v)
      ensures requests == old(requests) + OptionSeq(v.request) && sent == old(sent) + OptionSeq(v.notice)
    {
      v := VisitUser(due[i], monday, stats);
      FoldSnoc(visits, v);
      VisitedSnoc(due, visits, v, visit);
      requests := requests + OptionSeq(v.request);
      sent := sent + OptionSeq(v.notice);
    }
  }

  /** Clearing the projects keeps every user's schedule, so the same users are due. */
  lemma ListsDueAfterClear(rows: map<string, UserRow>, order: seq<string>, tick: int)
    requires ListsDue(rows, order, tick)
    ensures ListsDue(ClearAll(rows), order, tick)
  {
    var cleared := ClearAll(rows);
    forall u | u in cleared && Due(cleared[u].slots, tick)
      ensures u in order
    {
      assert rows[u].slots == cleared[u].slots;
    }
  }

  /** A task that wakes during minute 0 just after it starts does nothing: `last` already holds 0. */
  method StartInMinuteZero(table: UserTable, now: int, order: seq<string>, stats: (string, int) -> Reply,
                           selectOk: bool, resetOk: bool) returns (n: Notifier)
    requires WeekMinute(now) == 0 && ListsDue(table.rows, order, 0)
    modifies table
    ensures n.store == table && n.last == 0 && !n.halted && n.sent == [] && n.requests == []
    ensures table.rows == old(table.rows)
  {
    n := new Notifier(table);
    n.Step(now, order, stats, selectOk, resetOk);
  }

  /** Two wake-ups within one minute have the effect of the first alone. */
  method TwiceInOneMinute(n: Notifier, now: int, later: int, order: seq<string>, stats: (string, int) -> Reply,
                          selectOk: bool, resetOk: bool)
    requires WeekMinute(later) == WeekMinute(now) && MondayMidnight(later) == MondayMidnight(now)
    requires ListsDue(n.store.rows, order, WeekMinute(now))
    modifies n, n.store
    ensures var tick := WeekMinute(now);
      if old(n.halted) || tick == old(n.last) then
        && n.last == old(n.last) && n.halted == old(n.halted)
        && n.sent == old(n.sent) && n.requests == old(n.requests) && n.store.rows == old(n.store.rows)
      else if !selectOk then
        && n.last == tick && !n.halted
        && n.sent == old(n.sent) && n.requests == old(n.requests) && n.store.rows == old(n.store.rows)
      else
        var run := Run(DueRows(old(n.store.rows), order, tick), MondayMidnight(now), stats);
        && n.last == tick && n.halted == run.stopped
        && n.sent == old(n.sent) + run.notices
        && n.requests == old(n.requests) + run.requests
        && n.store.rows == if tick == 0 && !run.stopped && resetOk then ClearAll(old(n.store.rows)) else old(n.store.rows)
  {
    ghost var rows0 := n.store.rows;
    n.Step(now, order, stats, selectOk, resetOk);
    if n.store.rows != rows0 {
      ListsDueAfterClear(rows0, order, WeekMinute(now));
    }
    n.Step(later, order, stats, selectOk, resetOk);
  }
}
