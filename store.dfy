/**
 * The `users` table and the server functions that read and write it:
 * `set_project`, `set_times`, `query_data` (get-or-create with defaults) and
 * the weekly `UPDATE users SET project = ''` of the notification loop.
 * A database failure is the parameter `dbOk`; when it is false the
 * statement had no effect.
 */
module Store {
  import opened Wrappers
  import opened Schedule
  import opened Stats

  /** What `query_data` hands to the page: the ranked projects, the selected project, the seven `(trigger, goal)` pairs. */
  datatype Data = Data(projects: seq<Project>, primary: string, settings: Schedule)

  /** The row `query_data` inserts for a new username. */
  const DEFAULT_ROW: UserRow := UserRow(Some(""), DEFAULT_SCHEDULE)

  const DATABASE_ERROR: string := "Database error"

  /** `UPDATE users SET project = ? WHERE username = ?` */
  function WithProject(rows: map<string, UserRow>, username: string, project: string): (r: map<string, UserRow>)
    ensures r.Keys == rows.Keys
    ensures forall u :: u in rows && u != username ==> r[u] == rows[u]
    ensures username in rows ==> r[username].project == Some(project) && r[username].slots == rows[username].slots
  {
    if username in rows then rows[username := rows[username].(project := Some(project))] else rows
  }

  /** The seven triggers of `times` with the goals of `slots`. */
  function WithTriggers(slots: Schedule, times: Schedule): (r: Schedule)
    ensures forall d :: 0 <= d < DAYS ==> r[d].trigger == times[d].trigger && r[d].goal == slots[d].goal
  {
    seq(DAYS, d requires 0 <= d < DAYS => Slot(times[d].trigger, slots[d].goal))
  }

  /** `UPDATE users SET monday = ?, ..., sunday = ? WHERE username = ?`: the goal halves of `times` are not written. */
  function WithTimes(rows: map<string, UserRow>, username: string, times: Schedule): (r: map<string, UserRow>)
    ensures r.Keys == rows.Keys
    ensures forall u :: u in rows && u != username ==> r[u] == rows[u]
    ensures username in rows ==> r[username].project == rows[username].project
    ensures username in rows ==> forall d :: 0 <= d < DAYS ==>
      r[username].slots[d].trigger == times[d].trigger && r[username].slots[d].goal == rows[username].slots[d].goal
  {
    if username in rows then rows[username := rows[username].(slots := WithTriggers(rows[username].slots, times))]
    else rows
  }

  /** `UPDATE users SET project = ''`: every row keeps its schedule and has the empty project. */
  function ClearAll(rows: map<string, UserRow>): (r: map<string, UserRow>)
    ensures r.Keys == rows.Keys
    ensures forall u :: u in r ==> r[u].project == Some("") && r[u].slots == rows[u].slots
  {
    map u | u in rows :: rows[u].(project := Some(""))
  }

  /** Clearing twice is clearing once. */
  lemma ClearAllIdempotent(rows: map<string, UserRow>)
    ensures ClearAll(ClearAll(rows)) == ClearAll(rows)
  {
  }

  /** Whatever goals the form sends, the stored row differs from the form's pairs when a goal differs. */
  lemma SetTimesDropsGoals(rows: map<string, UserRow>, username: string, times: Schedule, d: nat)
    requires username in rows && d < DAYS && times[d].goal != rows[username].slots[d].goal
    ensures WithTimes(rows, username, times)[username].slots != times
  {
    assert WithTimes(rows, username, times)[username].slots[d].goal != times[d].goal;
  }

  class UserTable {
    /** The table, keyed by the unique username. */
    var rows: map<string, UserRow>

    constructor (rows: map<string, UserRow>)
      ensures this.rows == rows
    {
      this.rows := rows;
    }

    /** `set_project`: an unknown username updates no row and still succeeds. */
    method SetProject(username: string, project: string, dbOk: bool) returns (r: Result<()>)
      modifies this
      ensures r == if dbOk then Success(()) else Failure(DATABASE_ERROR)
      ensures rows == if dbOk then WithProject(old(rows), username, project) else old(rows)
    {
      if !dbOk {
        return Failure(DATABASE_ERROR);
      }
      rows := WithProject(rows, username, project);
      r := Success(());
    }

    /** `set_times`: writes the seven triggers of `times` and none of its goals. */
    method SetTimes(username: string, times: Schedule, dbOk: bool) returns (r: Result<()>)
      modifies this
      ensures r == if dbOk then Success(()) else Failure(DATABASE_ERROR)
      ensures rows == if dbOk then WithTimes(old(rows), username, times) else old(rows)
    {
      if !dbOk {
        return Failure(DATABASE_ERROR);
      }
      rows := WithTimes(rows, username, times);
      r := Success(());
    }

    /**
     * `query_data`: first the project list (its failure is returned before
     * the table is touched), then the user's row, inserted with the defaults
     * when the username is new. A NULL project reads as the empty string.
     */
    method QueryData(username: string, reply: Reply, dbOk: bool) returns (r: Result<Data>)
      modifies this
      ensures ReplyError(reply).Some? ==> r == Failure(ReplyError(reply).value) && rows == old(rows)
      ensures ReplyError(reply).None? && !dbOk ==> r == Failure(DATABASE_ERROR) && rows == old(rows)
      ensures ReplyError(reply).None? && dbOk ==>
        && r.Success?
        && RankedFrom(r.value.projects, ParsedEntries(reply.body.value).value)
        && (username in old(rows) ==>
              rows == old(rows)
              && r.value.primary == old(rows)[username].project.GetOr("")
              && r.value.settings == old(rows)[username].slots)
        && (username !in old(rows) ==>
              rows == old(rows)[username := DEFAULT_ROW]
              && r.value.primary == ""
              && r.value.settings == DEFAULT_SCHEDULE)
    {
      var projects := QueryProjects(reply);
      if projects.Failure? {
        return Failure(projects.error);
      }
      if !dbOk {
        return Failure(DATABASE_ERROR);
      }
      if username !in rows {
        rows := rows[username := DEFAULT_ROW];
        return Success(Data(projects.value, "", DEFAULT_SCHEDULE));
      }
      var row := rows[username];
      r := Success(Data(projects.value, row.project.GetOr(""), row.slots));
    }

    /** The weekly reset of every user's selected project. */
    method ClearProjects()
      modifies this
      ensures rows == ClearAll(old(rows))
    {
      rows := ClearAll(rows);
    }
  }
}
