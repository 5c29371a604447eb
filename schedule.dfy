/**
 * A user's row in the `users` table and the due-user selection the
 * notification loop runs every new week-minute: the `WHERE` filter and the
 * three `CASE` chains (goal, lookback minute, weekly flag), written as an
 * explicit first match over the days Monday..Sunday.
 */
module Schedule {
  import opened Wrappers

  const MONDAY: nat := 0
  const TUESDAY: nat := 1
  const WEDNESDAY: nat := 2
  const THURSDAY: nat := 3
  const FRIDAY: nat := 4
  const SATURDAY: nat := 5
  const SUNDAY: nat := 6
  const DAYS: nat := 7

  /** One day's `(trigger, goal)` pair: a week-minute in UTC and a goal in hours. */
  datatype Slot = Slot(trigger: int, goal: int)

  /** The seven pairs of a row, indexed Monday (0) to Sunday (6). */
  type Schedule = s: seq<Slot> | |s| == DAYS
    witness [Slot(0, 1), Slot(0, 1), Slot(0, 1), Slot(0, 1), Slot(0, 1), Slot(0, 3), Slot(0, 3)]

  /** A row of `users` without its key; `project` is `None` for a NULL column. */
  datatype UserRow = UserRow(project: Option<string>, slots: Schedule)

  /** The schedule a new row is created with: every trigger at minute 0, goals 1,1,1,1,1,3,3. */
  const DEFAULT_SCHEDULE: Schedule :=
    [Slot(0, 1), Slot(0, 1), Slot(0, 1), Slot(0, 1), Slot(0, 1), Slot(0, 3), Slot(0, 3)]

  /** `?1 IN (monday, ..., sunday)`: some day's trigger is the tick. */
  predicate Due(s: Schedule, tick: int): (b: bool)
    ensures b <==> tick in {s[MONDAY].trigger, s[TUESDAY].trigger, s[WEDNESDAY].trigger, s[THURSDAY].trigger,
                            s[FRIDAY].trigger, s[SATURDAY].trigger, s[SUNDAY].trigger}
  {
    exists d :: 0 <= d < DAYS && s[d].trigger == tick
  }

  /** The first day from `from` on whose trigger equals `tick`. */
  function FirstMatchFrom(s: Schedule, tick: int, from: nat): (r: Option<nat>)
    requires from <= DAYS
    ensures r.Some? ==> from <= r.value < DAYS && s[r.value].trigger == tick
    ensures r.Some? ==> forall d :: from <= d < r.value ==> s[d].trigger != tick
    ensures r.None? ==> forall d :: from <= d < DAYS ==> s[d].trigger != tick
    decreases DAYS - from
  {
    if from == DAYS then None
    else if s[from].trigger == tick then Some(from)
    else FirstMatchFrom(s, tick, from + 1)
  }

  /** The day whose `WHEN` branch a `CASE` over the seven triggers takes. */
  function FirstMatch(s: Schedule, tick: int): (r: Option<nat>)
    ensures r.Some? <==> Due(s, tick)
    ensures r.Some? ==> r.value < DAYS && s[r.value].trigger == tick
    ensures r.Some? ==> forall d :: 0 <= d < r.value ==> s[d].trigger != tick
  {
    FirstMatchFrom(s, tick, 0)
  }

  function GoalSum(s: Schedule): int {
    s[0].goal + s[1].goal + s[2].goal + s[3].goal + s[4].goal + s[5].goal + s[6].goal
  }

  /** The goal `CASE`: the matched day's goal, but the whole week's sum when Sunday is the first match. */
  function GoalOf(s: Schedule, day: nat): (g: int)
    requires day < DAYS
    ensures day != SUNDAY ==> g == s[day].goal
    ensures (forall d :: 0 <= d < DAYS ==> s[d].goal >= 0) ==> g >= s[day].goal
  {
    if day == SUNDAY then GoalSum(s) else s[day].goal
  }

  /**
   * The `last_time` `CASE`: the trigger of the day before the matched day,
   * 0 for Monday; for Wednesday the chain reads Thursday's trigger.
   */
  function LookbackOf(s: Schedule, day: nat): (r: int)
    requires day < DAYS
    ensures day == MONDAY ==> r == 0
    ensures day != MONDAY && day != WEDNESDAY ==> r == s[day - 1].trigger
    ensures day == WEDNESDAY ==> r == s[THURSDAY].trigger
  {
    match day
    case 0 => 0
    case 1 => s[MONDAY].trigger
    case 2 => s[THURSDAY].trigger
    case 3 => s[WEDNESDAY].trigger
    case 4 => s[THURSDAY].trigger
    case 5 => s[FRIDAY].trigger
    case _ => s[SATURDAY].trigger
  }

  /** One selected row: the columns `username, project, goal, last_time, sunday`. */
  datatype DueRow = DueRow(username: string, project: Option<string>, goal: int, lookback: int, weekly: bool)

  /** What the selection query returns for a due user at `tick`. */
  function Select(username: string, row: UserRow, tick: int): (r: DueRow)
    requires Due(row.slots, tick)
    ensures r.username == username && r.project == row.project
    ensures r.weekly <==> row.slots[SUNDAY].trigger == tick
  {
    var day := FirstMatch(row.slots, tick).value;
    DueRow(username, row.project, GoalOf(row.slots, day), LookbackOf(row.slots, day),
           row.slots[SUNDAY].trigger == tick)
  }

  /** The goal is the first matching day's goal in Monday..Sunday order, the week's sum when only Sunday matches. */
  lemma SelectGoal(username: string, row: UserRow, tick: int, day: nat)
    requires day < DAYS && row.slots[day].trigger == tick
    requires forall e :: 0 <= e < day ==> row.slots[e].trigger != tick
    ensures Due(row.slots, tick)
    ensures Select(username, row, tick).goal == if day == SUNDAY then GoalSum(row.slots) else row.slots[day].goal
  {
    FirstMatchIs(row.slots, tick, day);
  }

  /** The lookback minute, day by day, as the `last_time` chain has it. */
  lemma SelectLookback(username: string, row: UserRow, tick: int, day: nat)
    requires day < DAYS && row.slots[day].trigger == tick
    requires forall e :: 0 <= e < day ==> row.slots[e].trigger != tick
    ensures Due(row.slots, tick)
    ensures var s, lb := row.slots, Select(username, row, tick).lookback;
      && (day == MONDAY ==> lb == 0)
      && (day == TUESDAY ==> lb == s[MONDAY].trigger)
      && (day == WEDNESDAY ==> lb == s[THURSDAY].trigger)
      && (day == THURSDAY ==> lb == s[WEDNESDAY].trigger)
      && (day == FRIDAY ==> lb == s[THURSDAY].trigger)
      && (day == SATURDAY ==> lb == s[FRIDAY].trigger)
      && (day == SUNDAY ==> lb == s[SATURDAY].trigger)
  {
    FirstMatchIs(row.slots, tick, day);
  }

  lemma FirstMatchIs(s: Schedule, tick: int, day: nat)
    requires day < DAYS && s[day].trigger == tick
    requires forall e :: 0 <= e < day ==> s[e].trigger != tick
    ensures Due(s, tick) && FirstMatch(s, tick) == Some(day)
  {
    assert Due(s, tick);
  }

  /**
   * When Monday and Sunday share the trigger, the row carries Monday's goal
   * and Monday's lookback but the weekly flag.
   */
  lemma WeeklyFlagWithEarlierMatch(username: string, row: UserRow, tick: int)
    requires row.slots[MONDAY].trigger == tick && row.slots[SUNDAY].trigger == tick
    ensures Due(row.slots, tick)
    ensures var r := Select(username, row, tick);
      r.weekly && r.goal == row.slots[MONDAY].goal && r.lookback == 0
  {
    FirstMatchIs(row.slots, tick, MONDAY);
  }

  /** The Wednesday lookback follows Thursday's trigger, not Tuesday's. */
  lemma WednesdayLookbackReadsThursday()
    ensures var row := UserRow(Some("p"), [Slot(0, 1), Slot(100, 1), Slot(200, 1), Slot(300, 1),
                                           Slot(400, 1), Slot(500, 3), Slot(600, 3)]);
      Due(row.slots, 200) && Select("u", row, 200).lookback == 300
  {
    var s: Schedule := [Slot(0, 1), Slot(100, 1), Slot(200, 1), Slot(300, 1), Slot(400, 1), Slot(500, 3), Slot(600, 3)];
    FirstMatchIs(s, 200, WEDNESDAY);
  }

  /** Changing one day's goal by `delta` changes the Sunday (weekly) goal by exactly `delta`. */
  lemma SundayGoalTracksDayGoal(s: Schedule, day: nat, delta: int)
    requires day < DAYS
    ensures GoalOf(s[day := s[day].(goal := s[day].goal + delta)], SUNDAY) == GoalOf(s, SUNDAY) + delta
  {
  }
}
