/**
 * DynamicSchedule from clock/dynamic_schedule.py: a task is started and
 * ended, and ending it nudges that task's expected duration (in minutes)
 * towards what the session actually took, by 5 minutes at a time and never
 * below 5. Times are whole seconds passed in by the caller (datetime.now()
 * is a clock); the settings file is represented by the log of what each
 * save wrote.
 */
module Schedule {
  import opened Wrappers

  const ExpectedKey := "expected_duration"
  const DefaultExpectedMinutes := 25
  const StepMinutes := 5
  const FloorMinutes := 5

  /** The settings of one task, settings['tasks'][name]: a JSON object with numeric values. */
  type TaskSettings = map<string, int>

  /** settings['tasks']. */
  type Tasks = map<string, TaskSettings>

  datatype Error = KeyError(key: string)

  /** The minutes a task is expected to take: its setting, or 25 by default. */
  function ExpectedMinutes(settings: TaskSettings): int
  {
    if ExpectedKey in settings then settings[ExpectedKey] else DefaultExpectedMinutes
  }

  /**
   * The update adjust_schedule makes to a non-empty task setting for a session
   * of `duration` seconds: 5 minutes more when it ran over, 5 less (but not
   * below 5) when it ran short. It reads and writes the stored value, so
   * a setting without one raises KeyError unless the session took exactly
   * the default 25 minutes.
   */
  function Adjusted(settings: TaskSettings, duration: int): (r: Result<TaskSettings, Error>)
    ensures r.Ok? ==> r.value.Keys == settings.Keys
    ensures r.Ok? ==> forall k <- settings :: k != ExpectedKey ==> r.value[k] == settings[k]
  {
    var expected := ExpectedMinutes(settings) * 60;
    if duration > expected then
      if ExpectedKey in settings then Ok(settings[ExpectedKey := settings[ExpectedKey] + StepMinutes])
      else Err(KeyError(ExpectedKey))
    else if duration < expected then
      if ExpectedKey in settings then
        var lowered := settings[ExpectedKey] - StepMinutes;
        Ok(settings[ExpectedKey := if lowered > FloorMinutes then lowered else FloorMinutes])
      else Err(KeyError(ExpectedKey))
    else
      Ok(settings)
  }

  /** The three outcomes of an update, against the expected duration before it. */
  lemma AdjustedDirection(settings: TaskSettings, duration: int)
    requires ExpectedKey in settings
    ensures var e := settings[ExpectedKey];
      var r := Adjusted(settings, duration);
      && r.Ok?
      && (duration > e * 60 ==> r.value[ExpectedKey] == e + 5)
      && (duration < e * 60 ==> r.value[ExpectedKey] == (if e - 5 > 5 then e - 5 else 5))
      && (duration == e * 60 ==> r.value == settings)
  {
  }

  /** A short session never leaves the expectation below 5 minutes, and an expectation of at least 5 stays so. */
  lemma AdjustedKeepsFloor(settings: TaskSettings, duration: int)
    requires ExpectedKey in settings
    ensures var r := Adjusted(settings, duration);
      && (duration < settings[ExpectedKey] * 60 ==> r.value[ExpectedKey] >= FloorMinutes)
      && (settings[ExpectedKey] >= FloorMinutes ==> r.value[ExpectedKey] >= FloorMinutes)
  {
  }

  /** When the stored value is missing, only a session of exactly 25 minutes gets through. */
  lemma MissingExpectationRaises(settings: TaskSettings, duration: int)
    requires ExpectedKey !in settings
    ensures Adjusted(settings, duration).Err? <==> duration != DefaultExpectedMinutes * 60
  {
  }

  /** After k sessions that all run short, the expectation is max(5, e - 5k). */
  function AfterShortSessions(settings: TaskSettings, k: nat): (r: TaskSettings)
    requires ExpectedKey in settings
    ensures ExpectedKey in r
  {
    if k == 0 then settings
    else
      var prev := AfterShortSessions(settings, k - 1);
      Adjusted(prev, 0).value
  }

  lemma {:induction false} ShortSessionsReachFloor(settings: TaskSettings, k: nat)
    requires ExpectedKey in settings && settings[ExpectedKey] > 0
    ensures var e := settings[ExpectedKey] - 5 * k;
      AfterShortSessions(settings, k)[ExpectedKey] == if k == 0 then settings[ExpectedKey] else if e > 5 then e else 5
  {
    if k > 0 {
      ShortSessionsReachFloor(settings, k - 1);
    }
  }

  class DynamicSchedule {
    var currentTask: Option<string>
    var startTime: Option<int>
    /** settings['tasks']. A settings file without "tasks" behaves as one with no tasks. */
    var tasks: Tasks
    /** What each call of save_settings wrote, oldest first. */
    ghost var saved: seq<Tasks>

    /** A task is current exactly when a start time is recorded. */
    ghost predicate Valid()
      reads this
    {
      currentTask.Some? <==> startTime.Some?
    }

    constructor (tasks: Tasks)
      ensures Valid()
      ensures this.tasks == tasks && currentTask == None && startTime == None && saved == []
    {
      this.tasks := tasks;
      currentTask := None;
      startTime := None;
      saved := [];
    }

    /** start_task: the named task becomes current from `now`, whatever was running before. */
    method StartTask(name: string, now: int)
      modifies this`currentTask, this`startTime
      ensures Valid()
      ensures currentTask == Some(name) && startTime == Some(now)
    {
      currentTask := Some(name);
      startTime := Some(now);
    }

    /** Python's truth test on current_task: None and "" are false. */
    predicate HasTask()
      reads this
    {
      currentTask.Some? && currentTask.value != ""
    }

    /**
     * adjust_schedule for the current task. A task with no settings or empty
     * ones is left alone and nothing is saved; otherwise the update of
     * Adjusted is made in place and the settings are saved, unless it raises.
     */
    method AdjustSchedule(duration: int) returns (error: Option<Error>)
      modifies this`tasks, this`saved
      ensures var name := currentTask;
        var settings := if name.Some? && name.value in old(tasks) then old(tasks)[name.value] else map[];
        if settings == map[] then
          error == None && tasks == old(tasks) && saved == old(saved)
        else
          var r := Adjusted(settings, duration);
          && (error.Some? <==> r.Err?)
          && (r.Err? ==> tasks == old(tasks) && saved == old(saved) && error == Some(r.error))
          && (r.Ok? ==> tasks == old(tasks)[name.value := r.value] && saved == old(saved) + [tasks])
    {
      var settings := if currentTask.Some? && currentTask.value in tasks then tasks[currentTask.value] else map[];
      if settings == map[] {
        return None;
      }
      var name := currentTask.value;
      var expected := ExpectedMinutes(settings) * 60;
      if duration > expected {
        if ExpectedKey !in settings {
          return Some(KeyError(ExpectedKey));
        }
        tasks := tasks[name := settings[ExpectedKey := settings[ExpectedKey] + StepMinutes]];
      } else if duration < expected {
        if ExpectedKey !in settings {
          return Some(KeyError(ExpectedKey));
        }
        var lowered := settings[ExpectedKey] - StepMinutes;
        tasks := tasks[name := settings[ExpectedKey := if lowered > FloorMinutes then lowered else FloorMinutes]];
      }
      saved := saved + [tasks];
      error := None;
    }

    /**
     * end_task: with a task running, adjust its schedule for the time since
     * it started and then clear it. A KeyError from the adjustment leaves the
     * task running.
     */
    method EndTask(now: int) returns (error: Option<Error>)
      requires Valid()
      modifies this
      ensures Valid()
      ensures !old(HasTask()) ==>
                (error == None && currentTask == old(currentTask) && startTime == old(startTime)
                 && tasks == old(tasks) && saved == old(saved))
      ensures old(HasTask()) && error.Some? ==> (currentTask == old(currentTask) && startTime == old(startTime))
      ensures old(HasTask()) && error.None? ==> (currentTask == None && startTime == None)
      ensures old(HasTask()) ==>
        var name := old(currentTask).value;
        var settings := if name in old(tasks) then old(tasks)[name] else map[];
        var r := Adjusted(settings, now - old(startTime).value);
        if settings == map[] then error == None && tasks == old(tasks) && saved == old(saved)
        else
          && (error.Some? <==> r.Err?)
          && (r.Err? ==> error == Some(r.error) && tasks == old(tasks) && saved == old(saved))
          && (r.Ok? ==> tasks == old(tasks)[name := r.value] && saved == old(saved) + [tasks])
    {
      error := None;
      if HasTask() {
        var duration := now - startTime.value;
        error := AdjustSchedule(duration);
        if error.None? {
          currentTask := None;
          startTime := None;
        }
      }
    }
  }

  /** Every task's expectation stays at least 5 minutes once it is. */
  predicate ExpectationsAtLeastFloor(tasks: Tasks)
  {
    forall name <- tasks :: ExpectedKey in tasks[name] ==> tasks[name][ExpectedKey] >= FloorMinutes
  }

  lemma AdjustmentKeepsExpectationsAtLeastFloor(tasks: Tasks, name: string, duration: int)
    requires ExpectationsAtLeastFloor(tasks)
    requires name in tasks && Adjusted(tasks[name], duration).Ok?
    ensures ExpectationsAtLeastFloor(tasks[name := Adjusted(tasks[name], duration).value])
  {
    var settings := tasks[name];
    if ExpectedKey in settings {
      AdjustedKeepsFloor(settings, duration);
    }
  }
}
