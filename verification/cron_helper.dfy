/**
 * The plugin's cron helper: the two extra recurrences it registers, the
 * start/stop/status operations over the host's queue for its hook
 * `rop_cron_job`, and the translation of PHP `date()` formats into
 * moment.js formats that the status response carries.
 */
module CronHelper {
  import opened Wrappers
  import Php
  import opened WpCron

  const FiveMinutes := "5min"
  const ThirtyMinutes := "30min"

  /**
   * The `cron_schedules` filter: registers `5min` (300 s) and `30min`
   * (1800 s) unless an entry of that name already exists.
   */
  function RopCronSchedules(schedules: Schedules): (r: Schedules)
    ensures FiveMinutes in r && ThirtyMinutes in r
    ensures FiveMinutes !in schedules ==> r[FiveMinutes].interval == 300
    ensures ThirtyMinutes !in schedules ==> r[ThirtyMinutes].interval == 1800
    ensures forall k :: k in schedules ==> k in r && r[k] == schedules[k]
    ensures r.Keys == schedules.Keys + {FiveMinutes, ThirtyMinutes}
  {
    var withFive :=
      if FiveMinutes in schedules then schedules
      else schedules[FiveMinutes := Schedule(5 * 60, "Once every 5 minutes")];
    if ThirtyMinutes in withFive then withFive
    else withFive[ThirtyMinutes := Schedule(30 * 60, "Once every 30 minutes")]
  }

  /** Registering the recurrences a second time changes nothing. */
  lemma RopCronSchedulesIdempotent(schedules: Schedules)
    ensures RopCronSchedules(RopCronSchedules(schedules)) == RopCronSchedules(schedules)
  {
  }

  /**
   * What the helper reads and writes: the queue of its hook, and whether the
   * plugin's stored start time is set (`update_start_time` /
   * `reset_start_time` of the global settings).
   */
  datatype CronState = CronState(queue: Queue, startTimeSet: bool)

  /** An operation's boolean return value together with the state it leaves. */
  datatype Step = Step(result: bool, cron: CronState)

  /** `get_status`: the cast of `wp_next_scheduled` to a boolean. */
  function GetStatus(c: CronState): (running: bool)
    ensures running ==> |c.queue| > 0
    ensures Wellformed(c.queue) ==> (running <==> |c.queue| > 0)
  {
    Truthy(NextScheduled(c.queue))
  }

  /**
   * `create_cron(first)`. When nothing is queued it schedules the recurring
   * `5min` event at `now`, and, for a first start, also sets the start time
   * and schedules a single event at `now + 30`. It always answers true.
   */
  function CreateCron(c: CronState, first: bool, now: int, schedules: Schedules): (r: Step)
    ensures r.result
    ensures GetStatus(c) ==> r.cron == c
    ensures !GetStatus(c) ==> r.cron.startTimeSet == (first || c.startTimeSet)
    ensures Wellformed(c.queue) ==> Wellformed(r.cron.queue)
    ensures !GetStatus(c) && now > 0 && FiveMinutes in schedules ==>
              now in r.cron.queue && r.cron.queue[now] == Every(FiveMinutes, schedules[FiveMinutes].interval)
    ensures !GetStatus(c) && first && now + 30 > 0 ==>
              now + 30 in r.cron.queue && r.cron.queue[now + 30] == Once
    ensures !GetStatus(c) && Wellformed(c.queue) ==>
              r.cron.queue.Keys <= (if first then {now, now + 30} else {now})
  {
    if GetStatus(c) then Step(true, c)
    else
      var c1 := if first then CronState(ScheduleSingleEvent(c.queue, now + 30), true) else c;
      Step(true, c1.(queue := ScheduleEvent(c1.queue, now, FiveMinutes, schedules)))
  }

  /**
   * `remove_cron`: unschedules the event at the hook's NEXT timestamp only,
   * resets the start time, and always answers false.
   */
  function RemoveCron(c: CronState): (r: Step)
    ensures !r.result && !r.cron.startTimeSet
    ensures r.cron.queue.Keys <= c.queue.Keys
    ensures forall t :: t in r.cron.queue ==> r.cron.queue[t] == c.queue[t]
    ensures !GetStatus(c) ==> r.cron.queue == c.queue
    ensures GetStatus(c) && Wellformed(c.queue) ==> |r.cron.queue| == |c.queue| - 1
    ensures GetStatus(c) && Wellformed(c.queue) ==>
              forall t :: t in r.cron.queue ==> NextScheduled(c.queue).value < t
  {
    var next := NextScheduled(c.queue);
    var q := if Truthy(next) then UnscheduleEvent(c.queue, next.value) else c.queue;
    Step(false, CronState(q, false))
  }

  /** The fields of the array `manage_cron` answers with. */
  datatype Response = Response(currentStatus: bool, dateFormat: string, currentPhpDate: string, currentTime: string)

  datatype Managed = Managed(response: Response, cron: CronState)

  /**
   * `manage_cron(request)`: starts on `start`, stops on `stop`, does nothing
   * else on any other action, then reports the status and the site's date
   * settings. The site's date format, date and time are parameters.
   */
  function ManageCron(c: CronState, action: string, now: int, schedules: Schedules,
                      phpDateFormat: string, phpDate: string, currentTime: string): (r: Managed)
    ensures action == "start" ==> r.cron == CreateCron(c, true, now, schedules).cron
    ensures action == "stop" ==> r.cron == RemoveCron(c).cron
    ensures action != "start" && action != "stop" ==> r.cron == c
    ensures Wellformed(c.queue) ==> Wellformed(r.cron.queue)
    ensures Wellformed(c.queue) ==> (r.response.currentStatus <==> |r.cron.queue| > 0)
    ensures r.response.currentPhpDate == phpDate && r.response.currentTime == currentTime
  {
    var after :=
      if action == "start" then CreateCron(c, true, now, schedules).cron
      else if action == "stop" then RemoveCron(c).cron
      else c;
    Managed(Response(GetStatus(after), ConvertPhpFormatToJs(phpDateFormat), phpDate, currentTime), after)
  }

  /** Starting an already started cron changes nothing. */
  lemma StartIsIdempotent(c: CronState, now: int, schedules: Schedules,
                          phpDateFormat: string, phpDate: string, currentTime: string)
    ensures var once := ManageCron(c, "start", now, schedules, phpDateFormat, phpDate, currentTime).cron;
            ManageCron(once, "start", now, schedules, phpDateFormat, phpDate, currentTime).cron == once
  {
    CreateCronTwice(c, now, schedules);
  }

  lemma CreateCronTwice(c: CronState, now: int, schedules: Schedules)
    ensures var once := CreateCron(c, true, now, schedules).cron;
            CreateCron(once, true, now, schedules).cron == once
  {
  }

  /**
   * A first start queues two events and a stop removes only the earlier one,
   * so right after `start` then `stop` the single event at `now + 30` is
   * still queued and the reported status is still "running".
   */
  lemma StopAfterStartStillRunning(c: CronState, now: int, schedules: Schedules,
                                   phpDateFormat: string, phpDate: string, currentTime: string)
    requires |c.queue| == 0 && now > 0 && FiveMinutes in schedules
    ensures var started := ManageCron(c, "start", now, schedules, phpDateFormat, phpDate, currentTime).cron;
            var stopped := ManageCron(started, "stop", now, schedules, phpDateFormat, phpDate, currentTime);
            && stopped.response.currentStatus
            && stopped.cron.queue == map[now + 30 := Once]
  {
    StartThenRemoveLeavesSingleEvent(c, now, schedules);
  }

  lemma StartThenRemoveLeavesSingleEvent(c: CronState, now: int, schedules: Schedules)
    requires |c.queue| == 0 && now > 0 && FiveMinutes in schedules
    ensures RemoveCron(CreateCron(c, true, now, schedules).cron).cron.queue == map[now + 30 := Once]
  {
    var started := CreateCron(c, true, now, schedules).cron;
    var recurring := Every(FiveMinutes, schedules[FiveMinutes].interval);
    assert started.queue == map[now + 30 := Once, now := recurring];
    assert NextScheduled(started.queue) == Some(now);
  }

  /** The stop the helper evidently intends: every event of the hook is dropped. */
  function ClearCron(c: CronState): (r: Step)
    ensures !r.result && !r.cron.startTimeSet
    ensures |r.cron.queue| == 0 && !GetStatus(r.cron)
  {
    Step(false, CronState(ClearScheduledHook(c.queue), false))
  }

  /** The corrected stop differs from `remove_cron` only when two or more events are queued. */
  lemma ClearCronAgreesWithRemoveCron(c: CronState)
    requires Wellformed(c.queue) && |c.queue| <= 1
    ensures ClearCron(c) == RemoveCron(c)
  {
  }

  /** `manage_cron` with the corrected stop. */
  function ManageCronCorrected(c: CronState, action: string, now: int, schedules: Schedules,
                               phpDateFormat: string, phpDate: string, currentTime: string): (r: Managed)
    ensures action == "stop" ==> !r.response.currentStatus && |r.cron.queue| == 0
    ensures action == "start" ==> r.cron == CreateCron(c, true, now, schedules).cron
    ensures action != "start" && action != "stop" ==> r.cron == c
    ensures Wellformed(c.queue) ==> (r.response.currentStatus <==> |r.cron.queue| > 0)
  {
    var after :=
      if action == "start" then CreateCron(c, true, now, schedules).cron
      else if action == "stop" then ClearCron(c).cron
      else c;
    Managed(Response(GetStatus(after), ConvertPhpFormatToJs(phpDateFormat), phpDate, currentTime), after)
  }

  /** With the corrected stop, start then stop reports the cron as stopped. */
  lemma CorrectedStopAfterStartStops(c: CronState, now: int, schedules: Schedules,
                                     phpDateFormat: string, phpDate: string, currentTime: string)
    requires |c.queue| == 0 && now > 0 && FiveMinutes in schedules
    ensures var started := ManageCronCorrected(c, "start", now, schedules, phpDateFormat, phpDate, currentTime);
            var stopped := ManageCronCorrected(started.cron, "stop", now, schedules, phpDateFormat, phpDate, currentTime);
            started.response.currentStatus && !stopped.response.currentStatus
  {
  }

  // ----- PHP date() format to moment.js format -----

  /** The replacement table of `convert_phpformat_to_js`. */
  const MomentReplacements: map<string, string> := map[
    "d" := "DD", "D" := "ddd", "j" := "D", "l" := "dddd", "N" := "E", "S" := "o",
    "w" := "e", "z" := "DDD", "W" := "W", "F" := "MMMM", "m" := "MM", "M" := "MMM",
    "n" := "M", "t" := "", "L" := "", "o" := "YYYY", "Y" := "YYYY", "y" := "YY",
    "a" := "a", "A" := "A", "B" := "", "g" := "h", "G" := "H", "h" := "hh",
    "H" := "HH", "i" := "mm", "s" := "ss", "u" := "SSS", "e" := "zz", "I" := "",
    "O" := "", "P" := "", "T" := "", "Z" := "", "c" := "", "r" := "", "U" := "X"
  ]

  /** The format characters with no moment.js equivalent; the table deletes them. */
  const NoMomentEquivalent: set<char> := {'t', 'L', 'B', 'I', 'O', 'P', 'T', 'Z', 'c', 'r'}

  /**
   * `convert_phpformat_to_js(format)`: `strtr` with the table above. The
   * translation is per character: each input character is replaced by its
   * table entry, or kept when it has none, and what a replacement produced
   * is never translated again.
   */
  function ConvertPhpFormatToJs(format: string): (js: string)
    ensures js == Php.Translate(format, MomentReplacements)
  {
    ReplacementKeysAreSingleChars();
    Php.Strtr(format, MomentReplacements)
  }

  lemma ReplacementKeysAreSingleChars()
    ensures Php.SingleCharKeys(MomentReplacements)
  {
  }

  /** The translation distributes over concatenation. */
  lemma {:induction false} ConvertDistributes(a: string, b: string)
    ensures ConvertPhpFormatToJs(a + b) == ConvertPhpFormatToJs(a) + ConvertPhpFormatToJs(b)
  {
    Php.TranslateConcat(a, b, MomentReplacements);
  }

  /** `d` becomes `DD`, not the `dddddd` that translating `DD` again would give. */
  lemma ConvertDoesNotRescan()
    ensures ConvertPhpFormatToJs("d") == "DD"
    ensures ConvertPhpFormatToJs("DD") == "dddddd"
  {
    ConvertSingle('d');
    ConvertSingle('D');
    ImageOfDays();
    ConvertDistributes("D", "D");
    assert "DD" == "D" + "D";
  }

  lemma ConvertSingle(c: char)
    ensures ConvertPhpFormatToJs([c]) == Php.Image(MomentReplacements, c)
  {
    assert [c][1..] == "";
  }

  lemma ImageOfDays()
    ensures Php.Image(MomentReplacements, 'd') == "DD"
    ensures Php.Image(MomentReplacements, 'D') == "ddd"
  {
    assert "d" in MomentReplacements;
    assert "D" in MomentReplacements;
  }

  lemma ImageHasNoDeletedChar(c: char)
    ensures forall i :: 0 <= i < |Php.Image(MomentReplacements, c)| ==>
              Php.Image(MomentReplacements, c)[i] !in NoMomentEquivalent
    ensures |Php.Image(MomentReplacements, c)| <= 4
    ensures c in NoMomentEquivalent ==> Php.Image(MomentReplacements, c) == ""
  {
  }

  lemma {:induction false} TranslateHasNoDeletedChar(s: string)
    ensures forall i :: 0 <= i < |Php.Translate(s, MomentReplacements)| ==>
              Php.Translate(s, MomentReplacements)[i] !in NoMomentEquivalent
    ensures |Php.Translate(s, MomentReplacements)| <= 4 * |s|
  {
    if |s| > 0 {
      ImageHasNoDeletedChar(s[0]);
      TranslateHasNoDeletedChar(s[1..]);
    }
  }

  /**
   * The output never contains a character the table deletes, and each input
   * character yields at most four output characters.
   */
  lemma NoEquivalentCharsVanish(format: string)
    ensures forall i :: 0 <= i < |ConvertPhpFormatToJs(format)| ==>
              ConvertPhpFormatToJs(format)[i] !in NoMomentEquivalent
    ensures |ConvertPhpFormatToJs(format)| <= 4 * |format|
  {
    TranslateHasNoDeletedChar(format);
  }

  /**
   * The date format `manage_cron` reports is the site's format translated to
   * moment.js terms: it holds none of the deleted characters and is at most
   * four times as long as the site's format.
   */
  lemma ManageCronReportsMomentFormat(c: CronState, action: string, now: int, schedules: Schedules,
                                      phpDateFormat: string, phpDate: string, currentTime: string)
    ensures var f := ManageCron(c, action, now, schedules, phpDateFormat, phpDate, currentTime).response.dateFormat;
            && f == ConvertPhpFormatToJs(phpDateFormat)
            && (forall i :: 0 <= i < |f| ==> f[i] !in NoMomentEquivalent)
            && |f| <= 4 * |phpDateFormat|
  {
    NoEquivalentCharsVanish(phpDateFormat);
  }

  lemma {:induction false} TranslateKeepsUnmapped(s: string)
    requires forall i :: 0 <= i < |s| ==> [s[i]] !in MomentReplacements
    ensures Php.Translate(s, MomentReplacements) == s
  {
    if |s| > 0 {
      assert [s[0]] !in MomentReplacements;
      TranslateKeepsUnmapped(s[1..]);
    }
  }

  /** Text made only of characters outside the table passes through unchanged. */
  lemma ConvertKeepsUnmapped(format: string)
    requires forall i :: 0 <= i < |format| ==> [format[i]] !in MomentReplacements
    ensures ConvertPhpFormatToJs(format) == format
  {
    TranslateKeepsUnmapped(format);
  }
}
