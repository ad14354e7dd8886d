/**
 * The host's cron storage, reduced to what the cron helper touches: the
 * events queued for its one hook, called with no arguments. The host keys
 * stored events by timestamp, hook and argument hash, so such a hook has at
 * most one event per timestamp; the queue is therefore a map from
 * timestamp to recurrence.
 */
module WpCron {
  import opened Wrappers

  /** A registered recurrence, as found in the host's `cron_schedules` list. */
  datatype Schedule = Schedule(interval: int, display: string)

  type Schedules = map<string, Schedule>

  datatype Recurrence = Once | Every(schedule: string, interval: int)

  type Queue = map<int, Recurrence>

  /** The host refuses to store events at a timestamp that is not positive. */
  predicate Wellformed(q: Queue) {
    forall t :: t in q ==> t > 0
  }

  lemma LeastExists(s: set<int>)
    requires s != {}
    ensures exists m :: m in s && forall t :: t in s ==> m <= t
    decreases s
  {
    var x := PickOne(s);
    if s != {x} {
      LeastExists(s - {x});
      var m :| m in s - {x} && forall t :: t in s - {x} ==> m <= t;
      var least := if x < m then x else m;
      forall t | t in s
        ensures least <= t
      {
        if t != x {
          assert t in s - {x};
        }
      }
    } else {
      assert forall t :: t in s ==> t == x;
    }
  }

  lemma PickOne(s: set<int>) returns (x: int)
    requires s != {}
    ensures x in s
  {
    if forall e :: e !in s {
      assert false;
    }
    var e :| e in s;
    x := e;
  }

  function Least(s: set<int>): (m: int)
    requires s != {}
    ensures m in s && forall t :: t in s ==> m <= t
  {
    LeastExists(s);
    var m :| m in s && forall t :: t in s ==> m <= t;
    m
  }

  /** `wp_next_scheduled(hook)`: the earliest queued timestamp, if any. */
  function NextScheduled(q: Queue): (r: Option<int>)
    ensures r.None? <==> |q| == 0
    ensures r.Some? ==> r.value in q && forall t :: t in q ==> r.value <= t
  {
    if |q| == 0 then None else Some(Least(q.Keys))
  }

  /** PHP truthiness of a `wp_next_scheduled` result: `false` and `0` are falsy. */
  function Truthy(r: Option<int>): (truthy: bool)
    ensures r.None? ==> !truthy
    ensures r == Some(0) ==> !truthy
    ensures r.Some? && r.value > 0 ==> truthy
  {
    r.Some? && r.value != 0
  }

  /** `wp_schedule_event(timestamp, recurrence, hook)`. */
  function ScheduleEvent(q: Queue, timestamp: int, recurrence: string, schedules: Schedules): (r: Queue)
    ensures Wellformed(q) ==> Wellformed(r)
    ensures r.Keys <= q.Keys + {timestamp}
    ensures forall t :: t in q && t != timestamp ==> t in r && r[t] == q[t]
    ensures timestamp > 0 && recurrence in schedules ==>
              timestamp in r && r[timestamp] == Every(recurrence, schedules[recurrence].interval)
    ensures timestamp <= 0 || recurrence !in schedules ==> r == q
  {
    if timestamp <= 0 || recurrence !in schedules then q
    else q[timestamp := Every(recurrence, schedules[recurrence].interval)]
  }

  /**
   * `wp_schedule_single_event(timestamp, hook)`. The host's refusal of a
   * duplicate within ten minutes of an existing event is not modelled: the
   * helper only schedules a single event when nothing is queued.
   */
  function ScheduleSingleEvent(q: Queue, timestamp: int): (r: Queue)
    ensures Wellformed(q) ==> Wellformed(r)
    ensures r.Keys <= q.Keys + {timestamp}
    ensures forall t :: t in q && t != timestamp ==> t in r && r[t] == q[t]
    ensures timestamp > 0 ==> timestamp in r && r[timestamp] == Once
    ensures timestamp <= 0 ==> r == q
  {
    if timestamp <= 0 then q else q[timestamp := Once]
  }

  /** `wp_unschedule_event(timestamp, hook)`: drops the event at that timestamp only. */
  function UnscheduleEvent(q: Queue, timestamp: int): (r: Queue)
    ensures timestamp > 0 ==> timestamp !in r
    ensures forall t :: t in q && t != timestamp ==> t in r && r[t] == q[t]
    ensures r.Keys <= q.Keys
  {
    if timestamp <= 0 then q else q - {timestamp}
  }

  /** `wp_clear_scheduled_hook(hook)`: drops every event of the hook. */
  function ClearScheduledHook(q: Queue): (r: Queue)
    ensures |r| == 0
  {
    map[]
  }
}
