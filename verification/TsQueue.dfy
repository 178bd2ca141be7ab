/**
 The queue of src/tsqueue.hpp: a FIFO under one mutex with two condition variables.

 A `Monitor` is the state the mutex protects, plus the wait sets of the condition variables.
 Each critical section (from acquiring the mutex to releasing it, by returning or by waiting)
 is one function on monitors, and one method of the class `SharedQueue`.
 Any number of threads may push and pop; a single thread waits on `empty_cond`.
 */
module TsQueue {
  import opened Messages

  type Tid = nat

  /** The thread in `wait_empty` or `wait_size`; `limit` is the queue length it waits for. */
  datatype EmptyWait = NotWaiting | Sleeping(limit: nat) | Woken(limit: nat)

  datatype Monitor<T> = Monitor(
    items: seq<T>,
    asleep: set<Tid>,  // in the wait set of data_cond
    woken: set<Tid>,   // taken out of it, but not yet holding the mutex again
    emptyWait: EmptyWait)

  const EMPTY_WAIT_LIMIT: nat := 0  // wait_empty is wait_size(0): both re-test after every wake-up

  function NewMonitor<T>(): Monitor<T> {
    Monitor([], {}, {}, NotWaiting)
  }

  /** `notify_one` may wake any sleeping thread. */
  predicate CanNotify<T>(q: Monitor<T>, t: Tid) {
    q.asleep == {} || t in q.asleep
  }

  function PushSection<T>(q: Monitor<T>, x: T, chosen: Tid): Monitor<T>
    requires CanNotify(q, chosen)
  {
    var q1 := q.(items := q.items + [x]);
    if q.asleep == {} then q1 else q1.(asleep := q.asleep - {chosen}, woken := q.woken + {chosen})
  }

  /** `wait_and_pop` by thread `t`, entered for the first time or resumed after a wake-up. */
  function PopSection<T>(q: Monitor<T>, t: Tid): (Monitor<T>, Option<T>)
    requires t !in q.asleep
  {
    if q.items == [] then
      (q.(asleep := q.asleep + {t}, woken := q.woken - {t}), None)
    else
      (Monitor(q.items[1..], q.asleep, q.woken - {t}, NotifyEmpty(q.emptyWait)), Some(q.items[0]))
  }

  function NotifyEmpty(w: EmptyWait): EmptyWait {
    if w.Sleeping? then Woken(w.limit) else w
  }

  /** `wait_size(limit)`, entered for the first time or resumed; true when the call returns. */
  function WaitSection<T>(q: Monitor<T>, limit: nat): (Monitor<T>, bool)
    requires !q.emptyWait.Sleeping?
  {
    if |q.items| > limit then (q.(emptyWait := Sleeping(limit)), false)
    else (q.(emptyWait := NotWaiting), true)
  }

  /** A condition variable may also wake a thread without a notification. */
  function SpuriousPopper<T>(q: Monitor<T>, t: Tid): Monitor<T>
    requires t in q.asleep
  {
    q.(asleep := q.asleep - {t}, woken := q.woken + {t})
  }

  function SpuriousWaiter<T>(q: Monitor<T>): Monitor<T>
    requires q.emptyWait.Sleeping?
  {
    q.(emptyWait := Woken(q.emptyWait.limit))
  }

  // ---------------------------------------------------------------- no lost wake-up

  /** Every item some sleeping popper could take is already promised to a woken one;
      a sleeping producer really has to wait. */
  ghost predicate NoLostWakeup<T>(q: Monitor<T>) {
    && q.asleep !! q.woken
    && (q.asleep != {} ==> |q.items| <= |q.woken|)
    && (q.emptyWait.Sleeping? ==> |q.items| > q.emptyWait.limit)
  }

  datatype MonitorAction<T> =
    | DoPush(x: T, chosen: Tid)
    | DoPop(t: Tid)
    | DoWait(limit: nat)
    | WakePopper(t: Tid)
    | WakeWaiter

  ghost predicate MonitorEnabled<T>(q: Monitor<T>, a: MonitorAction<T>) {
    match a
    case DoPush(_, chosen) => CanNotify(q, chosen)
    case DoPop(t) => t !in q.asleep
    case DoWait(limit) => q.emptyWait.NotWaiting? || q.emptyWait == Woken(limit)
    case WakePopper(t) => t in q.asleep
    case WakeWaiter => q.emptyWait.Sleeping?
  }

  ghost function MonitorApply<T>(q: Monitor<T>, a: MonitorAction<T>): Monitor<T>
    requires MonitorEnabled(q, a)
  {
    match a
    case DoPush(x, chosen) => PushSection(q, x, chosen)
    case DoPop(t) => PopSection(q, t).0
    case DoWait(limit) => WaitSection(q, limit).0
    case WakePopper(t) => SpuriousPopper(q, t)
    case WakeWaiter => SpuriousWaiter(q)
  }

  lemma NoLostWakeupStep<T>(q: Monitor<T>, a: MonitorAction<T>)
    requires NoLostWakeup(q) && MonitorEnabled(q, a)
    ensures NoLostWakeup(MonitorApply(q, a))
  {
    if a.DoPop? && a.t in q.woken {
      assert q.woken == (q.woken - {a.t}) + {a.t};
    }
  }

  ghost function MonitorRun<T>(actions: seq<MonitorAction<T>>): Option<Monitor<T>> {
    if actions == [] then Some(NewMonitor()) else
    match MonitorRun(actions[..|actions| - 1])
    case None => None
    case Some(q) =>
      var a := actions[|actions| - 1];
      if MonitorEnabled(q, a) then Some(MonitorApply(q, a)) else None
  }

  /** What every user of the queue may rely on, whatever the threads do. */
  lemma {:induction false} NoLostWakeupEver<T>(actions: seq<MonitorAction<T>>, q: Monitor<T>)
    requires MonitorRun(actions) == Some(q)
    ensures q.asleep != {} ==> |q.items| <= |q.woken|
    ensures q.emptyWait.Sleeping? ==> |q.items| > q.emptyWait.limit
    ensures NoLostWakeup(q)
  {
    if actions != [] {
      var before := MonitorRun(actions[..|actions| - 1]).value;
      NoLostWakeupEver(actions[..|actions| - 1], before);
      NoLostWakeupStep(before, actions[|actions| - 1]);
    }
  }

  // ---------------------------------------------------------------- the class

  class SharedQueue<T> {
    var items: seq<T>
    var asleep: set<Tid>
    var woken: set<Tid>
    var emptyWait: EmptyWait

    ghost function View(): Monitor<T>
      reads this
    {
      Monitor(items, asleep, woken, emptyWait)
    }

    constructor ()
      ensures View() == NewMonitor()
    {
      items, asleep, woken, emptyWait := [], {}, {}, NotWaiting;
    }

    method Push(x: T)
      modifies this
      ensures exists chosen ::
        CanNotify(old(View()), chosen) && View() == PushSection(old(View()), x, chosen)
    {
      items := items + [x];
      if asleep == {} {
        assert CanNotify(old(View()), 0);
      } else {
        var chosen :| chosen in asleep;
        asleep, woken := asleep - {chosen}, woken + {chosen};
        assert CanNotify(old(View()), chosen);
      }
    }

    /** None: the calling thread is now asleep. */
    method WaitAndPop(t: Tid) returns (front: Option<T>)
      requires t !in asleep
      modifies this
      ensures (View(), front) == PopSection(old(View()), t)
      ensures front.Some? ==> [front.value] + items == old(items)
    {
      if items == [] {
        asleep, woken := asleep + {t}, woken - {t};
        return None;
      }
      front := Some(items[0]);
      items, woken := items[1..], woken - {t};
      if emptyWait.Sleeping? {
        emptyWait := Woken(emptyWait.limit);
      }
    }

    method WaitSize(limit: nat) returns (done: bool)
      requires !emptyWait.Sleeping?
      modifies this
      ensures (View(), done) == WaitSection(old(View()), limit)
      ensures done ==> |items| <= limit && items == old(items)
    {
      done := |items| <= limit;
      emptyWait := if done then NotWaiting else Sleeping(limit);
    }

    method WaitEmpty() returns (done: bool)
      requires !emptyWait.Sleeping?
      modifies this
      ensures (View(), done) == WaitSection(old(View()), EMPTY_WAIT_LIMIT)
      ensures done ==> items == [] == old(items)
    {
      done := items == [];
      emptyWait := if done then NotWaiting else Sleeping(EMPTY_WAIT_LIMIT);
    }

    method Empty() returns (empty: bool)
      ensures empty <==> View().items == []
    {
      empty := items == [];
    }
  }
}
