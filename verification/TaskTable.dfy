/**
  * The task table and what scheduling does to it: whose turn is next, how long a task can wait, and
  * how evenly turns are shared.
  */
module TaskTable {
  import opened Bytes

  const MAX_TASKS := 8

  datatype TaskState = Ready | Running | Dead

  /** A task: the address of its stack page (0 for none), its state, how often it was scheduled. */
  datatype Task = Task(stack: nat, state: TaskState, count: nat)

  datatype Table = Table(tasks: seq<Task>, cur: nat)

  /** The idle task and the current one are not dead, and no task but the current is running. */
  ghost predicate Fit(t: Table)
  {
    && 0 < |t.tasks| <= MAX_TASKS && t.cur < |t.tasks|
    && !t.tasks[0].state.Dead? && !t.tasks[t.cur].state.Dead?
    && forall i :: 0 <= i < |t.tasks| && t.tasks[i].state.Running? ==> i == t.cur
  }

  // ── whose turn is next ──

  /** How many places task `i` comes after the current one, around the table; its own turn comes last. */
  function Steps(cur: nat, i: nat, n: nat): (k: nat)
    requires cur < n && i < n
    ensures 1 <= k <= n
  {
    if i > cur then i - cur else i + n - cur
  }

  lemma ModOnce(a: nat, n: nat)
    requires a < n
    ensures a % n == a && (a + n) % n == a
  {
    assert (a + n) / n == 1;
  }

  /** The first ready task after the current one. */
  ghost predicate Chosen(tasks: seq<Task>, cur: nat, next: nat)
  {
    && cur < |tasks| && next < |tasks| && tasks[next].state.Ready?
    && forall i :: 0 <= i < |tasks| && tasks[i].state.Ready? ==> Steps(cur, next, |tasks|) <= Steps(cur, i, |tasks|)
  }

  /** The place `k` places on from the current task. */
  function Place(cur: nat, k: nat, n: nat): nat
    requires n > 0
  {
    (cur + k) % n
  }

  lemma PlaceSteps(cur: nat, k: nat, n: nat)
    requires cur < n && 1 <= k <= n
    ensures Place(cur, k, n) < n && Steps(cur, Place(cur, k, n), n) == k
  {
    if cur + k >= n {
      ModOnce(cur + k - n, n);
    } else {
      ModOnce(cur + k, n);
    }
  }

  lemma StepsPlace(cur: nat, i: nat, n: nat)
    requires cur < n && i < n
    ensures Place(cur, Steps(cur, i, n), n) == i
  {
    ModOnce(i, n);
  }

  ghost predicate ReadyAt(tasks: seq<Task>, cur: nat, k: nat)
    requires cur < |tasks| && 1 <= k <= |tasks|
  {
    PlaceSteps(cur, k, |tasks|);
    tasks[Place(cur, k, |tasks|)].state.Ready?
  }

  /** Counting on from the current task, around the table and to itself at last, the chosen task is the
    * first that is ready. */
  lemma ChosenCounted(tasks: seq<Task>, cur: nat, k: nat)
    requires cur < |tasks| && 1 <= k <= |tasks|
    ensures Chosen(tasks, cur, Place(cur, k, |tasks|)) <==>
      ReadyAt(tasks, cur, k) && forall j :: 1 <= j < k ==> !ReadyAt(tasks, cur, j)
  {
    hide Steps, Place;
    var n := |tasks|;
    PlaceSteps(cur, k, n);
    forall j | 1 <= j < k && ReadyAt(tasks, cur, j)
      ensures !Chosen(tasks, cur, Place(cur, k, n))
    {
      PlaceSteps(cur, j, n);
    }
    forall i | 0 <= i < n
      ensures tasks[i].state.Ready? <==> ReadyAt(tasks, cur, Steps(cur, i, n))
    {
      StepsPlace(cur, i, n);
    }
  }

  /** The current task made ready again. */
  function Waked(t: Table): (r: seq<Task>)
    requires t.cur < |t.tasks|
    ensures |r| == |t.tasks|
  {
    t.tasks[t.cur := t.tasks[t.cur].(state := Ready)]
  }

  function Dispatched(tasks: seq<Task>, next: nat): (t: Table)
    requires next < |tasks|
    ensures |t.tasks| == |tasks|
  {
    Table(tasks[next := tasks[next].(state := Running, count := (tasks[next].count + 1) % TWO32)], next)
  }

  // ── events ──

  ghost predicate Yields(t: Table, u: Table)
  {
    t.cur < |t.tasks| && Chosen(Waked(t), t.cur, u.cur) && u == Dispatched(Waked(t), u.cur)
  }

  /** The end of a task's time: the current task is ready, and the next one has its turn unless it is
    * the current one again. */
  ghost predicate TimeOut(t: Table, u: Table)
  {
    && t.cur < |t.tasks| && Chosen(Waked(t), t.cur, u.cur)
    && u == if u.cur == t.cur then Table(Waked(t), t.cur) else Dispatched(Waked(t), u.cur)
  }

  /** A timer tick: nothing for the table, or the end of a task's time. */
  ghost predicate Ticks(t: Table, u: Table) { u == t || TimeOut(t, u) }

  /** The table after a yield, or after the end of a task's time, is determined by the table before it. */
  lemma YieldDetermined(t: Table, u: Table, w: Table)
    ensures Yields(t, u) && Yields(t, w) ==> u == w
    ensures TimeOut(t, u) && TimeOut(t, w) ==> u == w
  {
  }

  ghost predicate Creates(t: Table, u: Table, stack: nat)
  {
    |t.tasks| < MAX_TASKS && u == Table(t.tasks + [Task(stack, Ready, 0)], t.cur)
  }

  ghost predicate Kills(t: Table, u: Table, idx: nat)
  {
    && 0 < idx < |t.tasks|
    && u == t.(tasks := t.tasks[idx := t.tasks[idx].(state := Dead, stack := 0)])
  }

  /** The table task by task: after a yield the chosen task is running and has one turn more, the one
    * before it is ready, all others stay; a new task comes last, ready and without a turn; a killed one is
    * dead and has no stack. */
  lemma TableAfter(t: Table, u: Table, i: nat, idx: nat, stack: nat)
    requires i < |t.tasks| && t.cur < |t.tasks|
    ensures Yields(t, u) ==>
      && |u.tasks| == |t.tasks| && u.cur < |u.tasks|
      && u.tasks[i] ==
           if i == u.cur then Task(t.tasks[i].stack, Running, (t.tasks[i].count + 1) % 0x1_0000_0000)
           else if i == t.cur then Task(t.tasks[i].stack, Ready, t.tasks[i].count)
           else t.tasks[i]
    ensures Creates(t, u, stack) ==>
      && |t.tasks| < 8 && |u.tasks| == |t.tasks| + 1 && u.cur == t.cur
      && u.tasks[i] == t.tasks[i] && u.tasks[|t.tasks|] == Task(stack, Ready, 0)
    ensures Kills(t, u, idx) ==>
      && |u.tasks| == |t.tasks| && u.cur == t.cur
      && u.tasks[i] == if i == idx then Task(0, Dead, t.tasks[i].count) else t.tasks[i]
  {
  }

  datatype Event = Yield | Tick | Create(stack: nat) | Kill(idx: nat)

  /** One event; a task is killed only by another. */
  ghost predicate Happens(t: Table, e: Event, u: Table)
  {
    match e
    case Yield => Yields(t, u)
    case Tick => Ticks(t, u)
    case Create(stack) => Creates(t, u, stack)
    case Kill(idx) => Kills(t, u, idx) && idx != t.cur
  }

  ghost predicate Run(states: seq<Table>, events: seq<Event>)
  {
    && |states| == |events| + 1
    && Fit(states[0])
    && forall k :: 0 <= k < |events| ==> Happens(states[k], events[k], states[k + 1])
  }

  lemma FitKept(t: Table, e: Event, u: Table)
    requires Fit(t) && Happens(t, e, u)
    ensures Fit(u) && |u.tasks| >= |t.tasks|
  {
  }

  lemma {:induction false} RunFit(states: seq<Table>, events: seq<Event>, k: nat)
    requires Run(states, events) && k < |states|
    ensures Fit(states[k])
  {
    if k > 0 {
      RunFit(states, events, k - 1);
      FitKept(states[k - 1], events[k - 1], states[k]);
    }
  }

  /** Where some ready task is there, one is chosen; the current task made ready is one. */
  lemma SomeChosen(tasks: seq<Task>, cur: nat, i: nat) returns (next: nat)
    requires cur < |tasks| && i < |tasks| && tasks[i].state.Ready?
    ensures Chosen(tasks, cur, next)
    decreases Steps(cur, i, |tasks|)
  {
    if j :| 0 <= j < |tasks| && tasks[j].state.Ready? && Steps(cur, j, |tasks|) < Steps(cur, i, |tasks|) {
      next := SomeChosen(tasks, cur, j);
    } else {
      next := i;
    }
  }

  /** A yield goes to another task exactly when another one is alive. */
  lemma YieldsAway(t: Table, u: Table)
    requires Fit(t) && Yields(t, u)
    ensures u.cur != t.cur <==> exists i :: 0 <= i < |t.tasks| && i != t.cur && !t.tasks[i].state.Dead?
  {
    if i :| 0 <= i < |t.tasks| && i != t.cur && !t.tasks[i].state.Dead? {
      assert Waked(t)[i].state.Ready?;
    }
    assert !Waked(t)[u.cur].state.Dead?;
  }

  // ── waiting ──

  /** How far the turn is from task `i`, around a full table. */
  function Away(i: nat, cur: nat): (d: nat)
    requires i < MAX_TASKS && cur < MAX_TASKS
    ensures d < MAX_TASKS && (d == 0 <==> i == cur)
  {
    (i - cur) % MAX_TASKS
  }

  /** Task `i` is not killed by any of the first `m` events. */
  ghost predicate Spared(events: seq<Event>, i: nat)
  {
    forall k :: 0 <= k < |events| ==> events[k] != Kill(i)
  }

  lemma TurnCloser(i: nat, cur: nat, next: nat, n: nat)
    requires n <= MAX_TASKS && i < n && cur < n && next < n && i != cur && Steps(cur, next, n) <= Steps(cur, i, n)
    ensures Away(i, next) < Away(i, cur)
  {
  }

  /** An event leaves a waiting task as it is, and a yield brings the turn closer to it. */
  lemma Closer(t: Table, e: Event, u: Table, i: nat)
    requires Fit(t) && Happens(t, e, u) && i < |t.tasks| && i != t.cur && t.tasks[i].state.Ready? && e != Kill(i)
    ensures i < |u.tasks| && (u.cur != i ==> u.tasks[i] == t.tasks[i])
    ensures u.cur < MAX_TASKS && Away(i, u.cur) <= Away(i, t.cur)
    ensures e.Yield? ==> Away(i, u.cur) < Away(i, t.cur)
  {
    if u.cur != t.cur || e.Yield? {
      assert Waked(t)[i].state.Ready?;
      assert Steps(t.cur, u.cur, |t.tasks|) <= Steps(t.cur, i, |t.tasks|);
      TurnCloser(i, t.cur, u.cur, |t.tasks|);
    }
  }

  ghost function YieldCount(events: seq<Event>): nat
  {
    if events == [] then 0 else YieldCount(events[..|events| - 1]) + if events[|events| - 1].Yield? then 1 else 0
  }

  lemma RunPrefix(states: seq<Table>, events: seq<Event>, m: nat)
    requires Run(states, events) && m <= |events|
    ensures Run(states[..m + 1], events[..m])
  {
  }

  /** As long as a ready task has not had its turn, the yields so far are paid for by the distance
    * that the turn has come closer. */
  lemma {:induction false} Waiting(states: seq<Table>, events: seq<Event>, i: nat)
    requires Run(states, events) && i < |states[0].tasks| && states[0].tasks[i].state.Ready? && i != states[0].cur
    requires Spared(events, i) && forall k :: 0 < k < |states| ==> states[k].cur != i
    ensures var m := |events|;
      && Fit(states[m]) && i < |states[m].tasks| && states[m].tasks[i] == states[0].tasks[i]
      && YieldCount(events) + Away(i, states[m].cur) <= Away(i, states[0].cur)
    decreases |events|
  {
    hide Fit, Yields, Ticks, Creates, Kills;
    if |events| > 0 {
      var m := |events| - 1;
      RunPrefix(states, events, m);
      Waiting(states[..m + 1], events[..m], i);
      assert Happens(states[m], events[m], states[m + 1]);
      FitKept(states[m], events[m], states[m + 1]);
      Closer(states[m], events[m], states[m + 1], i);
    }
  }

  /** Bounded waiting: in every run with seven yields, whatever else happens, a task that was ready
    * and is not killed has had its turn. */
  lemma BoundedWaiting(states: seq<Table>, events: seq<Event>, i: nat)
    requires Run(states, events) && i < |states[0].tasks| && states[0].tasks[i].state.Ready? && Spared(events, i)
    requires YieldCount(events) >= 7
    ensures exists k :: 0 <= k < |states| && states[k].cur == i
  {
    if forall k :: 0 <= k < |states| ==> states[k].cur != i {
      Waiting(states, events, i);
    }
  }

  // ── killed tasks ──

  /** A task killed by another is dead for good and never has a turn again. */
  lemma {:induction false} KilledStaysDead(states: seq<Table>, events: seq<Event>, i: nat, k: nat)
    requires Run(states, events) && k < |states|
    requires i < |states[0].tasks| && states[0].tasks[i].state.Dead?
    ensures i < |states[k].tasks| && states[k].tasks[i].state.Dead? && states[k].cur != i
  {
    if k > 0 {
      KilledStaysDead(states, events, i, k - 1);
      RunFit(states, events, k - 1);
      assert Happens(states[k - 1], events[k - 1], states[k]);
    }
  }

  /** A killed task is still dead after the next yield exactly when it was not the current one: a
    * task that kills itself is made ready again. */
  lemma KilledSelf(t: Table, idx: nat, u: Table, w: Table)
    requires Fit(t) && Kills(t, u, idx) && Yields(u, w)
    ensures w.tasks[idx].state.Dead? <==> idx != t.cur
  {
  }

  // ── fairness ──

  /** The event gives a task the turn: a yield, or a tick that changes the current task. */
  ghost predicate Dispatches(t: Table, e: Event, u: Table)
  {
    e.Yield? || (e.Tick? && u.cur != t.cur)
  }

  /** How often task `i` was given the turn up to state `k`. */
  ghost function Turns(states: seq<Table>, events: seq<Event>, k: nat, i: nat): nat
    requires |states| == |events| + 1 && k < |states|
  {
    if k == 0 then 0
    else
      Turns(states, events, k - 1, i) +
      if Dispatches(states[k - 1], events[k - 1], states[k]) && states[k].cur == i then 1 else 0
  }

  /** No task is made or killed: only yields and ticks happen. */
  ghost predicate Settled(events: seq<Event>)
  {
    forall k :: 0 <= k < |events| ==> events[k].Yield? || events[k].Tick?
  }

  ghost predicate Live(t: Table, i: nat) { i < |t.tasks| && !t.tasks[i].state.Dead? }

  lemma EventCounts(t: Table, e: Event, u: Table, i: nat)
    requires Fit(t) && Happens(t, e, u) && i < |t.tasks| && t.tasks[i].count < TWO32
    ensures |u.tasks| >= |t.tasks|
    ensures u.tasks[i].count ==
      if Dispatches(t, e, u) && u.cur == i then (t.tasks[i].count + 1) % TWO32 else t.tasks[i].count
  {
  }

  lemma ModNext(a: nat)
    ensures (a % TWO32 + 1) % TWO32 == (a + 1) % TWO32
  {
  }

  /** Over every run the recorded count of a task goes up by its turns. */
  lemma {:induction false} CountsTurns(states: seq<Table>, events: seq<Event>, k: nat, i: nat)
    requires Run(states, events) && k < |states| && i < |states[0].tasks| && states[0].tasks[i].count < TWO32
    ensures i < |states[k].tasks|
    ensures states[k].tasks[i].count == (states[0].tasks[i].count + Turns(states, events, k, i)) % TWO32
  {
    hide Fit, Happens;
    if k > 0 {
      CountsTurns(states, events, k - 1, i);
      RunFit(states, events, k - 1);
      assert Happens(states[k - 1], events[k - 1], states[k]);
      EventCounts(states[k - 1], events[k - 1], states[k], i);
      ModNext(states[0].tasks[i].count + Turns(states, events, k - 1, i));
    }
  }

  /** Between turns, tasks have had `r` of them, those that come no later than the current one around
    * the table from the start `c0` one more. */
  ghost predicate Round(states: seq<Table>, events: seq<Event>, k: nat, c0: nat, r: int)
    requires |states| == |events| + 1 && k < |states|
  {
    var t := states[k];
    && c0 < |t.tasks| && t.cur < |t.tasks|
    && forall i: nat :: Live(t, i) ==>
         Turns(states, events, k, i) == r + if Steps(c0, i, |t.tasks|) <= Steps(c0, t.cur, |t.tasks|) then 1 else 0
  }

  /** The next task around the table from the current one, seen from the start of the run. */
  lemma StepsFrom(c0: nat, c: nat, i: nat, n: nat)
    requires c0 < n && c < n && i < n
    ensures var a, b := Steps(c0, c, n), Steps(c0, i, n);
      Steps(c, i, n) == if b > a then b - a else b - a + n
  {
  }

  /** One turn in a round: it moves on to the next live task, or wraps around. */
  lemma TurnPasses(t: Table, u: Table, c0: nat, i: nat)
    requires Fit(t) && Yields(t, u) && c0 < |t.tasks| && Live(u, i)
    ensures Live(t, i) && |u.tasks| == |t.tasks| && u.cur < |t.tasks|
    ensures var n := |t.tasks|; var a, b, x := Steps(c0, t.cur, n), Steps(c0, u.cur, n), Steps(c0, i, n);
      && (i == u.cur <==> x == b)
      && (b > a ==> !(a < x < b))
      && (b <= a ==> b <= x <= a)
  {
    assert Live(t, i) && Waked(t)[i].state.Ready?;
    StepsFrom(c0, t.cur, i, |t.tasks|);
    StepsFrom(c0, t.cur, u.cur, |t.tasks|);
  }

  /** A yield or a tick either is a yield or leaves the turn where it is; tasks live on. */
  lemma TurnOrNot(t: Table, e: Event, u: Table)
    requires Fit(t) && Happens(t, e, u) && (e.Yield? || e.Tick?)
    ensures |u.tasks| == |t.tasks| && u.cur < |u.tasks|
    ensures if Dispatches(t, e, u) then Yields(t, u) else u.cur == t.cur
    ensures forall i: nat :: Live(u, i) <==> Live(t, i)
  {
  }

  lemma RoundOn(states: seq<Table>, events: seq<Event>, k: nat, c0: nat, before: int) returns (r: int)
    requires |states| == |events| + 1 && 0 < k < |states| && Round(states, events, k - 1, c0, before)
    requires Fit(states[k - 1])
    requires Happens(states[k - 1], events[k - 1], states[k]) && (events[k - 1].Yield? || events[k - 1].Tick?)
    ensures Round(states, events, k, c0, r)
  {
    hide Fit, Yields, Happens, Dispatches;
    var t, e, u := states[k - 1], events[k - 1], states[k];
    TurnOrNot(t, e, u);
    r := before;
    if Dispatches(t, e, u) && Steps(c0, u.cur, |t.tasks|) <= Steps(c0, t.cur, |t.tasks|) {
      r := before + 1;
    }
    forall i: nat | Live(u, i)
      ensures Turns(states, events, k, i) == r + if Steps(c0, i, |u.tasks|) <= Steps(c0, u.cur, |u.tasks|) then 1 else 0
    {
      assert Live(t, i);
      if Dispatches(t, e, u) {
        TurnPasses(t, u, c0, i);
      }
    }
  }

  lemma {:induction false} Rounds(states: seq<Table>, events: seq<Event>, k: nat) returns (r: int)
    requires Run(states, events) && Settled(events) && k < |states|
    ensures Round(states, events, k, states[0].cur, r)
  {
    hide Happens;
    if k == 0 {
      r := -1;
    } else {
      r := Rounds(states, events, k - 1);
      RunFit(states, events, k - 1);
      assert Happens(states[k - 1], events[k - 1], states[k]);
      r := RoundOn(states, events, k, states[0].cur, r);
    }
  }

  lemma {:induction false} LiveKept(states: seq<Table>, events: seq<Event>, k: nat, i: nat)
    requires Run(states, events) && Settled(events) && k < |states|
    ensures |states[k].tasks| == |states[0].tasks| && (Live(states[k], i) <==> Live(states[0], i))
  {
    hide Happens, Live;
    if k > 0 {
      LiveKept(states, events, k - 1, i);
      RunFit(states, events, k - 1);
      assert Happens(states[k - 1], events[k - 1], states[k]);
      TurnOrNot(states[k - 1], events[k - 1], states[k]);
    }
  }

  /** Fairness: in every run of yields and ticks, the turns of two live tasks differ by one at most. */
  lemma Fairness(states: seq<Table>, events: seq<Event>, i: nat, j: nat)
    requires Run(states, events) && Settled(events) && Live(states[0], i) && Live(states[0], j)
    ensures -1 <= Turns(states, events, |events|, i) - Turns(states, events, |events|, j) <= 1
  {
    hide Happens;
    var r := Rounds(states, events, |events|);
    LiveKept(states, events, |events|, i);
    LiveKept(states, events, |events|, j);
  }
}
