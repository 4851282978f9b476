/**
  * The scheduler: tasks on stacks of their own pages, switched by saving and restoring frames.
  */
module Scheduling {
  import opened Bytes
  import opened Pages
  import opened TaskTable
  import opened ContextSwitch

  const PAGE_WORDS := 1024
  const TASK_BYTES := 48
  const SCHEDULER_TICKS := 500

  // ── where things lie in memory ──

  /** The address of the task table, and the words of the stack that the idle task runs on. */
  datatype Layout = Layout(tableAt: nat, bootLo: nat, bootHi: nat)
  {
    /** The word of a task's saved stack pointer, the first field of its table entry. */
    function Cell(i: nat): nat { tableAt / 4 + TASK_BYTES / 4 * i }

    /** Table and boot stack lie in pages that the allocator never hands out, apart from each other
      * and inside memory. */
    ghost predicate Outside(pool: set<nat>)
    {
      && tableAt % 4 == 0 && Cell(MAX_TASKS) <= MAX_PAGES * PAGE_WORDS && bootHi <= MAX_PAGES * PAGE_WORDS
      && (forall k: nat :: k < MAX_TASKS ==> Cell(k) / PAGE_WORDS !in pool && !(bootLo <= Cell(k) < bootHi))
      && (forall w: nat {:trigger w / PAGE_WORDS} :: bootLo <= w < bootHi ==> w / PAGE_WORDS !in pool)
    }
  }

  /** Where the task table and the boot stack lie in the kernel's own memory, initialization keeps the
    * allocator away from them. */
  lemma KernelOutside(l: Layout, regions: seq<Region>, start: nat, end: nat)
    requires l.tableAt % 4 == 0 && start <= l.tableAt
    requires l.tableAt + TASK_BYTES * MAX_TASKS <= end <= MAX_PAGES * PAGE_SIZE
    requires start <= 4 * l.bootLo && 4 * l.bootHi <= end
    requires l.bootHi <= l.tableAt / 4 || l.Cell(MAX_TASKS) <= l.bootLo
    ensures l.Outside(PoolOf(regions, start, end))
  {
    forall w: nat | start <= 4 * w < end
      ensures w / PAGE_WORDS !in PoolOf(regions, start, end)
    {
      assert w / PAGE_WORDS == 4 * w / PAGE_SIZE;
      assert KernelPage(start, end, w / PAGE_WORDS);
    }
  }

  /** Word `w` lies on the stack of task `i`. */
  ghost predicate InHome(l: Layout, tasks: seq<Task>, i: nat, w: nat)
  {
    i < |tasks| &&
    if i == 0 then l.bootLo <= w < l.bootHi
    else tasks[i].stack != 0 && w / PAGE_WORDS == tasks[i].stack / PAGE_SIZE
  }

  /** The words from `lo` up to `hi` lie on the stack of task `i`. */
  ghost predicate OnStack(l: Layout, tasks: seq<Task>, i: nat, lo: int, hi: int)
  {
    forall w: nat :: lo <= w < hi ==> InHome(l, tasks, i, w)
  }

  /** Tasks that are not dead, the idle one excepted, hold distinct pages; dead ones hold none. */
  ghost predicate Owned(tasks: seq<Task>, held: set<nat>)
  {
    && |tasks| > 0 && tasks[0].stack == 0
    && (forall i :: 0 < i < |tasks| ==>
         if tasks[i].state.Dead? then tasks[i].stack == 0
         else tasks[i].stack != 0 && tasks[i].stack % PAGE_SIZE == 0 && tasks[i].stack / PAGE_SIZE in held)
    && (forall i, j :: 0 < i < j < |tasks| && tasks[i].stack != 0 ==> tasks[i].stack != tasks[j].stack)
  }

  /** No word lies on the stacks of two tasks, and no saved stack pointer on any. */
  lemma HomesApart(l: Layout, tasks: seq<Task>, held: set<nat>, pool: set<nat>, i: nat, j: nat, w: nat)
    requires Owned(tasks, held) && held <= pool && l.Outside(pool)
    requires InHome(l, tasks, i, w)
    ensures InHome(l, tasks, j, w) ==> i == j
    ensures j < MAX_TASKS ==> w != l.Cell(j)
  {
  }

  // ── parked tasks ──

  /** Task `i` goes on with `c` when it is switched to: its saved stack pointer leads to a frame on
    * its own stack that restores `c`. */
  ghost predicate Parks(l: Layout, m: seq<word>, tasks: seq<Task>, i: nat, c: Cpu)
  {
    && l.Cell(i) < |m|
    && var e := m[l.Cell(i)];
      && e % 4 == 0 && e / 4 + FRAME_WORDS <= |m| && e + 4 * FRAME_WORDS < TWO32
      && OnStack(l, tasks, i, e / 4, e / 4 + FRAME_WORDS)
      && LoadFrame(m, e / 4) == c
  }

  lemma StackSame(l: Layout, tasks: seq<Task>, after: seq<Task>, i: nat, lo: int, hi: int)
    requires OnStack(l, tasks, i, lo, hi) && i < |tasks| && i < |after| && after[i].stack == tasks[i].stack
    ensures OnStack(l, after, i, lo, hi)
  {
    forall w: nat | lo <= w < hi
      ensures InHome(l, after, i, w)
    {
      assert InHome(l, tasks, i, w);
    }
  }

  /** A parked task stays parked when its stack and its saved stack pointer are left alone. */
  lemma ParksFrame(l: Layout, m: seq<word>, n: seq<word>, tasks: seq<Task>, after: seq<Task>, i: nat, c: Cpu)
    requires Parks(l, m, tasks, i, c) && |n| == |m| && n[l.Cell(i)] == m[l.Cell(i)]
    requires i < |tasks| && i < |after| && after[i].stack == tasks[i].stack
    requires forall w: nat :: w < |m| && InHome(l, tasks, i, w) ==> n[w] == m[w]
    ensures Parks(l, n, after, i, c)
  {
    var e := m[l.Cell(i)];
    StackSame(l, tasks, after, i, e / 4, e / 4 + FRAME_WORDS);
    assert forall w: nat :: e / 4 <= w < e / 4 + FRAME_WORDS ==> InHome(l, tasks, i, w);
    LoadSame(m, n, e / 4);
  }

  /** Memory after a task whose stack pointer is at word `i` has called the switch: two arguments and
    * a return address, the saved registers, and the stack pointer in its cell. */
  ghost function SwitchMem(m: seq<word>, i: nat, cell: nat, target: word, ret: word, r: Regs): (n: seq<word>)
    requires 11 <= i <= |m| && 4 * i < TWO32 && 4 * cell < TWO32 && cell < |m| && !(i - 11 <= cell < i)
    ensures |n| == |m| && n[cell] == 4 * (i - 11)
    ensures forall k :: 0 <= k < |m| && !(i - 11 <= k < i) && k != cell ==> n[k] == m[k]
  {
    SaveFrame(m[i - 1 := target][i - 2 := 4 * cell][i - 3 := ret], i - 3, r, 4 * (i - 3))[cell := 4 * (i - 11)]
  }

  /** The task that called the switch is parked with what it goes on with after the call. */
  lemma SwitchParks(l: Layout, m: seq<word>, tasks: seq<Task>, p: nat, i: nat, target: word, ret: word, r: Regs)
    requires p < |tasks| && 11 <= i <= |m| && 4 * i < TWO32 && 4 * l.Cell(p) < TWO32 && l.Cell(p) < |m|
    requires !(i - 11 <= l.Cell(p) < i)
    requires OnStack(l, tasks, p, i - 11, i)
    ensures Parks(l, SwitchMem(m, i, l.Cell(p), target, ret, r), tasks, p, Cpu(r, 4 * (i - 2), ret))
  {
    var n := SwitchMem(m, i, l.Cell(p), target, ret, r);
    var pushed := m[i - 1 := target][i - 2 := 4 * l.Cell(p)][i - 3 := ret];
    SaveLoad(pushed, i - 3, r, 4 * (i - 3));
    LoadSame(SaveFrame(pushed, i - 3, r, 4 * (i - 3)), n, i - 11);
  }

  lemma FreshParks(l: Layout, m: seq<word>, tasks: seq<Task>, i: nat, top: nat, entry: word)
    requires i < |tasks| && FRAME_WORDS <= top <= |m| && 4 * top < TWO32 && l.Cell(i) < |m|
    requires !(top - FRAME_WORDS <= l.Cell(i) < top)
    requires OnStack(l, tasks, i, top - FRAME_WORDS, top)
    ensures Parks(l, FreshFrame(m, top, entry)[l.Cell(i) := 4 * (top - FRAME_WORDS)], tasks, i,
      Cpu(ZERO_REGS, 4 * top, entry))
  {
    var n := FreshFrame(m, top, entry);
    FreshLoad(m, top, entry);
    LoadSame(n, n[l.Cell(i) := 4 * (top - FRAME_WORDS)], top - FRAME_WORDS);
  }

  // ── the system as a whole ──

  /** The task table, memory, the pages that clients hold, and what each parked task goes on with. */
  datatype Sys = Sys(table: Table, m: seq<word>, held: set<nat>, parked: map<nat, Cpu>)

  /** Task `i` is alive and not the current one. */
  ghost predicate Waits(t: Table, i: nat) { i < |t.tasks| && i != t.cur && !t.tasks[i].state.Dead? }

  ghost predicate Sound(l: Layout, pool: set<nat>, s: Sys)
  {
    && |s.m| == MAX_PAGES * PAGE_WORDS && l.Outside(pool) && s.held <= pool
    && (forall p :: p in pool ==> 0 < p < MAX_PAGES)
    && Fit(s.table) && Owned(s.table.tasks, s.held)
    && forall i {:trigger Waits(s.table, i)} :: Waits(s.table, i) ==>
      i in s.parked && Parks(l, s.m, s.table.tasks, i, s.parked[i])
  }

  lemma ParkedFrame(l: Layout, m: seq<word>, tasks: seq<Task>, i: nat, c: Cpu)
    requires Parks(l, m, tasks, i, c)
    ensures l.Cell(i) < |m|
    ensures var e := m[l.Cell(i)];
      e % 4 == 0 && e / 4 + FRAME_WORDS <= |m| && e + 4 * FRAME_WORDS < TWO32 && LoadFrame(m, e / 4) == c
  {
  }

  lemma CellInside(l: Layout, pool: set<nat>, s: Sys, i: nat)
    requires Sound(l, pool, s) && i < MAX_TASKS
    ensures l.Cell(i) < |s.m| && 4 * l.Cell(i) < TWO32
  {
  }

  lemma OutsideHome(l: Layout, pool: set<nat>, s: Sys, p: nat, i: nat)
    requires Sound(l, pool, s) && p < |s.table.tasks| && 11 <= i
    requires OnStack(l, s.table.tasks, p, i - 11, i)
    ensures forall k: nat :: k < MAX_TASKS ==> !(i - 11 <= l.Cell(k) < i)
  {
    forall k: nat | k < MAX_TASKS && i - 11 <= l.Cell(k) < i
      ensures false
    {
      assert InHome(l, s.table.tasks, p, l.Cell(k));
      HomesApart(l, s.table.tasks, s.held, pool, p, k, l.Cell(k));
    }
  }

  lemma ChosenOther(t: Table, q: nat)
    requires Fit(t) && Chosen(Waked(t), t.cur, q) && q != t.cur
    ensures Waits(t, q)
  {
  }

  /** What one task pushes, and its own cell, leave the others' stacks and cells alone. */
  lemma Elsewhere(l: Layout, pool: set<nat>, s: Sys, p: nat, k: nat, n: seq<word>, i: nat)
    requires Sound(l, pool, s) && p < |s.table.tasks| && k < |s.table.tasks| && k != p && |n| == |s.m| && 11 <= i
    requires OnStack(l, s.table.tasks, p, i - 11, i)
    requires forall w: nat :: w < |n| && !(i - 11 <= w < i) && w != l.Cell(p) ==> n[w] == s.m[w]
    ensures l.Cell(k) < |n| && n[l.Cell(k)] == s.m[l.Cell(k)]
    ensures forall w: nat :: w < |n| && InHome(l, s.table.tasks, k, w) ==> n[w] == s.m[w]
  {
    OutsideHome(l, pool, s, p, i);
    forall w: nat | w < |n| && InHome(l, s.table.tasks, k, w)
      ensures n[w] == s.m[w]
    {
      HomesApart(l, s.table.tasks, s.held, pool, k, p, w);
    }
  }

  lemma OwnedSame(tasks: seq<Task>, after: seq<Task>, held: set<nat>)
    requires Owned(tasks, held) && |after| == |tasks|
    requires forall i :: 0 <= i < |tasks| ==>
      after[i].stack == tasks[i].stack && after[i].state.Dead? == tasks[i].state.Dead?
    ensures Owned(after, held)
  {
  }

  lemma FitDispatched(t: Table, u: Table)
    requires Fit(t) && Chosen(Waked(t), t.cur, u.cur) && u == Dispatched(Waked(t), u.cur)
    ensures Fit(u)
    ensures forall i :: 0 <= i < |t.tasks| ==>
      u.tasks[i].stack == t.tasks[i].stack && u.tasks[i].state.Dead? == t.tasks[i].state.Dead?
  {
  }

  lemma SoundFit(l: Layout, pool: set<nat>, s: Sys)
    requires Sound(l, pool, s)
    ensures 0 < |s.table.tasks| <= MAX_TASKS && s.table.cur < |s.table.tasks|
  {
  }

  /** A switch parks the task that yields and goes on with what the chosen task was parked with. */
  lemma SwitchSound(l: Layout, pool: set<nat>, s: Sys, u: Table, i: nat, ret: word, r: Regs)
    requires Sound(l, pool, s) && u.cur != s.table.cur
    requires Chosen(Waked(s.table), s.table.cur, u.cur) && u == Dispatched(Waked(s.table), u.cur)
    requires 11 <= i <= |s.m| && OnStack(l, s.table.tasks, s.table.cur, i - 11, i)
    ensures var p, q := s.table.cur, u.cur;
      && l.Cell(p) < |s.m| && l.Cell(q) < |s.m| && !(i - 11 <= l.Cell(p) < i)
      && var target := s.m[l.Cell(q)];
      var n := SwitchMem(s.m, i, l.Cell(p), target, ret, r);
      && q in s.parked && target % 4 == 0 && target / 4 + FRAME_WORDS <= |n| && target + 4 * FRAME_WORDS < TWO32
      && LoadFrame(n, target / 4) == s.parked[q]
      && Sound(l, pool, Sys(u, n, s.held, s.parked[p := Cpu(r, 4 * (i - 2), ret)]))
  {
    hide Parks, Chosen;
    var t, p, q := s.table, s.table.cur, u.cur;
    SoundFit(l, pool, s);
    ChosenOther(t, q);
    CellInside(l, pool, s, p);
    CellInside(l, pool, s, q);
    OutsideHome(l, pool, s, p, i);
    FitDispatched(t, u);
    StackSame(l, t.tasks, u.tasks, p, i - 11, i);
    var target := s.m[l.Cell(q)];
    var n := SwitchMem(s.m, i, l.Cell(p), target, ret, r);
    forall k | Waits(u, k)
      ensures k in s.parked[p := Cpu(r, 4 * (i - 2), ret)]
      ensures Parks(l, n, u.tasks, k, s.parked[p := Cpu(r, 4 * (i - 2), ret)][k])
    {
      if k == p {
        SwitchParks(l, s.m, u.tasks, p, i, target, ret, r);
      } else {
        assert Waits(t, k);
        Elsewhere(l, pool, s, p, k, n, i);
        ParksFrame(l, s.m, n, t.tasks, u.tasks, k, s.parked[k]);
      }
    }
    Elsewhere(l, pool, s, p, q, n, i);
    ParksFrame(l, s.m, n, t.tasks, t.tasks, q, s.parked[q]);
    ParkedFrame(l, n, t.tasks, q, s.parked[q]);
    OwnedSame(t.tasks, u.tasks, s.held);
  }

  /** Memory after a task of number `k` has been given the page at `stack`. */
  ghost function CreateMem(l: Layout, m: seq<word>, k: nat, stack: nat, entry: word): (n: seq<word>)
    requires stack / 4 + PAGE_WORDS <= |m| && l.Cell(k) < |m| && stack + PAGE_SIZE < TWO32
    ensures |n| == |m| && n[l.Cell(k)] == stack + PAGE_SIZE - 4 * FRAME_WORDS
    ensures forall w: nat :: w < |m| && !(stack / 4 <= w < stack / 4 + PAGE_WORDS) && w != l.Cell(k) ==> n[w] == m[w]
  {
    FreshFrame(m, stack / 4 + PAGE_WORDS, entry)[l.Cell(k) := stack + PAGE_SIZE - 4 * FRAME_WORDS]
  }

  lemma StackInside(l: Layout, pool: set<nat>, s: Sys, stack: nat)
    requires Sound(l, pool, s) && stack % PAGE_SIZE == 0 && stack / PAGE_SIZE in pool
    ensures stack != 0 && stack / 4 + PAGE_WORDS <= |s.m| && stack + PAGE_SIZE < TWO32
  {
  }

  lemma TopOf(stack: nat)
    requires stack % PAGE_SIZE == 0
    ensures 4 * (stack / 4 + PAGE_WORDS) == stack + PAGE_SIZE
  {
  }

  lemma PoolLayout(l: Layout, pool: set<nat>, s: Sys, u: Table, stack: nat)
    requires Sound(l, pool, s) && Creates(s.table, u, stack) && stack / PAGE_SIZE in pool
    ensures l.Outside(pool) && s.held + {stack / PAGE_SIZE} <= pool && |u.tasks| == |s.table.tasks| + 1
    ensures |s.table.tasks| < MAX_TASKS
  {
  }

  lemma NewHome(l: Layout, t: Table, u: Table, stack: nat)
    requires Creates(t, u, stack) && 0 < |t.tasks| && stack != 0 && stack % PAGE_SIZE == 0
    ensures OnStack(l, u.tasks, |t.tasks|, stack / 4 + PAGE_WORDS - FRAME_WORDS, stack / 4 + PAGE_WORDS)
  {
    var top := stack / 4 + PAGE_WORDS;
    forall w: nat | top - FRAME_WORDS <= w < top
      ensures InHome(l, u.tasks, |t.tasks|, w)
    {
      assert w / PAGE_WORDS == stack / PAGE_SIZE;
    }
  }

  lemma OutsideNew(l: Layout, pool: set<nat>, u: Table, held: set<nat>, k: nat, top: nat)
    requires Owned(u.tasks, held) && held <= pool && l.Outside(pool) && k < |u.tasks| && k < MAX_TASKS
    requires OnStack(l, u.tasks, k, top - FRAME_WORDS, top)
    ensures !(top - FRAME_WORDS <= l.Cell(k) < top)
  {
    if top - FRAME_WORDS <= l.Cell(k) < top {
      assert InHome(l, u.tasks, k, l.Cell(k));
      HomesApart(l, u.tasks, held, pool, k, k, l.Cell(k));
    }
  }

  lemma NewParks(l: Layout, pool: set<nat>, s: Sys, u: Table, stack: nat, entry: word)
    requires Sound(l, pool, s) && Creates(s.table, u, stack) && Owned(u.tasks, s.held + {stack / PAGE_SIZE})
    requires stack % PAGE_SIZE == 0 && stack / PAGE_SIZE in pool
    ensures var k := |s.table.tasks|;
      && stack / 4 + PAGE_WORDS <= |s.m| && l.Cell(k) < |s.m| && stack + PAGE_SIZE < TWO32
      && Parks(l, CreateMem(l, s.m, k, stack, entry), u.tasks, k, Cpu(ZERO_REGS, stack + PAGE_SIZE, entry))
  {
    hide Parks, FreshFrame, Sound, Owned, Creates, OnStack;
    var k, top := |s.table.tasks|, stack / 4 + PAGE_WORDS;
    SoundFit(l, pool, s);
    PoolLayout(l, pool, s, u, stack);
    CellInside(l, pool, s, k);
    StackInside(l, pool, s, stack);
    TopOf(stack);
    NewHome(l, s.table, u, stack);
    OutsideNew(l, pool, u, s.held + {stack / PAGE_SIZE}, k, top);
    FreshParks(l, s.m, u.tasks, k, top, entry);
  }

  lemma OwnedMore(t: Table, u: Table, stack: nat, held: set<nat>)
    requires Owned(t.tasks, held) && Creates(t, u, stack) && stack != 0 && stack % PAGE_SIZE == 0
    requires stack / PAGE_SIZE !in held
    ensures Owned(u.tasks, held + {stack / PAGE_SIZE})
  {
    var more := held + {stack / PAGE_SIZE};
    forall i, j | 0 < i < j < |u.tasks| && u.tasks[i].stack != 0
      ensures u.tasks[i].stack != u.tasks[j].stack
    {
      if j == |t.tasks| {
        assert t.tasks[i].stack / PAGE_SIZE in held;
      }
    }
  }

  lemma FreshElsewhere(l: Layout, pool: set<nat>, s: Sys, u: Table, stack: nat, j: nat, n: seq<word>)
    requires Sound(l, pool, s) && Creates(s.table, u, stack) && j < |s.table.tasks| && |n| == |s.m|
    requires stack % PAGE_SIZE == 0 && stack / PAGE_SIZE in pool && Owned(u.tasks, s.held + {stack / PAGE_SIZE})
    requires stack != 0
    requires forall w: nat :: w < |n| && w / PAGE_WORDS != stack / PAGE_SIZE && w != l.Cell(|s.table.tasks|) ==>
      n[w] == s.m[w]
    ensures l.Cell(j) < |n| && n[l.Cell(j)] == s.m[l.Cell(j)]
    ensures forall w: nat :: w < |n| && InHome(l, s.table.tasks, j, w) ==> n[w] == s.m[w]
  {
    CellInside(l, pool, s, j);
    var k := |s.table.tasks|;
    forall w: nat | w < |n| && InHome(l, s.table.tasks, j, w)
      ensures n[w] == s.m[w]
    {
      assert InHome(l, u.tasks, j, w);
      HomesApart(l, u.tasks, s.held + {stack / PAGE_SIZE}, pool, j, k, w);
    }
  }

  /** A new task is parked at its entry, on a page that no one held. */
  lemma CreateSound(l: Layout, pool: set<nat>, s: Sys, u: Table, stack: nat, entry: word)
    requires Sound(l, pool, s) && Creates(s.table, u, stack)
    requires stack % PAGE_SIZE == 0 && stack / PAGE_SIZE in pool && stack / PAGE_SIZE !in s.held
    ensures var k := |s.table.tasks|;
      && stack / 4 + PAGE_WORDS <= |s.m| && l.Cell(k) < |s.m| && stack + PAGE_SIZE < TWO32
      && Sound(l, pool, Sys(u, CreateMem(l, s.m, k, stack, entry), s.held + {stack / PAGE_SIZE},
          s.parked[k := Cpu(ZERO_REGS, stack + PAGE_SIZE, entry)]))
  {
    hide Parks, CreateMem;
    var k := |s.table.tasks|;
    SoundFit(l, pool, s);
    CellInside(l, pool, s, k);
    StackInside(l, pool, s, stack);
    OwnedMore(s.table, u, stack, s.held);
    var n, more := CreateMem(l, s.m, k, stack, entry), s.parked[k := Cpu(ZERO_REGS, stack + PAGE_SIZE, entry)];
    forall j | Waits(u, j)
      ensures j in more && Parks(l, n, u.tasks, j, more[j])
    {
      if j == k {
        NewParks(l, pool, s, u, stack, entry);
      } else {
        assert Waits(s.table, j);
        FreshElsewhere(l, pool, s, u, stack, j, n);
        ParksFrame(l, s.m, n, s.table.tasks, u.tasks, j, s.parked[j]);
      }
    }
  }

  lemma SoundTable(l: Layout, pool: set<nat>, s: Sys)
    requires Sound(l, pool, s)
    ensures Fit(s.table) && l.tableAt % 4 == 0
  {
  }

  lemma OwnedLess(t: Table, u: Table, idx: nat, held: set<nat>)
    requires Owned(t.tasks, held) && Kills(t, u, idx)
    ensures Owned(u.tasks, if t.tasks[idx].stack == 0 then held else held - {t.tasks[idx].stack / PAGE_SIZE})
  {
    forall i | 0 < i < |u.tasks| && !u.tasks[i].state.Dead? && t.tasks[idx].stack != 0
      ensures u.tasks[i].stack / PAGE_SIZE != t.tasks[idx].stack / PAGE_SIZE
    {
      assert u.tasks[i].stack == t.tasks[i].stack;
    }
  }

  /** Killing gives up the page of the task, if it still has one. */
  lemma KillSound(l: Layout, pool: set<nat>, s: Sys, u: Table, idx: nat)
    requires Sound(l, pool, s) && Kills(s.table, u, idx) && idx != s.table.cur
    ensures Sound(l, pool, Sys(u, s.m, if s.table.tasks[idx].stack == 0 then s.held
      else s.held - {s.table.tasks[idx].stack / PAGE_SIZE}, s.parked))
  {
    hide Parks;
    var t := s.table;
    OwnedLess(t, u, idx, s.held);
    forall j | Waits(u, j)
      ensures j in s.parked && Parks(l, s.m, u.tasks, j, s.parked[j])
    {
      assert Waits(t, j);
      ParkedFrame(l, s.m, t.tasks, j, s.parked[j]);
      ParksFrame(l, s.m, s.m, t.tasks, u.tasks, j, s.parked[j]);
    }
  }

  /** A word that the current task may write: its own stack, or memory that is no task's. */
  ghost predicate Writable(l: Layout, t: Table, w: nat)
  {
    && (forall i: nat :: i < |t.tasks| && i != t.cur ==> !InHome(l, t.tasks, i, w))
    && (forall k: nat :: k < MAX_TASKS ==> w != l.Cell(k))
  }

  /** Work of the current task leaves the others parked. */
  lemma WorkSound(l: Layout, pool: set<nat>, s: Sys, w: nat, x: word)
    requires Sound(l, pool, s) && w < |s.m| && Writable(l, s.table, w)
    ensures Sound(l, pool, s.(m := s.m[w := x]))
  {
    hide Parks;
    var t, n := s.table, s.m[w := x];
    forall j | Waits(t, j)
      ensures j in s.parked && Parks(l, n, t.tasks, j, s.parked[j])
    {
      CellInside(l, pool, s, j);
      ParksFrame(l, s.m, n, t.tasks, t.tasks, j, s.parked[j]);
    }
  }

  /** The pages that tasks run on. */
  ghost function StackPages(t: Table): set<nat>
  {
    set i | 0 < i < |t.tasks| && t.tasks[i].stack != 0 :: t.tasks[i].stack / PAGE_SIZE
  }

  /** Other clients take and give back pages that are no task's stack. */
  lemma ClientSound(l: Layout, pool: set<nat>, s: Sys, held: set<nat>)
    requires Sound(l, pool, s) && held <= pool && StackPages(s.table) <= held
    ensures Sound(l, pool, s.(held := held))
  {
    hide Parks;
    var t := s.table;
    forall i | 0 < i < |t.tasks| && !t.tasks[i].state.Dead?
      ensures t.tasks[i].stack / PAGE_SIZE in held
    {
      assert t.tasks[i].stack / PAGE_SIZE in StackPages(t);
    }
  }

  lemma StacksHeld(l: Layout, pool: set<nat>, s: Sys)
    requires Sound(l, pool, s)
    ensures StackPages(s.table) <= s.held
  {
  }

  /** A first frame as far as it has been written: the entry, and the first `r` zeros. */
  ghost function FreshPart(m: seq<word>, top: nat, entry: word, r: nat): (n: seq<word>)
    requires r < FRAME_WORDS <= top <= |m|
    ensures |n| == |m|
  {
    if r == 0 then m[top - 1 := entry] else FreshPart(m, top, entry, r - 1)[top - 1 - r := 0]
  }

  lemma FreshWhole(m: seq<word>, top: nat, entry: word)
    requires FRAME_WORDS <= top <= |m|
    ensures FreshPart(m, top, entry, 8) == FreshFrame(m, top, entry)
  {
    assert FreshPart(m, top, entry, 1) == m[top - 1 := entry][top - 2 := 0];
    assert FreshPart(m, top, entry, 2) == m[top - 1 := entry][top - 2 := 0][top - 3 := 0];
    assert FreshPart(m, top, entry, 4) == FreshPart(m, top, entry, 2)[top - 4 := 0][top - 5 := 0];
    assert FreshPart(m, top, entry, 6) == FreshPart(m, top, entry, 4)[top - 6 := 0][top - 7 := 0];
  }

  // ── one move of the system, as tasks see it ──

  /** The task table, what each parked task goes on with, and what the current one is doing. */
  datatype Context = Context(table: Table, parked: map<nat, Cpu>, cpu: Cpu)

  /** The turn passes to another task: it goes on with what it was parked with, and the one before is
    * parked with its registers, its stack as after the return from the call, and the return address. */
  ghost predicate PassesTurn(a: Context, b: Context, ret: word)
  {
    && b.table.cur in a.parked && b.cpu == a.parked[b.table.cur] && a.cpu.esp >= 8
    && b.parked == a.parked[a.table.cur := Cpu(a.cpu.regs, a.cpu.esp - 8, ret)]
  }

  /** What the system does next: the current task works, gives up its turn or is interrupted, a task
    * is made, or one is killed by another. */
  datatype Move = Work | GiveUp(ret: word) | Interrupt(ret: word) | Make(stack: nat, entry: word) | Remove(idx: nat)

  ghost predicate Moves(a: Context, m: Move, b: Context)
  {
    match m
    case Work => b.table == a.table && b.parked == a.parked
    case GiveUp(ret) => Yields(a.table, b.table) && b.table.cur != a.table.cur && PassesTurn(a, b, ret)
    case Interrupt(ret) =>
      Ticks(a.table, b.table) &&
      if b.table.cur != a.table.cur then PassesTurn(a, b, ret) else b.parked == a.parked && b.cpu == a.cpu
    case Make(stack, entry) =>
      && Creates(a.table, b.table, stack) && stack + PAGE_SIZE < TWO32 && b.cpu == a.cpu
      && b.parked == a.parked[|a.table.tasks| := Cpu(ZERO_REGS, stack + PAGE_SIZE, entry)]
    case Remove(idx) => Kills(a.table, b.table, idx) && idx != a.table.cur && b.parked == a.parked && b.cpu == a.cpu
  }

  /** Waking the current task and passing the turn on, put together. */
  lemma TurnPassed(a: Context, b: Context, c: Context, ret: word)
    requires a.table.cur < |a.table.tasks| && b == a.(table := Table(Waked(a.table), a.table.cur))
    requires Chosen(b.table.tasks, a.table.cur, c.table.cur) && c.table == Dispatched(b.table.tasks, c.table.cur)
    requires c.table.cur != a.table.cur && PassesTurn(b, c, ret)
    ensures Moves(a, GiveUp(ret), c) && Moves(a, Interrupt(ret), c) && TimeOut(a.table, c.table)
  {
  }

  lemma TurnKept(a: Context, b: Context, ret: word)
    requires a.table.cur < |a.table.tasks| && b == a.(table := Table(Waked(a.table), a.table.cur))
    requires Chosen(b.table.tasks, a.table.cur, a.table.cur)
    ensures Moves(a, Interrupt(ret), b) && TimeOut(a.table, b.table)
  {
  }

  // ── the scheduler ──

  lemma PageInside(l: Layout, pool: set<nat>, s: Sys, p: nat)
    requires Sound(l, pool, s) && p in s.held
    ensures p in pool && p < MAX_PAGES
  {
  }

  /** Making the current task ready again leaves the others parked. */
  lemma WakedSound(l: Layout, pool: set<nat>, s: Sys)
    requires Sound(l, pool, s) && s.table.cur < |s.table.tasks|
    ensures Sound(l, pool, s.(table := Table(Waked(s.table), s.table.cur)))
  {
    hide Parks;
    var t, u := s.table, Table(Waked(s.table), s.table.cur);
    OwnedSame(t.tasks, u.tasks, s.held);
    forall j | Waits(u, j)
      ensures j in s.parked && Parks(l, s.m, u.tasks, j, s.parked[j])
    {
      assert Waits(t, j);
      ParkedFrame(l, s.m, t.tasks, j, s.parked[j]);
      ParksFrame(l, s.m, s.m, t.tasks, u.tasks, j, s.parked[j]);
    }
  }

  lemma AroundTable(i: nat, n: nat)
    requires i < n
    ensures (i + 1) % n == if i + 1 < n then i + 1 else 0
  {
  }

  /** The place after `i` around the table, seen from the current task. */
  lemma NextPlace(cur: nat, i: nat, n: nat)
    requires cur < n && i < n
    ensures var next := (i + 1) % n;
      && 0 <= next < n
      && (i == cur ==> Steps(cur, next, n) == 1)
      && (i != cur ==> Steps(cur, i, n) < n && Steps(cur, next, n) == Steps(cur, i, n) + 1 > 1)
    ensures Steps(cur, cur, n) == n
    ensures forall j :: 0 <= j < n && Steps(cur, j, n) <= Steps(cur, i, n) && j != i ==>
      Steps(cur, j, n) < Steps(cur, i, n)
  {
    AroundTable(i, n);
  }

  lemma CellAddress(l: Layout, i: nat)
    requires l.tableAt % 4 == 0
    ensures l.tableAt + 48 * i == 4 * l.Cell(i)
  {
  }

  /** With another live task, the chosen one is another one. */
  lemma ChosenAway(t: Table, next: nat)
    requires Fit(t) && Chosen(Waked(t), t.cur, next) && exists i: nat :: Waits(t, i)
    ensures next != t.cur
  {
    var i: nat :| Waits(t, i);
    assert Waked(t)[i].state.Ready?;
  }

  lemma StackOf(l: Layout, pool: set<nat>, s: Sys, i: nat)
    requires Sound(l, pool, s) && 0 < i < |s.table.tasks|
    ensures var task := s.table.tasks[i];
      if task.state.Dead? then task.stack == 0
      else
        && task.stack != 0
        && task.stack / PAGE_SIZE in s.held
        && task.stack / PAGE_SIZE in pool
        && task.stack / PAGE_SIZE < MAX_PAGES
  {
  }

  /** With one task there is nothing to keep but its place in the table. */
  lemma IdleSound(l: Layout, pool: set<nat>, s: Sys)
    requires s.table == Table([Task(0, Ready, 0)], 0)
    requires |s.m| == MAX_PAGES * PAGE_WORDS && l.Outside(pool) && s.held <= pool
    requires forall p :: p in pool ==> 0 < p < MAX_PAGES
    ensures Sound(l, pool, s)
  {
  }

  class Scheduler {
    const l: Layout
    const pages: Allocator
    const cpu: Machine
    const tasks: array<Task>
    var taskCount: nat
    var currentTask: nat
    var tickCount: nat
    var timerTicks: nat
    ghost var parked: map<nat, Cpu>

    ghost predicate Shape()
      reads this`taskCount, tasks
    {
      && cpu.mem as object != pages.bitmap as object && tasks as object != cpu.mem as object
      && tasks as object != pages.bitmap as object
      && tasks.Length == MAX_TASKS && taskCount <= MAX_TASKS && cpu.mem.Length == MAX_PAGES * PAGE_WORDS
      && forall k :: taskCount <= k < MAX_TASKS ==> tasks[k].count == 0
    }

    ghost function TasksNow(): (t: Table)
      requires Shape()
      reads this`taskCount, this`currentTask, tasks
      ensures |t.tasks| == taskCount && t.cur == currentTask
    {
      Table(tasks[..taskCount], currentTask)
    }

    ghost function Now(): (s: Sys)
      requires Shape()
      reads this`taskCount, this`currentTask, this`parked, tasks, cpu.mem, pages`held
    {
      Sys(TasksNow(), cpu.Words(), pages.held, parked)
    }

    ghost function Here(): (c: Context)
      requires Shape()
      reads this`taskCount, this`currentTask, this`parked, tasks, cpu
    {
      Context(TasksNow(), parked, cpu.State())
    }

    ghost predicate Valid()
      reads this, tasks, cpu.mem, pages, pages.bitmap
    {
      Shape() && pages.Valid() && Sound(l, pages.pool, Now())
    }

    /** A table with no task in it. */
    constructor (l: Layout, pages: Allocator, cpu: Machine)
      requires cpu.mem.Length == MAX_PAGES * PAGE_WORDS && cpu.mem as object != pages.bitmap as object
      ensures this.l == l && this.pages == pages && this.cpu == cpu && fresh(tasks)
      ensures Shape() && taskCount == 0
    {
      this.l, this.pages, this.cpu := l, pages, cpu;
      tasks := new Task[MAX_TASKS](i => Task(0, Ready, 0));
      taskCount, currentTask, tickCount, timerTicks := 0, 0, 0, 0;
      parked := map[];
    }

    lemma HeldInPool()
      requires pages.Valid()
      ensures pages.held <= pages.pool && 0 !in pages.pool
    {
    }

    lemma IdleCell()
      requires l.Outside(pages.pool)
      ensures l.tableAt / 4 == l.Cell(0) < MAX_PAGES * PAGE_WORDS
    {
    }

    /** The running code becomes task 0; it is the current task and ready. */
    method RegisterIdle()
      requires Shape() && taskCount == 0 && pages.Valid() && l.Outside(pages.pool)
      requires (forall p :: p in pages.pool ==> p < MAX_PAGES)
      modifies this`taskCount, this`currentTask, tasks, cpu.mem
      ensures Valid() && TasksNow() == Table([Task(0, Ready, 0)], 0)
      ensures cpu.Words() == old(cpu.Words())[l.Cell(0) := 0]
    {
      hide Sound, Allocator.Valid, Layout.Outside;
      HeldInPool();
      tasks[0] := tasks[0].(stack := 0, state := Ready);
      assert l.tableAt / 4 == l.Cell(0) < cpu.mem.Length by { IdleCell(); }
      cpu.Store(l.tableAt, 0);
      taskCount, currentTask := 1, 0;
      assert TasksNow().tasks == [Task(0, Ready, 0)];
      IdleSound(l, pages.pool, Now());
    }

    /** Everything but the page and its address is as in `s`. */
    ghost predicate Granted(stack: nat, s: Sys)
      reads this, tasks, cpu.mem, pages, pages.bitmap
    {
      && Shape() && pages.Valid() && Sound(l, pages.pool, s)
      && taskCount == |s.table.tasks| < MAX_TASKS && currentTask == s.table.cur && parked == s.parked
      && cpu.Words() == s.m
      && pages.held == s.held + {stack / PAGE_SIZE}
      && stack % PAGE_SIZE == 0 && stack / PAGE_SIZE in pages.pool && stack / PAGE_SIZE !in s.held
      && (forall i :: 0 <= i < taskCount ==> tasks[i] == s.table.tasks[i])
      && tasks[taskCount].stack == stack
    }

    lemma GrantedFacts(stack: nat, s: Sys)
      requires Granted(stack, s)
      ensures Shape() && taskCount < MAX_TASKS && stack % PAGE_SIZE == 0 && cpu.mem.Length == |s.m|
      ensures stack != 0 && stack / 4 + PAGE_WORDS <= |s.m| && stack + PAGE_SIZE < TWO32
      ensures l.Cell(taskCount) < |s.m| && (l.tableAt + TASK_BYTES * taskCount) / 4 == l.Cell(taskCount)
    {
      StackInside(l, pages.pool, s, stack);
      CellInside(l, pages.pool, s, taskCount);
    }

    lemma GrownTable(t: Table, stack: nat)
      requires Shape() && |t.tasks| + 1 == taskCount && t.cur == currentTask
      requires forall i :: 0 <= i < taskCount - 1 ==> tasks[i] == t.tasks[i]
      requires tasks[taskCount - 1] == Task(stack, Ready, 0)
      ensures Creates(t, TasksNow(), stack)
    {
    }

    /** Puts the first frame of a task on its empty stack. */
    method PrepareStack(stack: nat, entry: word) returns (sp: word)
      requires stack % PAGE_SIZE == 0 && stack / 4 + PAGE_WORDS <= cpu.mem.Length && stack + PAGE_SIZE < TWO32
      modifies cpu.mem
      ensures sp == stack + PAGE_SIZE - 4 * FRAME_WORDS
      ensures cpu.Words() == FreshFrame(old(cpu.Words()), stack / 4 + PAGE_WORDS, entry)
    {
      sp := stack + PAGE_SIZE - 4;
      cpu.Store(sp, entry);
      for r := 0 to 8
        invariant sp == stack + PAGE_SIZE - 4 - 4 * r
        invariant cpu.Words() == FreshPart(old(cpu.Words()), stack / 4 + PAGE_WORDS, entry, r)
      {
        sp := sp - 4;
        cpu.Store(sp, 0);
      }
      FreshWhole(old(cpu.Words()), stack / 4 + PAGE_WORDS, entry);
    }

    /** The rest of making a task, once it has its page. */
    method Enrol(stack: nat, entry: word, ghost s: Sys)
      requires Granted(stack, s)
      modifies this`taskCount, this`parked, tasks, cpu.mem
      ensures Valid() && Moves(Context(s.table, s.parked, cpu.State()), Make(stack, entry), Here())
      ensures tasks[old(taskCount)].stack == stack
    {
      hide Sound, Allocator.Valid, FreshFrame, Creates;
      GrantedFacts(stack, s);
      ghost var k := taskCount;
      var sp := PrepareStack(stack, entry);
      cpu.Store(l.tableAt + TASK_BYTES * taskCount, sp);
      tasks[taskCount] := tasks[taskCount].(state := Ready);
      taskCount := taskCount + 1;
      parked := parked[k := Cpu(ZERO_REGS, stack + PAGE_SIZE, entry)];
      GrownTable(s.table, stack);
      CreateSound(l, pages.pool, s, TasksNow(), stack, entry);
      assert cpu.Words() == CreateMem(l, s.m, k, stack, entry);
    }

    lemma PoolFacts()
      requires Valid()
      ensures pages.Counted() && pages.Valid() && Sound(l, pages.pool, Now()) && pages.Free() <= pages.pool
    {
    }

    lemma SameTable(t: Table)
      requires Shape() && |t.tasks| == taskCount && t.cur == currentTask
      requires forall i :: 0 <= i < taskCount ==> tasks[i] == t.tasks[i]
      ensures TasksNow() == t
    {
    }

    /** Makes a task that is to start at `entry`, on a page of its own; nothing happens when the
      * table is full or no page is free. */
    method CreateTask(entry: word)
      requires Valid()
      modifies this`taskCount, this`parked, tasks, cpu.mem, pages`freePages, pages`held, pages.bitmap
      ensures Valid()
      ensures old(taskCount) == 8 || old(pages.Free()) == {} ==>
        Here() == old(Here()) && pages.held == old(pages.held) && pages.Free() == old(pages.Free())
      ensures old(taskCount) < 8 && old(pages.Free()) != {} ==> var stack := tasks[old(taskCount)].stack;
        && Moves(old(Here()), Make(stack, entry), Here()) && stack % PAGE_SIZE == 0
        && stack / PAGE_SIZE in old(pages.Free()) && pages.held == old(pages.held) + {stack / PAGE_SIZE}
    {
      hide Sound, Allocator.Valid, Allocator.Free, Creates, Waked, Moves;
      if taskCount >= MAX_TASKS {
        return;
      }
      ghost var s := Now();
      PoolFacts();
      var stack := pages.AllocPage();
      tasks[taskCount] := tasks[taskCount].(stack := stack);
      if stack == 0 {
        SameTable(s.table);
        assert Now() == s;
        return;
      }
      Enrol(stack, entry, s);
    }

    lemma KilledTable(t: Table, idx: nat)
      requires Shape() && |t.tasks| == taskCount && t.cur == currentTask && 0 < idx < taskCount
      requires forall i :: 0 <= i < taskCount && i != idx ==> tasks[i] == t.tasks[i]
      requires tasks[idx] == t.tasks[idx].(state := Dead, stack := 0)
      ensures Kills(t, TasksNow(), idx)
    {
    }

    /** Marks a task dead and gives its page back; the idle task and numbers out of range are left
      * alone. A task is killed by another. */
    method KillTask(idx: int)
      requires Valid() && idx != currentTask
      modifies tasks, pages`freePages, pages`held, pages.bitmap
      ensures Valid()
      ensures 0 < idx < taskCount ==> Moves(old(Here()), Remove(idx), Here())
      ensures 0 < idx < taskCount && !old(tasks[idx].state.Dead?) ==> var p := old(tasks[idx].stack) / PAGE_SIZE;
        p in old(pages.held) && pages.held == old(pages.held) - {p} && pages.Free() == old(pages.Free()) + {p}
      ensures idx <= 0 || idx >= taskCount || old(tasks[idx].state.Dead?) ==>
        Here() == old(Here()) && pages.held == old(pages.held) && pages.Free() == old(pages.Free())
    {
      hide Sound, Allocator.Valid, Allocator.Free, Owned, Kills;
      if idx <= 0 || idx >= taskCount {
        return;
      }
      ghost var s := Now();
      PoolFacts();
      StackOf(l, pages.pool, s, idx);
      tasks[idx] := tasks[idx].(state := Dead);
      if tasks[idx].stack != 0 {
        pages.FreePage(tasks[idx].stack);
        tasks[idx] := tasks[idx].(stack := 0);
      }
      KilledTable(s.table, idx);
      KillSound(l, pages.pool, s, TasksNow(), idx);
    }

    // ── giving up the processor ──

    /** The search for the next ready task, around the table. It would give up on coming back to
      * where it started; the current task is ready, so it never does. */
    method FindReady() returns (next: nat, early: bool)
      requires Shape() && currentTask < taskCount && tasks[currentTask].state.Ready?
      ensures !early && Chosen(tasks[..taskCount], currentTask, next)
    {
      hide Steps;
      next := (currentTask + 1) % taskCount;
      early := false;
      var start := next;
      NextPlace(currentTask, currentTask, taskCount);
      while !tasks[next].state.Ready?
        invariant next < taskCount && !early
        invariant forall i :: 0 <= i < taskCount && tasks[i].state.Ready? ==>
          Steps(currentTask, next, taskCount) <= Steps(currentTask, i, taskCount)
        decreases taskCount - Steps(currentTask, next, taskCount)
      {
        NextPlace(currentTask, next, taskCount);
        next := (next + 1) % taskCount;
        if next == start {
          early := true;
          break;
        }
      }
    }

    /** Arguments, last first, and return address. */
    method PushCall(prev: nat, target: word, ret: word)
      requires cpu.esp % 4 == 0 && 44 <= cpu.esp && cpu.esp / 4 <= cpu.mem.Length && 4 * cpu.mem.Length < TWO32
      requires l.tableAt % 4 == 0 && l.Cell(prev) < cpu.mem.Length
      modifies cpu`esp, cpu.mem
      ensures var i := old(cpu.esp) / 4;
        && cpu.esp == 4 * (i - 3)
        && cpu.Words() == old(cpu.Words())[i - 1 := target][i - 2 := 4 * l.Cell(prev)][i - 3 := ret]
    {
      ghost var i := cpu.esp / 4;
      CellAddress(l, prev);
      cpu.Push(target, i);
      cpu.Push(l.tableAt + TASK_BYTES * prev, i - 1);
      cpu.Push(ret, i - 2);
    }

    /** Calls the switch: the stack pointer to go on with and the address of the old one's cell are
      * pushed, then the return address. */
    method CallSwitch(prev: nat, next: nat, ret: word)
      requires cpu.esp % 4 == 0 && 44 <= cpu.esp && cpu.esp / 4 <= cpu.mem.Length && 4 * cpu.mem.Length < TWO32
      requires l.tableAt % 4 == 0 && l.Cell(prev) < cpu.mem.Length && l.Cell(next) < cpu.mem.Length
      requires !(cpu.esp / 4 - 11 <= l.Cell(prev) < cpu.esp / 4)
      requires var target := cpu.Words()[l.Cell(next)]; target % 4 == 0 && target / 4 + FRAME_WORDS <= cpu.mem.Length
      modifies cpu, cpu.mem
      ensures var target := old(cpu.Words())[l.Cell(next)];
        && cpu.Words() == SwitchMem(old(cpu.Words()), old(cpu.esp) / 4, l.Cell(prev), target, ret, old(cpu.Registers()))
        && cpu.State() == LoadFrame(cpu.Words(), target / 4)
    {
      hide LoadFrame, SaveFrame;
      CellAddress(l, next);
      var target := cpu.Load(l.tableAt + TASK_BYTES * next);
      PushCall(prev, target, ret);
      cpu.Switch();
    }

    /** The current task stands on its own stack, with room for the switch, and another task lives. */
    ghost predicate CanSwitch()
      requires Shape()
      reads this, tasks, cpu, cpu.mem
    {
      && cpu.esp % 4 == 0 && 44 <= cpu.esp && cpu.esp / 4 <= cpu.mem.Length
      && OnStack(l, TasksNow().tasks, currentTask, cpu.esp / 4 - 11, cpu.esp / 4)
    }

    /** The table as the search for the next task sees it: the current one made ready. */
    ghost predicate Searched(s: Sys, next: nat)
      reads this, tasks, cpu, cpu.mem, pages, pages.bitmap
    {
      && Shape() && pages.Valid() && Sound(l, pages.pool, s)
      && cpu.esp % 4 == 0 && 44 <= cpu.esp && cpu.esp / 4 <= cpu.mem.Length
      && OnStack(l, s.table.tasks, s.table.cur, cpu.esp / 4 - 11, cpu.esp / 4)
      && currentTask == s.table.cur && parked == s.parked && cpu.Words() == s.m && pages.held == s.held
      && s.table.cur < |s.table.tasks| && TasksNow().tasks == Waked(s.table)
      && Chosen(Waked(s.table), s.table.cur, next) && next != s.table.cur
    }

    /** The turn passes to `next`. */
    method SwitchOver(next: nat, ret: word, ghost s: Sys)
      requires Searched(s, next)
      modifies this`currentTask, this`parked, tasks, cpu, cpu.mem
      ensures Valid() && currentTask == next && TasksNow() == Dispatched(Waked(s.table), next)
      ensures PassesTurn(old(Here()), Here(), ret)
    {
      hide Sound, Allocator.Valid, Parks, SwitchMem, LoadFrame;
      ghost var u := Dispatched(Waked(s.table), next);
      ghost var r, i := cpu.Registers(), cpu.esp / 4;
      SoundFit(l, pages.pool, s);
      SoundTable(l, pages.pool, s);
      SwitchSound(l, pages.pool, s, u, i, ret, r);
      var prev := currentTask;
      currentTask := next;
      tasks[next] := tasks[next].(state := Running);
      tasks[next] := tasks[next].(count := (tasks[next].count + 1) % TWO32);
      CallSwitch(prev, next, ret);
      parked := parked[prev := Cpu(r, 4 * (i - 2), ret)];
      SameTable(u);
    }

    /** Gives the processor to the next ready task, which goes on with what it was parked with, and
      * parks the caller with its registers and what follows the call. */
    method Yield(ret: word)
      requires Valid() && CanSwitch() && exists i: nat :: Waits(TasksNow(), i)
      modifies this`currentTask, this`parked, tasks, cpu, cpu.mem
      ensures Valid() && Moves(old(Here()), GiveUp(ret), Here())
    {
      hide Sound, Allocator.Valid, Parks, SwitchMem, LoadFrame, Chosen, Dispatched, OnStack, Moves, PassesTurn, TimeOut;
      ghost var s, a := Now(), Here();
      PoolFacts();
      SoundFit(l, pages.pool, s);
      SoundTable(l, pages.pool, s);
      tasks[currentTask] := tasks[currentTask].(state := Ready);
      assert TasksNow() == Table(Waked(s.table), s.table.cur);
      ghost var b := Here();
      var next, early := FindReady();
      if !early {
        ChosenAway(s.table, next);
        SwitchOver(next, ret, s);
        TurnPassed(a, b, Here(), ret);
      }
    }

    lemma NoTurn(c: Context, ret: word)
      ensures Moves(c, Interrupt(ret), c)
    {
    }

    /** The tick that ends a task's time. */
    method PassTurn(ret: word)
      requires Valid() && CanSwitch()
      modifies this`currentTask, this`parked, tasks, cpu, cpu.mem
      ensures Valid() && taskCount == old(taskCount)
      ensures Moves(old(Here()), Interrupt(ret), Here()) && TimeOut(old(TasksNow()), TasksNow())
    {
      hide Sound, Allocator.Valid, Parks, SwitchMem, LoadFrame, Chosen, Dispatched, OnStack, Moves, PassesTurn, TimeOut;
      ghost var s, a := Now(), Here();
      PoolFacts();
      SoundFit(l, pages.pool, s);
      SoundTable(l, pages.pool, s);
      tasks[currentTask] := tasks[currentTask].(state := Ready);
      assert TasksNow() == Table(Waked(s.table), s.table.cur);
      WakedSound(l, pages.pool, s);
      ghost var b := Here();
      var next, early := FindReady();
      if !early {
        if next != currentTask {
          SwitchOver(next, ret, s);
          TurnPassed(a, b, Here(), ret);
        } else {
          TurnKept(a, b, ret);
        }
      }
    }

    /** A timer tick: every so many ticks the turn passes on, unless no other task is ready. */
    method Tick(ret: word)
      requires Shape() && (taskCount > 0 ==> Valid() && CanSwitch())
      modifies this`currentTask, this`parked, this`tickCount, this`timerTicks, tasks, cpu, cpu.mem
      ensures Shape() && taskCount == old(taskCount) && (taskCount > 0 ==> Valid())
      ensures taskCount > 0 ==> Moves(old(Here()), Interrupt(ret), Here())
      ensures taskCount == 0 ==> Here() == old(Here()) && timerTicks == old(timerTicks) && tickCount == old(tickCount)
      ensures taskCount > 0 ==> timerTicks == (old(timerTicks) + 1) % TWO32
      ensures taskCount > 0 && old(tickCount) + 1 < 500 ==>
        Here() == old(Here()) && tickCount == old(tickCount) + 1
      ensures taskCount > 0 && old(tickCount) + 1 >= 500 ==>
        TimeOut(old(TasksNow()), TasksNow()) && tickCount == 0
    {
      hide Sound, Allocator.Valid, OnStack, Moves, TimeOut;
      if taskCount > 0 {
        timerTicks := (timerTicks + 1) % TWO32;
        tickCount := tickCount + 1;
        NoTurn(Here(), ret);
        if tickCount >= SCHEDULER_TICKS {
          tickCount := 0;
          PassTurn(ret);
        }
      }
    }

    // ── what happens in between ──

    /** One instruction of the current task, or of an interrupt handler on its stack: registers
      * change, and perhaps one word that is not another task's. */
    method Execute(at: nat, x: word, next: Cpu)
      requires Valid() && at < cpu.mem.Length && Writable(l, TasksNow(), at)
      modifies cpu, cpu.mem
      ensures Valid() && Moves(old(Here()), Work, Here()) && cpu.State() == next
      ensures cpu.Words() == old(cpu.Words())[at := x]
    {
      hide Sound, Allocator.Valid, Writable;
      ghost var s := Now();
      WorkSound(l, pages.pool, s, at, x);
      cpu.mem[at] := x;
      cpu.eax, cpu.ecx, cpu.edx, cpu.ebx := next.regs.eax, next.regs.ecx, next.regs.edx, next.regs.ebx;
      cpu.ebp, cpu.esi, cpu.edi := next.regs.ebp, next.regs.esi, next.regs.edi;
      cpu.esp, cpu.eip := next.esp, next.eip;
    }

    /** Another client takes a page: never one that a task runs on. */
    method ClientAlloc() returns (address: nat)
      requires Valid()
      modifies pages`freePages, pages`held, pages.bitmap
      ensures Valid() && Here() == old(Here())
      ensures address == 0 <==> old(pages.Free()) == {}
      ensures address != 0 ==>
        address / PAGE_SIZE !in StackPages(TasksNow()) && pages.held == old(pages.held) + {address / PAGE_SIZE}
    {
      hide Sound, Allocator.Valid, Allocator.Free, StackPages;
      ghost var s := Now();
      PoolFacts();
      StacksHeld(l, pages.pool, s);
      address := pages.AllocPage();
      HeldInPool();
      ClientSound(l, pages.pool, s, pages.held);
    }

    /** Another client gives back a page that it holds. */
    method ClientFree(address: nat)
      requires Valid() && address / PAGE_SIZE in pages.held - StackPages(TasksNow())
      modifies pages`freePages, pages`held, pages.bitmap
      ensures Valid() && Here() == old(Here())
      ensures pages.held == old(pages.held) - {address / PAGE_SIZE}
      ensures pages.Free() == old(pages.Free()) + {address / PAGE_SIZE}
    {
      hide Sound, Allocator.Valid, Allocator.Free, StackPages;
      ghost var s := Now();
      PoolFacts();
      StacksHeld(l, pages.pool, s);
      PageInside(l, pages.pool, s, address / PAGE_SIZE);
      pages.FreePage(address);
      HeldInPool();
      ClientSound(l, pages.pool, s, pages.held);
    }
  }

  /** From the memory map to the first task: with the table and the boot stack in the kernel's own
    * memory, the kernel starts with every hypothesis of the scheduler met. */
  method Boot(regions: seq<Region>, kernelStart: nat, kernelEnd: nat, l: Layout) returns (s: Scheduler)
    requires forall r :: r in regions ==> Addressable(r)
    requires l.tableAt % 4 == 0 && kernelStart <= l.tableAt
    requires l.tableAt + TASK_BYTES * MAX_TASKS <= kernelEnd <= MAX_PAGES * PAGE_SIZE
    requires kernelStart <= 4 * l.bootLo && 4 * l.bootHi <= kernelEnd
    requires l.bootHi <= l.tableAt / 4 || l.Cell(MAX_TASKS) <= l.bootLo
    ensures s.Valid() && s.pages.pool == PoolOf(regions, kernelStart, kernelEnd) && s.pages.held == {}
    ensures s.TasksNow() == Table([Task(0, Ready, 0)], 0)
    ensures s.l == l && l.Cell(0) < |s.cpu.Words()| && s.cpu.Words()[l.Cell(0)] == 0
  {
    hide Allocator.Valid, Sound;
    var pages := new Allocator();
    pages.Initialize(regions, kernelStart, kernelEnd);
    KernelOutside(l, regions, kernelStart, kernelEnd);
    var cpu := new Machine(MAX_PAGES * PAGE_WORDS);
    s := new Scheduler(l, pages, cpu);
    s.RegisterIdle();
  }
}
