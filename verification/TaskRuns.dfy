/** What a task sees over every run of the system, however long it is away. */
module TaskRuns {
  import opened Bytes
  import opened Pages
  import opened TaskTable
  import opened ContextSwitch
  import opened Scheduling

  ghost predicate Course(contexts: seq<Context>, moves: seq<Move>)
  {
    && |contexts| == |moves| + 1
    && Fit(contexts[0].table)
    && forall k :: 0 <= k < |moves| ==> Moves(contexts[k], moves[k], contexts[k + 1])
  }

  /** Every move but work is an event of the task table. */
  lemma MoveIsEvent(a: Context, m: Move, b: Context)
    requires Moves(a, m, b)
    ensures match m
      case Work => b.table == a.table
      case GiveUp(_) => Happens(a.table, Yield, b.table)
      case Interrupt(_) => Happens(a.table, Tick, b.table)
      case Make(stack, _) => Happens(a.table, Create(stack), b.table)
      case Remove(idx) => Happens(a.table, Kill(idx), b.table)
  {
  }

  lemma MoveFit(a: Context, m: Move, b: Context)
    requires Fit(a.table) && Moves(a, m, b)
    ensures Fit(b.table) && |b.table.tasks| >= |a.table.tasks|
  {
    MoveIsEvent(a, m, b);
    match m
    case Work =>
    case GiveUp(_) => FitKept(a.table, Yield, b.table);
    case Interrupt(_) => FitKept(a.table, Tick, b.table);
    case Make(stack, _) => FitKept(a.table, Create(stack), b.table);
    case Remove(idx) => FitKept(a.table, Kill(idx), b.table);
  }

  lemma {:induction false} CourseFit(contexts: seq<Context>, moves: seq<Move>, k: nat)
    requires Course(contexts, moves) && k < |contexts|
    ensures Fit(contexts[k].table)
    ensures |contexts[k].table.tasks| >= |contexts[0].table.tasks|
  {
    if k > 0 {
      CourseFit(contexts, moves, k - 1);
      var a, m, b := contexts[k - 1], moves[k - 1], contexts[k];
      assert Moves(a, m, b);
      MoveFit(a, m, b);
    }
  }

  /** From state `from` up to state `to`, task `p` is not the current one. */
  ghost predicate Absent(contexts: seq<Context>, p: nat, from: nat, to: nat)
    requires to <= |contexts|
  {
    forall k :: from <= k < to ==> contexts[k].table.cur != p
  }

  /** While a task is away, nothing that others do changes what it goes on with. */
  lemma {:induction false} ParkedStays(contexts: seq<Context>, moves: seq<Move>, p: nat, from: nat, k: nat)
    requires Course(contexts, moves) && from <= k < |contexts| && Absent(contexts, p, from, k)
    requires p < |contexts[from].table.tasks| && p in contexts[from].parked
    ensures p < |contexts[k].table.tasks| && p in contexts[k].parked
    ensures contexts[k].parked[p] == contexts[from].parked[p]
    decreases k
  {
    if k > from {
      ParkedStays(contexts, moves, p, from, k - 1);
      CourseFit(contexts, moves, k - 1);
      assert Moves(contexts[k - 1], moves[k - 1], contexts[k]);
      MoveFit(contexts[k - 1], moves[k - 1], contexts[k]);
      assert contexts[k - 1].table.cur != p;
    }
  }

  /** Where the turn arrives at a task, it goes on with what it was parked with. */
  lemma Arrives(a: Context, m: Move, b: Context)
    requires Moves(a, m, b) && b.table.cur != a.table.cur
    ensures b.table.cur in a.parked && b.cpu == a.parked[b.table.cur]
  {
  }

  /** Round trip: a task that gives up its turn or is interrupted, and has its turn again after any
    * number of moves of the others, goes on with the registers it had, its stack as after the return
    * from the call, at the instruction after the call. */
  lemma Resumes(contexts: seq<Context>, moves: seq<Move>, ret: word, k: nat)
    requires Course(contexts, moves) && 1 < k < |contexts| && (moves[0] == GiveUp(ret) || moves[0] == Interrupt(ret))
    requires var p := contexts[0].table.cur; Absent(contexts, p, 1, k) && contexts[k].table.cur == p
    ensures var c := contexts[0].cpu; c.esp >= 8 && contexts[k].cpu == Cpu(c.regs, c.esp - 8, ret)
  {
    var p := contexts[0].table.cur;
    assert Moves(contexts[0], moves[0], contexts[1]);
    assert contexts[1].table.cur != p;
    MoveFit(contexts[0], moves[0], contexts[1]);
    ParkedStays(contexts, moves, p, 1, k - 1);
    assert Moves(contexts[k - 1], moves[k - 1], contexts[k]);
    Arrives(contexts[k - 1], moves[k - 1], contexts[k]);
  }

  /** A task first runs at its entry, with zeroed registers and its stack empty. */
  lemma FirstTurn(contexts: seq<Context>, moves: seq<Move>, stack: nat, entry: word, k: nat)
    requires Course(contexts, moves) && 1 < k < |contexts| && moves[0] == Make(stack, entry)
    requires var p := |contexts[0].table.tasks|; Absent(contexts, p, 1, k) && contexts[k].table.cur == p
    ensures stack + PAGE_SIZE < TWO32 && contexts[k].cpu == Cpu(ZERO_REGS, stack + PAGE_SIZE, entry)
  {
    var p := |contexts[0].table.tasks|;
    assert Moves(contexts[0], moves[0], contexts[1]);
    ParkedStays(contexts, moves, p, 1, k - 1);
    assert Moves(contexts[k - 1], moves[k - 1], contexts[k]);
    Arrives(contexts[k - 1], moves[k - 1], contexts[k]);
  }

  /** A task that switches to itself, on the stack pointer that its cell held before, goes on after
    * the call exactly when that is the stack pointer the switch saves. */
  lemma SelfSwitch(m: seq<word>, i: nat, cell: nat, target: word, ret: word, r: Regs)
    requires 11 <= i <= |m| && 4 * i < TWO32 && 4 * cell < TWO32 && cell < |m| && !(i - 11 <= cell < i)
    requires target % 4 == 0 && target / 4 + FRAME_WORDS <= |m| && target + 4 * FRAME_WORDS < TWO32
    ensures LoadFrame(SwitchMem(m, i, cell, target, ret, r), target / 4) == Cpu(r, 4 * (i - 2), ret) <==>
      target == 4 * (i - 11)
  {
    var n := SwitchMem(m, i, cell, target, ret, r);
    var pushed := m[i - 1 := target][i - 2 := 4 * cell][i - 3 := ret];
    SaveLoad(pushed, i - 3, r, 4 * (i - 3));
    LoadSame(SaveFrame(pushed, i - 3, r, 4 * (i - 3)), n, i - 11);
    assert LoadFrame(n, target / 4).esp == target + 4 * FRAME_WORDS;
  }

  /** Where a system starts, only the idle task lives and its cell holds 0. A yield then chooses the idle
    * task itself, and what goes on is the frame at address 0, not the idle task. */
  lemma IdleAlone(l: Layout, m: seq<word>, i: nat, ret: word, r: Regs)
    requires 11 < i <= |m| && 4 * i < TWO32 && 4 * l.Cell(0) < TWO32 && l.Cell(0) < |m| && !(i - 11 <= l.Cell(0) < i)
    requires m[l.Cell(0)] == 0
    ensures var t := Table([Task(0, Ready, 0)], 0);
      Yields(t, Table([Task(0, Running, 1)], 0)) && forall u :: Yields(t, u) ==> u.cur == t.cur
    ensures var c := LoadFrame(SwitchMem(m, i, l.Cell(0), m[l.Cell(0)], ret, r), 0);
      c.esp == 4 * FRAME_WORDS && c != Cpu(r, 4 * (i - 2), ret)
  {
    SelfSwitch(m, i, l.Cell(0), 0, ret, r);
  }
}
