/**
  * The text screen and its scrollback ring, over an unbounded log of lines.
  */
module Screen {
  import opened Bytes

  const WIDTH := 80
  const HEIGHT := 25
  const RING_LINES := 200
  const MAX_BACK := RING_LINES - HEIGHT // how far the view can be scrolled back
  const TAB: byte := 9
  const NEWLINE: byte := 10
  const RETURN: byte := 13
  const SPACE: byte := 32

  type Line = s: seq<byte> | |s| == WIDTH witness seq(WIDTH, i => 0)

  function Blank(): Line { Zeros(WIDTH) }

  function Blanks(n: nat): (b: seq<Line>)
    ensures |b| == n && forall i :: 0 <= i < n ==> b[i] == Blank()
  {
    seq(n, i => Blank())
  }

  // ── the log ──

  /** Everything printed since the screen was cleared, and the cursor; the last lines are on screen. */
  datatype Log = Log(lines: seq<Line>, x: nat, y: int)
  {
    function Top(): int { |lines| - HEIGHT }

    predicate Ok() { |lines| >= HEIGHT && x < WIDTH && 0 <= y < HEIGHT }
  }

  function Start(): Log { Log(Blanks(HEIGHT), 0, 0) }

  /** The cursor leaves the right margin for the next line, and the last line for a new one. */
  function Settle(l: Log): (r: Log)
    requires |l.lines| >= HEIGHT && l.x <= WIDTH && 0 <= l.y <= HEIGHT && (l.x == WIDTH ==> l.y < HEIGHT)
    ensures r.Ok()
    ensures |r.lines| <= |l.lines| + 1 && l.lines <= r.lines
  {
    var w := if l.x >= WIDTH then Log(l.lines, 0, l.y + 1) else l;
    if w.y >= HEIGHT then Log(w.lines + [Blank()], w.x, w.y - 1) else w
  }

  /** The character at the cursor, and the cursor one further. */
  function Typed(l: Log, c: byte): (r: Log)
    requires l.Ok()
    ensures |r.lines| == |l.lines| && r.x == l.x + 1 && r.y == l.y
  {
    var at := l.Top() + l.y;
    var row: Line := l.lines[at];
    var line: Line := row[l.x := c];
    var lines: seq<Line> := l.lines[at := line];
    Log(lines, l.x + 1, l.y)
  }

  /** A character other than a tab. */
  function Put(l: Log, c: byte): (r: Log)
    requires l.Ok()
    ensures r.Ok()
  {
    if c == NEWLINE then Settle(Log(l.lines, 0, l.y + 1))
    else if c == RETURN then Settle(Log(l.lines, 0, l.y))
    else Settle(Typed(l, c))
  }

  /** Typing changes one cell of one line. */
  lemma TypedLines(l: Log, c: byte)
    requires l.Ok()
    ensures var r := Typed(l, c); var at := l.Top() + l.y;
      && r.x == l.x + 1 && r.y == l.y && |r.lines| == |l.lines|
      && r.lines[at] == l.lines[at][l.x := c]
      && forall j :: 0 <= j < |l.lines| && j != at ==> r.lines[j] == l.lines[j]
  {
  }

  /** The spaces of a tab; the bound is looked at again after each. */
  function Tabbed(l: Log, i: nat): (r: Log)
    requires l.Ok()
    ensures r.Ok()
    decreases 4 - i
  {
    if i < 4 - l.x % 4 then Tabbed(Put(l, SPACE), i + 1) else l
  }

  function Printed(l: Log, c: byte): (r: Log)
    requires l.Ok()
    ensures r.Ok()
  {
    if c == TAB then Settle(Tabbed(l, 0)) else Put(l, c)
  }

  ghost function PrintedAll(l: Log, s: seq<byte>): (r: Log)
    requires l.Ok()
    ensures r.Ok()
  {
    if s == [] then l else Printed(PrintedAll(l, s[..|s| - 1]), s[|s| - 1])
  }

  /** Lines above the screen are history. */
  ghost predicate Continues(l: Log, r: Log)
  {
    |l.lines| >= HEIGHT && |r.lines| >= |l.lines| && forall j :: 0 <= j < l.Top() ==> r.lines[j] == l.lines[j]
  }

  lemma PutContinues(l: Log, c: byte)
    requires l.Ok()
    ensures Continues(l, Put(l, c))
  {
  }

  lemma {:induction false} TabContinues(l: Log, i: nat)
    requires l.Ok()
    ensures Continues(l, Tabbed(l, i))
    decreases 4 - i
  {
    if i < 4 - l.x % 4 {
      PutContinues(l, SPACE);
      TabContinues(Put(l, SPACE), i + 1);
    }
  }

  /** Printing never rewrites history. */
  lemma {:induction false} HistoryKept(l: Log, s: seq<byte>)
    requires l.Ok()
    ensures Continues(l, PrintedAll(l, s))
    decreases |s|
  {
    if s != [] {
      var p := PrintedAll(l, s[..|s| - 1]);
      HistoryKept(l, s[..|s| - 1]);
      PutContinues(p, s[|s| - 1]);
      TabContinues(p, 0);
    }
  }

  predicate IsPlain(c: byte) { c != TAB && c != NEWLINE && c != RETURN }

  /** Column `c` of line `j` once the text `s` is printed from the cursor of `l` on: cells are filled one
    * after another, line by line, and new lines are blank. */
  ghost function CellAfter(l: Log, s: seq<byte>, j: int, c: nat): byte
    requires 0 <= j && c < 80
  {
    var p := 80 * (j - l.Top() - l.y) + c - l.x;
    if 0 <= p < |s| then s[p] else if j < |l.lines| then l.lines[j][c] else 0
  }

  /** The log `r` is what printing `s` makes of `l`. */
  ghost predicate Continued(l: Log, s: seq<byte>, r: Log)
  {
    && l.Ok() && r.Ok()
    && r.x == (l.x + |s|) % 80
    && r.Top() + r.y == l.Top() + l.y + (l.x + |s|) / 80
    && (var last := r.Top() + r.y; |r.lines| == if last < |l.lines| then |l.lines| else last + 1)
    && forall j, c: nat :: 0 <= j < |r.lines| && c < 80 ==> r.lines[j][c] == CellAfter(l, s, j, c)
  }

  lemma PlainStep(l: Log, c: byte)
    requires l.Ok() && IsPlain(c)
    ensures Continued(l, [c], Printed(l, c))
  {
    TypedLines(l, c);
  }

  lemma NothingPrinted(l: Log)
    requires l.Ok()
    ensures Continued(l, [], l)
  {
  }

  lemma ColumnOn(x: nat, n: nat)
    ensures ((x + n) % 80 + 1) % 80 == (x + n + 1) % 80
    ensures (x + n) / 80 + ((x + n) % 80 + 1) / 80 == (x + n + 1) / 80
    ensures (x + n) / 80 * 80 + (x + n) % 80 == x + n
  {
  }

  lemma ContinuedOn(l: Log, s: seq<byte>, p: Log, c: byte, r: Log)
    requires Continued(l, s, p) && Continued(p, [c], r)
    ensures Continued(l, s + [c], r)
  {
    ColumnOn(l.x, |s|);
    forall j, d: nat | 0 <= j < |r.lines| && d < 80
      ensures r.lines[j][d] == CellAfter(l, s + [c], j, d)
    {
      assert r.lines[j][d] == CellAfter(p, [c], j, d);
      if j < |p.lines| {
        assert p.lines[j][d] == CellAfter(l, s, j, d);
      }
    }
  }

  /** Plain text of any length: letter after letter fills cell after cell from the cursor on, past the
    * right margin on the next line, past the last line on new ones; every other cell stays. */
  lemma {:induction false} PlainText(l: Log, s: seq<byte>)
    requires l.Ok() && forall k :: 0 <= k < |s| ==> IsPlain(s[k])
    ensures Continued(l, s, PrintedAll(l, s))
    decreases |s|
  {
    hide Continued, Printed;
    if s == [] {
      NothingPrinted(l);
    } else {
      var n := |s| - 1;
      PlainText(l, s[..n]);
      var p := PrintedAll(l, s[..n]);
      PlainStep(p, s[n]);
      ContinuedOn(l, s[..n], p, s[n], Printed(p, s[n]));
      assert s[..n] + [s[n]] == s;
    }
  }

  /** So letter `k` stands where it is looked for. */
  lemma LetterStands(l: Log, s: seq<byte>, k: nat)
    requires l.Ok() && (forall i :: 0 <= i < |s| ==> IsPlain(s[i])) && k < |s|
    ensures var r := PrintedAll(l, s); var at := l.Top() + l.y + (l.x + k) / 80;
      0 <= at < |r.lines| && r.lines[at][(l.x + k) % 80] == s[k]
  {
    hide PrintedAll;
    PlainText(l, s);
    var at, c := l.Top() + l.y + (l.x + k) / 80, (l.x + k) % 80;
    assert PrintedAll(l, s).lines[at][c] == CellAfter(l, s, at, c);
  }

  /** A line feed goes to the start of the next line, on a new blank one below the last; a carriage return
    * to the start of the same line. No line changes. */
  lemma LineEnds(l: Log)
    requires l.Ok()
    ensures Printed(l, 10) ==
      if l.y < 24 then Log(l.lines, 0, l.y + 1) else Log(l.lines + [Zeros(80)], 0, 24)
    ensures Printed(l, 13) == Log(l.lines, 0, l.y)
  {
  }

  /** The spaces that a tab prints: its loop compares with a column that goes on while it runs. */
  function TabWidth(x: nat): (n: nat)
    ensures x % 4 == 0 ==> (x + n) % 4 == 2
    ensures x % 4 == 1 ==> (x + n) % 4 == 3
    ensures x % 4 == 2 ==> (x + n) % 4 == 3
    ensures x % 4 == 3 ==> (x + n) % 4 == 2
  {
    if x % 4 == 3 then 3 else if x % 4 == 2 then 1 else 2
  }

  function Spaces(n: nat): (s: seq<byte>)
    ensures |s| == n && forall i :: 0 <= i < n ==> s[i] == 32
  {
    seq(n, i => 32)
  }

  lemma SpacesAfter(l: Log, n: nat)
    requires l.Ok()
    ensures PrintedAll(l, Spaces(n + 1)) == Printed(PrintedAll(l, Spaces(n)), 32)
    ensures PrintedAll(l, Spaces(n)).x == (l.x + n) % 80
  {
    hide CellAfter, Printed;
    assert Spaces(n + 1)[..n] == Spaces(n);
    PlainText(l, Spaces(n));
  }

  lemma ColumnMod(x: nat)
    ensures x % 80 % 4 == x % 4
  {
  }

  lemma FourOn(q: nat, r: nat, i: nat)
    requires r < 4 && i < 4
    ensures (4 * q + r + i) % 4 == if r + i < 4 then r + i else r + i - 4
  {
  }

  lemma TabCounts(x: nat, i: nat)
    requires i <= TabWidth(x)
    ensures i < TabWidth(x) <==> i < 4 - (x + i) % 80 % 4
  {
    ColumnMod(x + i);
    FourOn(x / 4, x % 4, i);
  }

  lemma TabEnds(x: nat)
    ensures (x + TabWidth(x)) % 80 % 4 != 0
  {
    ColumnMod(x + TabWidth(x));
  }

  lemma NoSpaces(l: Log)
    requires l.Ok()
    ensures PrintedAll(l, Spaces(0)) == l
  {
  }

  /** One more space of a tab. */
  lemma PutSpace(l: Log, i: nat)
    requires l.Ok() && i < 4 - l.x % 4
    ensures Tabbed(l, i) == Tabbed(Printed(l, SPACE), i + 1)
  {
  }

  lemma {:induction false} TabLoop(l: Log, i: nat)
    requires l.Ok() && i <= TabWidth(l.x)
    ensures Tabbed(PrintedAll(l, Spaces(i)), i) == PrintedAll(l, Spaces(TabWidth(l.x)))
    decreases TabWidth(l.x) - i
  {
    hide PrintedAll, Printed, Put, Settle, TabWidth;
    SpacesAfter(l, i);
    TabCounts(l.x, i);
    if i < TabWidth(l.x) {
      PutSpace(PrintedAll(l, Spaces(i)), i);
      TabLoop(l, i + 1);
    }
  }

  /** A tab prints one to three spaces, and never ends at a multiple of four columns. */
  lemma TabSpaces(l: Log)
    requires l.Ok()
    ensures Printed(l, 9) == PrintedAll(l, Spaces(TabWidth(l.x)))
    ensures Printed(l, 9).x % 4 != 0
  {
    hide Put, TabWidth, Tabbed, PrintedAll;
    NoSpaces(l);
    TabLoop(l, 0);
    SpacesAfter(l, TabWidth(l.x));
    TabEnds(l.x);
  }

  // ── the screen ──

  /** The remainder as the machine computes it: with the sign of the dividend. */
  function Remainder(a: int, b: nat): (r: int)
    requires b > 0
    ensures r < b && r + b > 0 && (a > 0 ==> r >= 0) && (a < 0 ==> r <= 0)
    ensures a == b * (if a >= 0 then a / b else -((-a) / b)) + r
  {
    if a >= 0 then a % b else -((-a) % b)
  }

  lemma RemainderRow(line: int)
    ensures Remainder(Remainder(line, RING_LINES) + RING_LINES, RING_LINES) == line % RING_LINES
  {
    if line < 0 {
      var k := (-line) / RING_LINES;
      assert line == -RING_LINES * k - (-line) % RING_LINES;
    }
  }

  /** The ring row of a line. */
  function RingRow(line: int): (r: nat)
    ensures r == line % RING_LINES
  {
    RemainderRow(line);
    Remainder(Remainder(line, RING_LINES) + RING_LINES, RING_LINES)
  }

  /** Two of the last lines share no ring row. */
  lemma RowsApart(i: int, j: int)
    requires i % RING_LINES == j % RING_LINES && i - RING_LINES < j < i + RING_LINES
    ensures i == j
  {
  }

  lemma AllApart(head: int, at: int)
    requires head <= at < head + HEIGHT
    ensures forall j :: head - MAX_BACK <= j < head + HEIGHT && j != at ==> j % RING_LINES != at % RING_LINES
  {
    forall j | head - MAX_BACK <= j < head + HEIGHT && j != at
      ensures j % RING_LINES != at % RING_LINES
    {
      if j % RING_LINES == at % RING_LINES {
        RowsApart(j, at);
      }
    }
  }

  class Display {
    const rows: array<Line> // what is on screen
    const ring: array<Line>
    var x: int
    var y: int
    var head: int   // the line on the first row of the live screen
    var count: int  // how far back lines are kept
    var offset: int // how far the view is scrolled back
    ghost var log: Log

    ghost predicate Shaped()
    {
      rows.Length == HEIGHT && ring.Length == RING_LINES && rows != ring
    }

    /** The ring holds the last lines of the log, wherever the cursor and the view are. */
    ghost predicate Mirrors()
      reads this, ring
    {
      && Shaped() && |log.lines| >= HEIGHT && head == log.Top() && x == log.x && y == log.y
      && count == (if head < MAX_BACK then head else MAX_BACK)
      && forall j {:trigger log.lines[j]} :: head - MAX_BACK <= j < head + HEIGHT && 0 <= j ==>
        ring[j % RING_LINES] == log.lines[j]
    }

    /** It does, and the cursor is on screen. */
    ghost predicate Kept()
      reads this, ring
    {
      Mirrors() && log.Ok()
    }

    ghost predicate Showing()
      requires Mirrors()
      reads this, rows, ring
    {
      offset == 0 && forall r :: 0 <= r < HEIGHT ==> rows[r] == log.lines[head + r]
    }

    /** The screen shows the last lines of the log. */
    ghost predicate Live()
      reads this, rows, ring
    {
      Kept() && Showing()
    }

    /** Lines past the bound that rendering keeps are blank anyway. */
    ghost predicate Restorable()
      requires Mirrors()
      reads this, ring
    {
      forall j :: head <= j < head + HEIGHT && count + HEIGHT <= j ==> log.lines[j] == Blank()
    }

    /** What a row shows when it is rendered: its line as the ring has it, but blank before the first line
      * and past the bound that the code keeps. */
    ghost function Rendered(r: int): Line
      requires Shaped() && 0 <= r < HEIGHT
      reads this, ring
    {
      var line := head - offset + r;
      if 0 <= line < count + HEIGHT then ring[line % RING_LINES] else Blank()
    }

    ghost predicate RowsRendered()
      requires Shaped()
      reads this, rows, ring
    {
      forall r :: 0 <= r < HEIGHT ==> rows[r] == Rendered(r)
    }

    constructor ()
      ensures Shaped() && fresh(rows) && fresh(ring)
      ensures forall k :: 0 <= k < RING_LINES ==> ring[k] == Blank()
      ensures Live() && log == Start()
    {
      rows := new Line[HEIGHT](i => Blank());
      ring := new Line[RING_LINES](i => Blank());
      x, y, head, count, offset := 0, 0, 0, 0, 0;
      log := Start();
    }

    /** Copies a line, cell by cell. */
    method CopyRow(into: array<Line>, row: nat, line: Line)
      requires row < into.Length
      modifies into
      ensures into[row] == line && forall r :: 0 <= r < into.Length && r != row ==> into[r] == old(into[r])
    {
      for col := 0 to WIDTH
        invariant into[row][..col] == line[..col]
        invariant forall r :: 0 <= r < into.Length && r != row ==> into[r] == old(into[r])
      {
        into[row] := into[row][col := line[col]];
        assert into[row][..col + 1] == into[row][..col] + [line[col]];
      }
      assert into[row] == into[row][..WIDTH] && line == line[..WIDTH];
    }

    /** Clears the screen, not the ring. */
    method Clear()
      requires Shaped()
      modifies this, rows
      ensures head == 0 && count == 0 && offset == 0 && x == 0 && y == 0 && log == Start()
      ensures forall r :: 0 <= r < HEIGHT ==> rows[r] == Blank()
      ensures Live() <==> forall r :: 0 <= r < HEIGHT ==> ring[r] == Blank()
    {
      for row := 0 to HEIGHT
        invariant forall r :: 0 <= r < row ==> rows[r] == Blank()
      {
        CopyRow(rows, row, Blank());
      }
      x, y, offset, head, count := 0, 0, 0, 0, 0;
      log := Start();
      forall j | 0 <= j < HEIGHT
        ensures ring[j % RING_LINES] == ring[j] && log.lines[j] == Blank()
      {
      }
      if Live() {
        forall r | 0 <= r < HEIGHT
          ensures ring[r] == Blank()
        {
          assert ring[r % RING_LINES] == log.lines[r];
        }
      }
    }

    /** Shows the lines from `offset` before the live ones on; past a bound, rows stay blank. */
    method Render()
      requires Kept()
      modifies rows
      ensures Kept() && RowsRendered()
    {
      var top := head - offset;
      for row := 0 to HEIGHT
        invariant forall r :: 0 <= r < row ==> rows[r] == Rendered(r)
      {
        var line := top + row;
        if line >= 0 && line < count + HEIGHT {
          CopyRow(rows, row, ring[RingRow(line)]);
        } else {
          CopyRow(rows, row, Blank());
        }
      }
    }

    /** Puts a character on the screen and into the ring. */
    method PutChar(col: int, row: int, c: byte)
      requires Shaped() && 0 <= col < WIDTH && 0 <= row < HEIGHT
      modifies rows, ring
      ensures rows[row] == old(rows[row])[col := c]
      ensures forall r :: 0 <= r < HEIGHT && r != row ==> rows[r] == old(rows[r])
      ensures var at := (head + row) % RING_LINES;
        ring[at] == old(ring[at])[col := c] && forall k :: 0 <= k < RING_LINES && k != at ==> ring[k] == old(ring[k])
    {
      rows[row] := rows[row][col := c];
      var at := RingRow(head + row);
      ring[at] := ring[at][col := c];
    }

    /** What rendering the live lines shows is the live screen exactly when the lines past its bound
      * are blank; with at most 175 lines of history there are none. */
    lemma RenderedLive()
      requires Kept() && offset == 0 && RowsRendered()
      ensures Live() <==> Restorable()
      ensures head <= MAX_BACK ==> Restorable()
    {
      if Live() {
        forall j | head <= j < head + HEIGHT && count + HEIGHT <= j
          ensures log.lines[j] == Blank()
        {
          assert rows[j - head] == Rendered(j - head) && rows[j - head] == log.lines[head + (j - head)];
        }
      }
    }

    /** A view of lines that are kept shows them up to the bound; past it, only what is blank anyway. */
    lemma ViewShows(r: int)
      requires Kept() && 0 <= offset <= count && 0 <= r < HEIGHT
      ensures head <= MAX_BACK ==> Rendered(r) == log.lines[head - offset + r]
      ensures Rendered(r) == log.lines[head - offset + r] <==>
        head - offset + r < count + HEIGHT || log.lines[head - offset + r] == Blank()
    {
    }

    method MoveRows(lines: nat)
      requires Shaped() && lines <= HEIGHT
      modifies rows
      ensures forall r :: 0 <= r < HEIGHT ==> rows[r] == if r < HEIGHT - lines then old(rows[r + lines]) else Blank()
    {
      ghost var before := rows[..];
      for row := lines to HEIGHT
        invariant forall r :: 0 <= r < row - lines ==> rows[r] == before[r + lines]
        invariant forall r :: row - lines <= r < HEIGHT ==> rows[r] == before[r]
      {
        CopyRow(rows, row - lines, rows[row]);
      }
      for row := HEIGHT - lines to HEIGHT
        invariant forall r :: 0 <= r < HEIGHT - lines ==> rows[r] == before[r + lines]
        invariant forall r :: HEIGHT - lines <= r < row ==> rows[r] == Blank()
      {
        CopyRow(rows, row, Blank());
      }
    }

    /** The ring holds the lines of the log from `lo` up to `hi`. */
    ghost predicate Holds(lo: int, hi: int)
      requires Shaped() && hi <= |log.lines|
      reads this`log, ring
    {
      forall j {:trigger log.lines[j]} :: lo <= j < hi && 0 <= j ==> ring[j % RING_LINES] == log.lines[j]
    }

    /** The last `lines` lines, blank in the log, are cleared in the ring. */
    method ClearLines(lines: nat)
      requires Shaped() && |log.lines| >= HEIGHT && head == log.Top() && lines <= HEIGHT
      requires Holds(head - MAX_BACK, head + HEIGHT - lines)
      requires forall j :: head + HEIGHT - lines <= j < head + HEIGHT ==> log.lines[j] == Blank()
      modifies ring
      ensures Holds(head - MAX_BACK, head + HEIGHT)
    {
      for k := 0 to lines
        invariant Holds(head - MAX_BACK, head + HEIGHT - lines + k)
      {
        var line := head + (HEIGHT - lines + k);
        CopyRow(ring, RingRow(line), Blank());
        forall j | head - MAX_BACK <= j < line && 0 <= j
          ensures j % RING_LINES != line % RING_LINES
        {
          if j % RING_LINES == line % RING_LINES {
            RowsApart(j, line);
          }
        }
      }
    }

    /** The live screen begins `lines` lines further on; the new lines are blank in the log. */
    method AdvanceHead(lines: nat)
      requires Mirrors() && lines <= HEIGHT
      modifies this`y, this`head, this`count, this`log
      ensures log == Log(old(log).lines + Blanks(lines), old(log).x, old(log).y - lines)
      ensures |log.lines| >= HEIGHT && head == log.Top() == old(head) + lines && x == log.x && y == log.y
      ensures count == if head < MAX_BACK then head else MAX_BACK
      ensures Holds(head - MAX_BACK, head + HEIGHT - lines)
      ensures forall j :: 0 <= j < head + HEIGHT ==>
        log.lines[j] == if j < head + HEIGHT - lines then old(log).lines[j] else Blank()
    {
      y := y - lines;
      head := head + lines;
      count := count + lines;
      if count > RING_LINES - HEIGHT {
        count := RING_LINES - HEIGHT;
      }
      log := Log(log.lines + Blanks(lines), log.x, log.y - lines);
    }

    /** The screen moves up; blank lines come in at the bottom, on screen and in the ring. */
    method Scroll(lines: nat)
      requires Mirrors() && lines <= HEIGHT
      modifies this`y, this`head, this`count, this`log, rows, ring
      ensures Mirrors() && (old(Showing()) ==> Showing())
      ensures log == Log(old(log).lines + Blanks(lines), old(log).x, old(log).y - lines)
    {
      MoveRows(lines);
      AdvanceHead(lines);
      ClearLines(lines);
    }

    /** Types a character at the cursor, on screen and into the ring. */
    method Type(c: byte)
      requires Kept()
      modifies this`x, this`log, rows, ring
      ensures Mirrors() && (old(Showing()) ==> Showing()) && log == Typed(old(log), c)
    {
      hide Typed;
      TypedLines(log, c);
      PutChar(x, y, c);
      ghost var at := head + y;
      AllApart(head, at);
      assert ring[at % RING_LINES] == old(log).lines[at][x := c];
      x := x + 1;
      log := Typed(log, c);
    }

    lemma LiveAtEnd()
      requires Kept()
      ensures Live() ==> offset == 0
    {
    }

    method NextLine()
      requires Mirrors()
      modifies this`x, this`y, this`log
      ensures Mirrors() && (old(Showing()) ==> Showing()) && log == Log(old(log).lines, 0, old(log).y + 1)
    {
      x := 0;
      y := y + 1;
      log := Log(log.lines, 0, log.y + 1);
    }

    method LineStart()
      requires Mirrors()
      modifies this`x, this`log
      ensures Mirrors() && (old(Showing()) ==> Showing()) && log == Log(old(log).lines, 0, old(log).y)
    {
      x := 0;
      log := Log(log.lines, 0, log.y);
    }

    /** Back to the last lines: they are shown exactly when those past the rendering bound are blank. */
    method SnapBack()
      requires Kept()
      modifies this`offset, rows
      ensures Kept() && offset == 0 && RowsRendered()
      ensures Live() <==> old(Restorable())
    {
      offset := 0;
      Render();
      RenderedLive();
    }

    /** The cursor at the right margin or below the last line. */
    method Wrap()
      requires Mirrors() && log.x <= WIDTH && 0 <= log.y <= HEIGHT && (log.x == WIDTH ==> log.y < HEIGHT)
      modifies this, rows, ring
      ensures Kept() && offset == old(offset) && (old(Showing()) ==> Showing()) && log == Settle(old(log))
    {
      if x >= WIDTH {
        NextLine();
      }
      if y >= HEIGHT {
        Scroll(1);
      }
    }

    method PutTab()
      requires Kept() && offset == 0
      modifies this, rows, ring
      ensures Kept() && offset == 0 && (old(Showing()) ==> Showing()) && log == Tabbed(old(log), 0)
      decreases 1, 0
    {
      var i: nat := 0;
      while i < 4 - x % 4
        invariant Kept() && offset == 0 && (old(Showing()) ==> Showing()) && Tabbed(log, i) == Tabbed(old(log), 0)
        decreases 4 - i
      {
        PutSpace(log, i);
        Putc(SPACE);
        i := i + 1;
      }
    }

    /** Prints a character; a view that is scrolled back snaps to the last lines first. The screen shows
      * them when it did before, or when snapping back restores them. */
    method Putc(c: byte)
      requires Kept()
      modifies this, rows, ring
      ensures Kept() && offset == 0 && log == Printed(old(log), c)
      ensures old(Live()) || (old(offset) != 0 && old(Restorable())) ==> Live()
      decreases if c == TAB then 1 else 0, 1
    {
      hide Mirrors, Showing, Restorable, RowsRendered, Typed, Tabbed, Settle;
      LiveAtEnd();
      if offset != 0 {
        SnapBack();
      }
      if c == NEWLINE {
        NextLine();
      } else if c == TAB {
        PutTab();
      } else if c == RETURN {
        LineStart();
      } else {
        Type(c);
      }
      Wrap();
    }

    /** Any text. */
    method PrintAll(s: seq<byte>)
      requires Kept()
      modifies this, rows, ring
      ensures Kept() && log == PrintedAll(old(log), s)
      ensures old(Live()) || (s != [] && old(offset) != 0 && old(Restorable())) ==> Live()
    {
      hide Mirrors, Showing, Restorable, Printed;
      for k := 0 to |s|
        invariant Kept() && log == PrintedAll(old(log), s[..k])
        invariant k == 0 ==> offset == old(offset) && (old(Live()) ==> Live()) && (old(Restorable()) ==> Restorable())
        invariant k > 0 && (old(Live()) || (old(offset) != 0 && old(Restorable()))) ==> Live()
      {
        assert s[..k + 1][..k] == s[..k];
        Putc(s[k]);
      }
      assert s[..|s|] == s;
    }

    // ── looking back ──

    /** The view moves, no further than lines are kept. */
    method ScrollUp(lines: int)
      requires Kept()
      modifies this`offset, rows
      ensures Kept()
      ensures offset == (if count <= 0 then old(offset) else if old(offset) + lines < count then old(offset) + lines
        else count)
      ensures if count > 0 then RowsRendered() else rows[..] == old(rows[..])
    {
      var maxOffset := count;
      if maxOffset <= 0 {
        return;
      }
      offset := offset + lines;
      if offset > maxOffset {
        offset := maxOffset;
      }
      Render();
    }

    /** Back at the last lines, the screen is restored from the ring. */
    method ScrollDown(lines: int)
      requires Kept()
      modifies this`offset, rows
      ensures Kept() && offset == if old(offset) - lines > 0 then old(offset) - lines else 0
      ensures if offset == 0 then Live() else RowsRendered()
    {
      offset := offset - lines;
      if offset < 0 {
        offset := 0;
      }
      if offset == 0 {
        for row := 0 to HEIGHT
          invariant forall r :: 0 <= r < row ==> rows[r] == log.lines[head + r]
          modifies rows
        {
          CopyRow(rows, row, ring[RingRow(head + row)]);
        }
      } else {
        Render();
      }
    }

    /** Any scrolling up (positive) and down (the rest): when it ends with a step down to the last lines,
      * the screen shows again what it showed before. */
    method Browse(steps: seq<int>)
      requires Live()
      modifies this`offset, rows
      ensures Kept()
      ensures steps == [] || (steps[|steps| - 1] <= 0 && offset == 0) ==> Live() && rows[..] == old(rows[..])
    {
      for k := 0 to |steps|
        invariant Kept() && (k == 0 || (steps[k - 1] <= 0 && offset == 0) ==> Live())
      {
        if steps[k] > 0 {
          ScrollUp(steps[k]);
        } else {
          ScrollDown(-steps[k]);
        }
      }
      if Live() {
        assert forall r :: 0 <= r < HEIGHT ==> rows[r] == old(rows[r]);
      }
    }
  } // class Display

  // ── two screens that are not restored ──

  function Newlines(n: nat): (s: seq<byte>)
    ensures |s| == n
  {
    seq(n, i => NEWLINE)
  }

  lemma {:induction false} AfterNewlines(n: nat)
    ensures PrintedAll(Start(), Newlines(n)) ==
      if n < HEIGHT then Log(Blanks(HEIGHT), 0, n) else Log(Blanks(n + 1), 0, HEIGHT - 1)
  {
    if n > 0 {
      assert Newlines(n)[..n - 1] == Newlines(n - 1);
      AfterNewlines(n - 1);
      assert n >= HEIGHT ==> Blanks(n) + [Blank()] == Blanks(n + 1);
    }
  }

  /** After two hundred lines and a letter, scrolling back and snapping to the live view loses the letter:
    * it stands on line 200, and rendering stops before it. */
  method SnapBackLoses() returns (d: Display)
    ensures fresh(d) && d.Kept() && d.offset == 0 && d.head == 176
    ensures d.log.lines[200][0] == 65 && d.rows[24] == Blank() && !d.Live()
  {
    d := new Display();
    d.PrintAll(Newlines(200) + [65]);
    AfterNewlines(200);
    assert (Newlines(200) + [65])[..200] == Newlines(200);
    d.ScrollUp(1);
    d.SnapBack();
    assert d.rows[24] == d.Rendered(24);
  }

  /** One letter and a cleared screen: the ring keeps the letter. */
  method ClearForgets() returns (d: Display)
    ensures fresh(d) && d.Shaped() && d.log == Start() && d.rows[0] == Blank() && d.ring[0][0] == 65 && !d.Live()
  {
    d := new Display();
    d.Putc(65);
    assert d.ring[0 % RING_LINES] == d.log.lines[0];
    d.Clear();
  }
}
