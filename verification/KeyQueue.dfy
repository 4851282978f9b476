/**
  * The keyboard queue: a ring filled by the interrupt handler and emptied by the shell, whose steps
  * the handler may interrupt anywhere.
  */
module KeyQueue {
  import opened Bytes

  const SIZE := 256

  // ── the ring as a queue ──

  /** What lies in the ring from `head` up to `tail`. */
  ghost function Contents(ring: seq<byte>, head: nat, tail: nat): (q: seq<byte>)
    requires |ring| == SIZE && head < SIZE && tail < SIZE
    ensures |q| == (tail - head) % SIZE < SIZE
  {
    seq((tail - head) % SIZE, k requires 0 <= k < SIZE => ring[(head + k) % SIZE])
  }

  /** Distances around the ring. */
  lemma Around(head: nat, tail: nat)
    requires head < SIZE && tail < SIZE
    ensures var n := (tail - head) % SIZE;
      && (head + n) % SIZE == tail
      && ((tail + 1) % SIZE == head <==> n == SIZE - 1)
      && (n < SIZE - 1 ==> ((tail + 1) % SIZE - head) % SIZE == n + 1)
  {
  }

  lemma Between(head: nat, tail: nat, k: nat)
    requires head < SIZE && tail < SIZE && k <= (tail - head) % SIZE
    ensures 0 <= (head + k) % SIZE < SIZE && ((head + k) % SIZE == tail <==> k == (tail - head) % SIZE)
  {
  }

  /** Putting a character at `tail` appends it; there is no room exactly when 255 are pending. */
  lemma PutContents(ring: seq<byte>, head: nat, tail: nat, c: byte)
    requires |ring| == SIZE && head < SIZE && tail < SIZE
    ensures var next := (tail + 1) % SIZE;
      && (next == head <==> |Contents(ring, head, tail)| == 255)
      && (next != head ==> Contents(ring[tail := c], head, next) == Contents(ring, head, tail) + [c])
  {
    var n := (tail - head) % SIZE;
    Around(head, tail);
    if (tail + 1) % SIZE != head {
      var q, r := Contents(ring, head, tail) + [c], Contents(ring[tail := c], head, (tail + 1) % SIZE);
      forall k | 0 <= k < |q|
        ensures q[k] == r[k]
      {
        Between(head, tail, k);
      }
      assert q == r;
    }
  }

  lemma Onward(head: nat, tail: nat)
    requires head < SIZE && tail < SIZE
    ensures head == tail <==> (tail - head) % SIZE == 0
    ensures 0 <= (head + 1) % SIZE < SIZE && (head + 0) % SIZE == head
    ensures head != tail ==> (tail - (head + 1) % SIZE) % SIZE == (tail - head) % SIZE - 1
  {
  }

  lemma OneOn(head: nat, k: nat)
    ensures ((head + 1) % SIZE + k) % SIZE == (head + (k + 1)) % SIZE
  {
  }

  /** Taking a character at `head` removes the first. */
  lemma TakeContents(ring: seq<byte>, head: nat, tail: nat)
    requires |ring| == SIZE && head < SIZE && tail < SIZE
    ensures head == tail <==> Contents(ring, head, tail) == []
    ensures head != tail ==>
      && Contents(ring, head, tail)[0] == ring[head]
      && Contents(ring, (head + 1) % SIZE, tail) == Contents(ring, head, tail)[1..]
  {
    Onward(head, tail);
    if head != tail {
      var q, r := Contents(ring, head, tail)[1..], Contents(ring, (head + 1) % SIZE, tail);
      forall k | 0 <= k < |q|
        ensures q[k] == r[k]
      {
        OneOn(head, k);
      }
      assert q == r;
    }
  }

  // ── the queue and its reader ──

  /** How far the reader has got in taking a character: nowhere; it has read the head; it has found
    * something pending; it has read the character; it has computed the next head. */
  datatype Stage = Resting | HeadRead(head: nat) | Found | Taken(c: byte) | Stepped(c: byte, next: nat)

  /** What happens next: a key is typed, or the reader goes one step on. */
  datatype Step = Key(c: byte) | Read

  // ── the queue as its users see it ──

  /** The pending characters, how many steps the reader has taken, and what its calls have returned. */
  datatype View = View(pending: seq<byte>, progress: nat, out: seq<byte>)

  /** A key is appended unless 255 are pending. The reader looks at its second step whether something is
    * pending, and takes it at its fifth. */
  ghost function After(v: View, step: Step): (w: View)
    requires v.progress > 1 ==> v.pending != []
    ensures w.progress > 1 ==> w.pending != []
  {
    match step
    case Key(c) => if |v.pending| < 255 then v.(pending := v.pending + [c]) else v
    case Read =>
      if v.progress == 1 && v.pending == [] then v.(progress := 0)
      else if v.progress < 4 then v.(progress := v.progress + 1)
      else View(v.pending[1..], 0, v.out + [v.pending[0]])
  }

  ghost function AfterAll(v: View, steps: seq<Step>): (w: View)
    requires v.progress > 1 ==> v.pending != []
    ensures w.progress > 1 ==> w.pending != []
  {
    if steps == [] then v else After(AfterAll(v, steps[..|steps| - 1]), steps[|steps| - 1])
  }

  ghost function Keys(steps: seq<Step>): (k: seq<byte>)
    ensures |k| <= |steps|
  {
    if steps == [] then []
    else
      var last := steps[|steps| - 1];
      Keys(steps[..|steps| - 1]) + if last.Key? then [last.c] else []
  }

  /** One step, while there is room. */
  lemma NothingLost(v: View, step: Step)
    requires (v.progress > 1 ==> v.pending != []) && (step.Key? ==> |v.pending| < SIZE - 1)
    ensures var w := After(v, step); var key: seq<byte> := if step.Key? then [step.c] else [];
      w.out + w.pending == v.out + v.pending + key && |w.pending| <= |v.pending| + |key|
  {
    if step.Read? && v.progress >= 4 {
      assert v.pending == [v.pending[0]] + v.pending[1..];
      assert v.out + [v.pending[0]] + v.pending[1..] == v.out + ([v.pending[0]] + v.pending[1..]);
    }
  }

  /** While there is room, what has been read and what is pending are all the keys in order. */
  lemma {:induction false} NothingDropped(v: View, steps: seq<Step>)
    requires (v.progress > 1 ==> v.pending != []) && |v.pending| + |Keys(steps)| < SIZE
    ensures var w := AfterAll(v, steps);
      w.out + w.pending == v.out + v.pending + Keys(steps) && |w.pending| <= |v.pending| + |Keys(steps)|
    decreases |steps|
  {
    if steps != [] {
      var n := |steps| - 1;
      var m := AfterAll(v, steps[..n]);
      NothingDropped(v, steps[..n]);
      NothingLost(m, steps[n]);
      var key: seq<byte> := if steps[n].Key? then [steps[n].c] else [];
      assert v.out + v.pending + Keys(steps[..n]) + key == v.out + v.pending + (Keys(steps[..n]) + key);
    }
  }

  lemma StepKeeps(v: View, step: Step)
    requires v.progress > 1 ==> v.pending != []
    ensures var w := After(v, step); v.out <= w.out && v.out + v.pending <= w.out + w.pending
  {
    if step.Read? && v.progress >= 4 {
      assert v.out + v.pending == v.out + [v.pending[0]] + v.pending[1..];
    }
  }

  lemma PrefixBehind(a: seq<byte>, b: seq<byte>, c: seq<byte>)
    requires a + b <= a + c
    ensures b <= c
  {
    forall k | 0 <= k < |b|
      ensures b[k] == c[k]
    {
      assert (a + b)[|a| + k] == (a + c)[|a| + k];
    }
  }

  /** What is pending stays so, in its place, until the reader takes it, whatever keys come in. */
  lemma {:induction false} PendingStays(v: View, steps: seq<Step>)
    requires v.progress > 1 ==> v.pending != []
    ensures var w := AfterAll(v, steps);
      && v.out <= w.out && v.out + v.pending <= w.out + w.pending
      && (w.out == v.out ==> v.pending <= w.pending)
    decreases |steps|
  {
    if steps != [] {
      var n := |steps| - 1;
      PendingStays(v, steps[..n]);
      StepKeeps(AfterAll(v, steps[..n]), steps[n]);
    }
    var w := AfterAll(v, steps);
    if w.out == v.out {
      PrefixBehind(v.out, v.pending, w.pending);
    }
  }

  lemma AfterOut(pending: seq<byte>, progress: nat, out: seq<byte>, step: Step)
    requires progress > 1 ==> pending != []
    ensures var w := After(View(pending, progress, []), step);
      After(View(pending, progress, out), step) == View(w.pending, w.progress, out + w.out)
  {
  }

  /** How many steps of its call the reader has taken. */
  function Progress(s: Stage): nat
  {
    match s
    case Resting => 0
    case HeadRead(_) => 1
    case Found => 2
    case Taken(_) => 3
    case Stepped(_, _) => 4
  }

  class Queue {
    const ring: array<byte>
    var head: nat
    var tail: nat
    var stage: Stage
    ghost var accepted: seq<byte>  // every character that was put in
    ghost var delivered: seq<byte> // every character that was read

    ghost predicate Shaped()
      reads this`head, this`tail
    {
      ring.Length == SIZE && head < SIZE && tail < SIZE
    }

    /** The characters put in and not read yet. */
    ghost function Pending(): (q: seq<byte>)
      reads this`head, this`tail, ring
      requires Shaped()
    {
      Contents(ring[..], head, tail)
    }

    /** Characters come out in the order they went in, none lost and none twice: those read and those
      * pending, put together, are those accepted. What the reader has found out stays true. */
    ghost predicate Valid()
      reads this, ring
    {
      && Shaped() && accepted == delivered + Pending()
      && match stage
         case Resting => true
         case HeadRead(h) => h == head
         case Found => Pending() != []
         case Taken(c) => Pending() != [] && c == Pending()[0]
         case Stepped(c, next) => Pending() != [] && c == Pending()[0] && next == (head + 1) % SIZE
    }

    constructor ()
      ensures Valid() && accepted == [] && delivered == [] && stage == Resting
    {
      ring := new byte[SIZE](i => 0);
      head, tail, stage := 0, 0, Resting;
      accepted, delivered := [], [];
    }

    /** The interrupt handler puts a character in; it is dropped exactly when 255 are pending. */
    method PutChar(c: byte)
      requires Valid()
      modifies this`tail, this`accepted, ring
      ensures Valid() && |Pending()| < SIZE
      ensures Pending() == if |old(Pending())| < 255 then old(Pending()) + [c] else old(Pending())
      ensures accepted == if |old(Pending())| < 255 then old(accepted) + [c] else old(accepted)
    {
      PutContents(ring[..], head, tail, c);
      var next := (tail + 1) % SIZE;
      if next != head {
        ghost var was := ring[..];
        ring[tail] := c;
        assert ring[..] == was[tail := c];
        tail := next;
        accepted := accepted + [c];
      }
    }

    /** One step of the reader. The call is over when it finds nothing, or when it has moved the head. */
    method Advance() returns (over: bool, c: byte)
      requires Valid()
      modifies this`head, this`stage, this`delivered
      ensures Valid() && accepted == old(accepted)
      ensures over <==> stage == Resting
      ensures old(stage).Resting? ==> !over
      ensures over && old(stage).HeadRead? ==> c == 0 && old(Pending()) == [] && delivered == old(delivered)
      ensures over && !old(stage).HeadRead? ==>
        old(Pending()) != [] && c == old(Pending())[0] && delivered == old(delivered) + [c]
      ensures !over ==> delivered == old(delivered) && Pending() == old(Pending())
      ensures View(Pending(), Progress(stage), if over && !old(stage).HeadRead? then [c] else []) ==
        After(View(old(Pending()), Progress(old(stage)), []), Read)
    {
      TakeContents(ring[..], head, tail);
      over, c := false, 0;
      match stage
      case Resting =>
        stage := HeadRead(head);
      case HeadRead(h) =>
        if h == tail {
          over, stage := true, Resting;
        } else {
          stage := Found;
        }
      case Found =>
        stage := Taken(ring[head]);
      case Taken(x) =>
        stage := Stepped(x, (head + 1) % SIZE);
      case Stepped(x, next) =>
        head := next;
        over, c, stage := true, x, Resting;
        delivered := delivered + [x];
    }

    /** Something is pending, and stays so until the reader takes it. */
    method HasChar() returns (b: bool)
      requires Valid()
      ensures b <==> Pending() != []
    {
      TakeContents(ring[..], head, tail);
      b := head != tail;
    }

    /** One key or one step of the reader, and what it returns. */
    method Go(step: Step) returns (out: seq<byte>)
      requires Valid()
      modifies this, ring
      ensures Valid() && delivered == old(delivered) + out
      ensures View(Pending(), Progress(stage), out) == After(View(old(Pending()), Progress(old(stage)), []), step)
    {
      out := [];
      match step {
        case Key(c) =>
          PutChar(c);
        case Read =>
          var reading := !stage.HeadRead?;
          var over, c := Advance();
          if over && reading {
            out := [c];
          }
      }
    }

    /** Any interleaving of keys and reader steps: the calls that finish return the accepted
      * characters in order, from where reading had got to, as the queue's users see it. */
    method Interleave(steps: seq<Step>) returns (out: seq<byte>)
      requires Valid()
      modifies this, ring
      ensures Valid() && delivered == old(delivered) + out && delivered <= accepted
      ensures View(Pending(), Progress(stage), out) == AfterAll(View(old(Pending()), Progress(old(stage)), []), steps)
    {
      out := [];
      ghost var v := View(Pending(), Progress(stage), []);
      for k := 0 to |steps|
        invariant Valid() && delivered == old(delivered) + out
        invariant View(Pending(), Progress(stage), out) == AfterAll(v, steps[..k])
      {
        assert steps[..k + 1][..k] == steps[..k];
        AfterOut(Pending(), Progress(stage), out, steps[k]);
        var more := Go(steps[k]);
        out := out + more;
      }
      assert steps[..|steps|] == steps;
    }

    /** Without interruption, taking a character takes the first pending one, or 0 when there is none. */
    method GetChar() returns (c: byte)
      requires Valid() && stage == Resting
      modifies this`head, this`stage, this`delivered
      ensures Valid() && stage == Resting && accepted == old(accepted)
      ensures if old(Pending()) == [] then c == 0 && Pending() == []
        else c == old(Pending())[0] && Pending() == old(Pending())[1..]
    {
      TakeContents(ring[..], head, tail);
      if head == tail {
        return 0;
      }
      c := ring[head];
      head := (head + 1) % SIZE;
      delivered := delivered + [c];
    }
  }
}
