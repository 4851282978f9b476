/**
  * The switch between two stacks: registers and the stack pointer are saved below the return
  * address, the other task's are restored from its own stack, and its return address is taken.
  */
module ContextSwitch {
  import opened Bytes

  type word = x: int | 0 <= x < TWO32

  const FRAME_WORDS := 9 // eight saved registers and a return address

  datatype Regs = Regs(eax: word, ecx: word, edx: word, ebx: word, ebp: word, esi: word, edi: word)

  const ZERO_REGS := Regs(0, 0, 0, 0, 0, 0, 0)

  /** What a task goes on with: registers, stack pointer, next instruction. */
  datatype Cpu = Cpu(regs: Regs, esp: word, eip: word)

  // ── frames in memory, by word index ──

  /** Memory with the registers pushed below word `i`, as one push of all registers leaves them. */
  ghost function SaveFrame(m: seq<word>, i: nat, r: Regs, esp: word): (n: seq<word>)
    requires 8 <= i <= |m|
    ensures |n| == |m|
    ensures forall k :: 0 <= k < |m| && !(i - 8 <= k < i) ==> n[k] == m[k]
    ensures n[i - 8] == r.edi && n[i - 7] == r.esi && n[i - 6] == r.ebp && n[i - 4] == r.ebx
      && n[i - 3] == r.edx && n[i - 2] == r.ecx && n[i - 1] == r.eax && n[i - 5] == esp
  {
    var half := m[i - 1 := r.eax][i - 2 := r.ecx][i - 3 := r.edx][i - 4 := r.ebx];
    half[i - 5 := esp][i - 6 := r.ebp][i - 7 := r.esi][i - 8 := r.edi]
  }

  /** What popping all registers and returning gives when the stack pointer is at word `i`. */
  ghost function LoadFrame(m: seq<word>, i: nat): (c: Cpu)
    requires i + FRAME_WORDS <= |m| && 4 * (i + FRAME_WORDS) < TWO32
  {
    Cpu(Regs(m[i + 7], m[i + 6], m[i + 5], m[i + 4], m[i + 2], m[i + 1], m[i]), 4 * (i + FRAME_WORDS), m[i + 8])
  }

  /** Restoring what was saved gives the registers back, and the stack pointer and instruction as
    * after a return from the call. */
  lemma SaveLoad(m: seq<word>, i: nat, r: Regs, esp: word)
    requires 8 <= i < |m| && 4 * (i + 1) < TWO32
    ensures LoadFrame(SaveFrame(m, i, r, esp), i - 8) == Cpu(r, 4 * (i + 1), m[i])
  {
  }

  /** A frame depends on its own words only. */
  lemma LoadSame(m: seq<word>, n: seq<word>, i: nat)
    requires i + FRAME_WORDS <= |m| == |n| && 4 * (i + FRAME_WORDS) < TWO32
    requires forall k :: i <= k < i + FRAME_WORDS ==> n[k] == m[k]
    ensures LoadFrame(n, i) == LoadFrame(m, i)
  {
  }

  /** Memory with the frame of a task that has never run in the nine words below `top`. */
  ghost function FreshFrame(m: seq<word>, top: nat, entry: word): (n: seq<word>)
    requires FRAME_WORDS <= top <= |m|
    ensures |n| == |m|
    ensures forall k :: 0 <= k < |m| && !(top - FRAME_WORDS <= k < top) ==> n[k] == m[k]
    ensures n[top - 1] == entry && forall k :: top - 9 <= k < top - 1 ==> n[k] == 0
  {
    var half := m[top - 1 := entry][top - 2 := 0][top - 3 := 0][top - 4 := 0][top - 5 := 0];
    half[top - 6 := 0][top - 7 := 0][top - 8 := 0][top - 9 := 0]
  }

  /** A fresh task first runs at its entry, with zeroed registers and nothing on its stack. */
  lemma FreshLoad(m: seq<word>, top: nat, entry: word)
    requires FRAME_WORDS <= top <= |m| && 4 * top < TWO32
    ensures LoadFrame(FreshFrame(m, top, entry), top - FRAME_WORDS) == Cpu(ZERO_REGS, 4 * top, entry)
  {
  }

  // ── the machine ──

  class Machine {
    var eax: word
    var ecx: word
    var edx: word
    var ebx: word
    var esp: word
    var ebp: word
    var esi: word
    var edi: word
    var eip: word
    const mem: array<word>

    constructor (words: nat)
      ensures mem.Length == words && fresh(mem)
    {
      eax, ecx, edx, ebx, esp, ebp, esi, edi, eip := 0, 0, 0, 0, 0, 0, 0, 0, 0;
      mem := new word[words](i => 0);
    }

    ghost function Registers(): Regs
      reads this
    {
      Regs(eax, ecx, edx, ebx, ebp, esi, edi)
    }

    ghost function State(): Cpu
      reads this
    {
      Cpu(Registers(), esp, eip)
    }

    ghost function Words(): (m: seq<word>)
      reads mem
      ensures |m| == mem.Length
    {
      mem[..]
    }

    function Load(address: nat): word
      requires address / 4 < mem.Length
      reads mem
    {
      mem[address / 4]
    }

    method Store(address: nat, x: word)
      requires address / 4 < mem.Length
      modifies mem
      ensures Words() == old(Words())[address / 4 := x]
    {
      mem[address / 4] := x;
    }

    /** Pushes onto a stack whose top is word `k`. */
    method Push(x: word, ghost k: nat)
      requires esp == 4 * k && 1 <= k <= mem.Length
      modifies this`esp, mem
      ensures esp == 4 * (k - 1) && Words() == old(Words())[k - 1 := x]
    {
      esp := esp - 4;
      mem[esp / 4] := x;
    }

    method Pop(ghost k: nat) returns (x: word)
      requires esp == 4 * k && k < mem.Length && 4 * (k + 1) < TWO32
      modifies this`esp
      ensures esp == 4 * (k + 1) && x == Words()[k]
    {
      x := mem[esp / 4];
      esp := esp + 4;
    }

    method Pushad(ghost k: nat)
      requires esp == 4 * k && 8 <= k <= mem.Length
      modifies this`esp, mem
      ensures esp == 4 * (k - 8) && Words() == SaveFrame(old(Words()), k, old(Registers()), 4 * k)
    {
      var temp := esp;
      Push(eax, k);
      Push(ecx, k - 1);
      Push(edx, k - 2);
      Push(ebx, k - 3);
      Push(temp, k - 4);
      Push(ebp, k - 5);
      Push(esi, k - 6);
      Push(edi, k - 7);
    }

    /** The stack pointer's saved value is skipped. */
    method Popad(ghost k: nat)
      requires esp == 4 * k && k + 8 <= mem.Length && 4 * (k + 8) < TWO32
      modifies this`eax, this`ecx, this`edx, this`ebx, this`esp, this`ebp, this`esi, this`edi
      ensures esp == 4 * (k + 8)
      ensures var m := Words(); Registers() == Regs(m[k + 7], m[k + 6], m[k + 5], m[k + 4], m[k + 2], m[k + 1], m[k])
    {
      edi := Pop(k);
      esi := Pop(k + 1);
      ebp := Pop(k + 2);
      var _ := Pop(k + 3);
      ebx := Pop(k + 4);
      edx := Pop(k + 5);
      ecx := Pop(k + 6);
      eax := Pop(k + 7);
    }

    method Ret(ghost k: nat)
      requires esp == 4 * k && k < mem.Length && 4 * (k + 1) < TWO32
      modifies this`esp, this`eip
      ensures esp == 4 * (k + 1) && eip == Words()[k]
    {
      eip := Pop(k);
    }

    /** Takes the two arguments from under the return address at word `k` and stores the stack pointer. */
    method SaveStack(ghost k: nat)
      requires 8 <= k && k + 3 <= mem.Length && esp == 4 * (k - 8)
      requires Words()[k + 1] / 4 < mem.Length
      modifies this`eax, this`ecx, mem
      ensures eax == old(Words())[k + 1] && ecx == old(Words())[k + 2]
      ensures Words() == old(Words())[eax / 4 := esp]
    {
      assert (esp + 36) / 4 == k + 1 && (esp + 40) / 4 == k + 2;
      eax := Load(esp + 36);
      ecx := Load(esp + 40);
      Store(eax, esp);
    }

    method Restore(ghost k: nat)
      requires esp == 4 * k && k + FRAME_WORDS <= mem.Length && 4 * (k + FRAME_WORDS) < TWO32
      modifies this`eax, this`ecx, this`edx, this`ebx, this`esp, this`ebp, this`esi, this`edi, this`eip
      ensures State() == LoadFrame(Words(), k)
    {
      Popad(k);
      Ret(k + 8);
    }

    /** Entered by a call: the return address is on top of the stack, under it the address where the
      * stack pointer is to be saved and the stack pointer to go on with. */
    method Switch()
      requires esp % 4 == 0 && 32 <= esp && esp / 4 + 3 <= mem.Length
      requires var i := esp / 4; var cell, target := Words()[i + 1], Words()[i + 2];
        && cell % 4 == 0 && cell / 4 < mem.Length
        && target % 4 == 0 && target / 4 + FRAME_WORDS <= mem.Length && target + 4 * FRAME_WORDS < TWO32
      modifies this, mem
      ensures var i := old(esp) / 4; var cell, target := old(Words())[i + 1], old(Words())[i + 2];
        && Words() == SaveFrame(old(Words()), i, old(Registers()), old(esp))[cell / 4 := old(esp) - 32]
        && State() == LoadFrame(Words(), target / 4)
    {
      hide SaveFrame, LoadFrame;
      ghost var k := esp / 4;
      Pushad(k);
      SaveStack(k);
      esp := ecx;
      Restore(esp / 4);
    }
  }
}
