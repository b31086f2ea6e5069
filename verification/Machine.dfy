/** The part of an x86-64 processor that the exception trampolines touch:
    general registers, the two GS bases, CR2, the direction flag, and memory
    seen as 64-bit words addressed by byte address. */
module Machine {

  const TWO63 := 0x8000_0000_0000_0000
  const TWO64 := 0x1_0000_0000_0000_0000

  type Word = x: int | 0 <= x < TWO64

  /** The words of memory, keyed by the byte address at which each starts.
      Every run modelled here accesses words that coincide or do not overlap. */
  type Memory = map<int, Word>

  function Load(mem: Memory, a: int): Word {
    if a in mem then mem[a] else 0
  }

  /** The word `i` places above `base`. */
  function At(mem: Memory, base: int, i: int): Word {
    Load(mem, base + 8 * i)
  }

  /** Outside the two half-open address ranges, memory is the same. */
  ghost predicate SameOutside2(m: Memory, m': Memory, lo: int, hi: int, lo': int, hi': int) {
    forall a :: !(lo <= a < hi) && !(lo' <= a < hi') ==> Load(m', a) == Load(m, a)
  }

  ghost predicate SameOutside(m: Memory, m': Memory, lo: int, hi: int) {
    forall a :: !(lo <= a < hi) ==> Load(m', a) == Load(m, a)
  }

  /** The sign flag of a 64-bit value: set exactly on kernel addresses. */
  predicate Negative(w: Word) {
    w >= TWO63
  }

  function Minus(w: Word, n: Word): Word {
    if n <= w then w - n else w - n + TWO64
  }

  function Plus(w: Word, n: Word): Word {
    if w + n < TWO64 then w + n else w + n - TWO64
  }

  predicate Bit29(w: Word) {
    (w / 0x2000_0000) % 2 == 1
  }

  function SetBit29(w: Word): Word {
    if Bit29(w) then w else w + 0x2000_0000
  }

  function ClearBit29(w: Word): Word {
    if Bit29(w) then w - 0x2000_0000 else w
  }

  /** `orl $4`: the "user" bit of a page-fault error code. */
  function SetUserBit(w: Word): Word {
    if (w / 4) % 2 == 1 then w else w + 4
  }

  /** Bit 2 is set and every other bit stays. */
  lemma UserBitOnly(w: Word)
    ensures var w' := SetUserBit(w);
            (w' / 4) % 2 == 1 && w' % 4 == w % 4 && w' / 8 == w / 8
  {
    if (w / 4) % 2 == 0 {
      var q, r := w / 4, w % 4;
      assert w == 4 * q + r && w + 4 == 4 * (q + 1) + r;
      assert w / 8 == q / 2 && (w + 4) / 8 == (q + 1) / 2;
    } else {
    }
  }

  datatype Regs = Regs(
    rax: Word, rbx: Word, rcx: Word, rdx: Word, rsi: Word, rdi: Word, rbp: Word, rsp: Word,
    r8: Word, r9: Word, r10: Word, r11: Word, r12: Word, r13: Word, r14: Word, r15: Word)

  /** A snapshot of everything an exception handler could observe. */
  datatype Snapshot = Snapshot(regs: Regs, rip: Word, gs: Word, kernelGs: Word, mem: Memory)

  class Cpu {
    var regs: Regs
    var rip: Word
    var gs: Word            // the active GS base
    var kernelGs: Word      // the inactive one, exchanged by swapgs
    var mem: Memory
    var dirDown: bool       // the direction flag
    var cr2: Word
    // what the kernel keeps behind the per-CPU base
    var perCpu: Word
    var sp0: Word           // cpu_tss_rw.x86_tss.sp0
    var elevated: bool      // current->symbiote_elevated

    ghost function View(): Snapshot
      reads this
    {
      Snapshot(regs, rip, gs, kernelGs, mem)
    }

    constructor (regs: Regs, gs: Word, kernelGs: Word, cr2: Word, perCpu: Word, sp0: Word, elevated: bool)
      ensures View() == Snapshot(regs, 0, gs, kernelGs, map[])
      ensures this.cr2 == cr2 && this.perCpu == perCpu && this.sp0 == sp0 && this.elevated == elevated
    {
      this.regs, rip := regs, 0;
      this.gs, this.kernelGs := gs, kernelGs;
      mem, dirDown := map[], false;
      this.cr2, this.perCpu, this.sp0, this.elevated := cr2, perCpu, sp0, elevated;
    }

    method Push(w: Word)
      modifies `regs, `mem
      ensures regs == old(regs).(rsp := Minus(old(regs).rsp, 8))
      ensures mem == old(mem)[regs.rsp := w]
    {
      regs := regs.(rsp := Minus(regs.rsp, 8));
      mem := mem[regs.rsp := w];
    }

    method Pop() returns (w: Word)
      modifies `regs
      ensures w == Load(mem, old(regs).rsp)
      ensures regs == old(regs).(rsp := Plus(old(regs).rsp, 8))
    {
      w := Load(mem, regs.rsp);
      regs := regs.(rsp := Plus(regs.rsp, 8));
    }

    method Ret()
      modifies `regs, `rip
      ensures rip == Load(mem, old(regs).rsp)
      ensures regs == old(regs).(rsp := Plus(old(regs).rsp, 8))
    {
      rip := Pop();
    }

    method SwapGs()
      modifies `gs, `kernelGs
      ensures gs == old(kernelGs) && kernelGs == old(gs)
    {
      gs, kernelGs := kernelGs, gs;
    }

    /** `%gs:TSS_sp0`: meaningful only while the per-CPU base is active. */
    method ReadSp0() returns (w: Word)
      requires gs == perCpu
      ensures w == sp0
    {
      w := sp0;
    }

    /** `%gs:current_task`, then its elevation flag. */
    method ReadElevated() returns (e: bool)
      requires gs == perCpu
      ensures e == elevated
    {
      e := elevated;
    }

    /** `rep movsq` with the direction flag clear. */
    method RepMovsq()
      requires !dirDown
      requires regs.rdi + 8 * regs.rcx < TWO64 && regs.rsi + 8 * regs.rcx < TWO64
      requires regs.rdi + 8 * regs.rcx <= regs.rsi || regs.rsi + 8 * regs.rcx <= regs.rdi
      modifies `regs, `mem
      ensures var n := old(regs).rcx;
              && regs == old(regs).(rcx := 0, rdi := old(regs).rdi + 8 * n, rsi := old(regs).rsi + 8 * n)
              && (forall i :: 0 <= i < n ==> At(mem, old(regs).rdi, i) == At(old(mem), old(regs).rsi, i))
              && SameOutside(old(mem), mem, old(regs).rdi, old(regs).rdi + 8 * n)
    {
      ghost var n, d, s := regs.rcx, regs.rdi, regs.rsi;
      while regs.rcx != 0
        invariant 0 <= regs.rcx <= n
        invariant regs == old(regs).(rcx := regs.rcx, rdi := d + 8 * (n - regs.rcx), rsi := s + 8 * (n - regs.rcx))
        invariant forall i :: 0 <= i < n - regs.rcx ==> At(mem, d, i) == At(old(mem), s, i)
        invariant SameOutside(old(mem), mem, d, d + 8 * (n - regs.rcx))
        decreases regs.rcx
      {
        ghost var k := n - regs.rcx;
        assert Load(mem, regs.rsi) == At(old(mem), s, k);
        mem := mem[regs.rdi := Load(mem, regs.rsi)];
        regs := regs.(rcx := regs.rcx - 1, rdi := regs.rdi + 8, rsi := regs.rsi + 8);
        assert At(mem, d, k) == At(old(mem), s, k);
      }
    }
  }
}
