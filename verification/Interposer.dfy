/** The older interposer: push every register, let a C function edit the error
    code in the saved frame, pop, and return into the page-fault handler
    through an XOR exchange that leaves no register changed. */
module Interposer {
  import opened Machine

  const PAGE_FAULT_HANDLER: Word := 0xffff_ffff_8100_1290
  const WR_FT: Word := 2
  const USER_FT: Word := 4

  /** Bitwise exclusive or. */
  function Xor(a: nat, b: nat): nat
    decreases a + b
  {
    if a == 0 && b == 0 then 0
    else (if a % 2 == b % 2 then 0 else 1) + 2 * Xor(a / 2, b / 2)
  }

  function Pow2(k: nat): nat {
    if k == 0 then 1 else 2 * Pow2(k - 1)
  }

  lemma {:induction false} XorCommutes(a: nat, b: nat)
    ensures Xor(a, b) == Xor(b, a)
    decreases a + b
  {
    if a == 0 && b == 0 {
    } else {
      XorCommutes(a / 2, b / 2);
    }
  }

  lemma {:induction false} XorBound(a: nat, b: nat, k: nat)
    requires a < Pow2(k) && b < Pow2(k)
    ensures Xor(a, b) < Pow2(k)
    decreases k
  {
    if a == 0 && b == 0 {
    } else {
      XorBound(a / 2, b / 2, k - 1);
    }
  }

  lemma {:induction false} XorCancels(a: nat, b: nat)
    ensures Xor(a, Xor(a, b)) == b
    decreases a + b
  {
    if a == 0 && b == 0 {
    } else {
      XorCancels(a / 2, b / 2);
      var x := Xor(a, b);
      assert x / 2 == Xor(a / 2, b / 2) && x % 2 == (if a % 2 == b % 2 then 0 else 1);
      if a == 0 && x == 0 {
        XorCommutes(a, b);
      }
    }
  }

  lemma {:induction false} Pow2Adds(i: nat, j: nat)
    ensures Pow2(i + j) == Pow2(i) * Pow2(j)
  {
    if i == 0 {
    } else {
      Pow2Adds(i - 1, j);
    }
  }

  lemma {:induction false} Pow2Is64()
    ensures Pow2(64) == TWO64
  {
    assert Pow2(8) == 0x100;
    assert Pow2(16) == 0x1_0000 by { Pow2Adds(8, 8); }
    assert Pow2(32) == 0x1_0000_0000 by { Pow2Adds(16, 16); }
    Pow2Adds(32, 32);
  }

  function XorWord(a: Word, b: Word): Word {
    Pow2Is64();
    XorBound(a, b, 64);
    Xor(a, b)
  }

  /** `RET_TO_PG_FT`. */
  method RetToPageFault(cpu: Cpu)
    requires 8 <= cpu.regs.rsp
    modifies cpu`regs, cpu`mem, cpu`rip
    ensures cpu.rip == PAGE_FAULT_HANDLER
    ensures cpu.regs == old(cpu.regs)
    ensures SameOutside(old(cpu.mem), cpu.mem, cpu.regs.rsp - 8, cpu.regs.rsp)
  {
    ghost var a := cpu.regs.rax;
    cpu.Push(cpu.regs.rax);
    var sp := cpu.regs.rsp;
    cpu.regs := cpu.regs.(rax := PAGE_FAULT_HANDLER);
    cpu.regs := cpu.regs.(rax := XorWord(cpu.regs.rax, Load(cpu.mem, sp)));
    cpu.mem := cpu.mem[sp := XorWord(Load(cpu.mem, sp), cpu.regs.rax)];
    assert Load(cpu.mem, sp) == PAGE_FAULT_HANDLER by {
      XorCommutes(PAGE_FAULT_HANDLER, a);
      XorCancels(a, PAGE_FAULT_HANDLER);
    }
    cpu.regs := cpu.regs.(rax := XorWord(cpu.regs.rax, Load(cpu.mem, sp)));
    assert cpu.regs.rax == a by {
      XorCommutes(Xor(PAGE_FAULT_HANDLER, a), PAGE_FAULT_HANDLER);
      XorCancels(PAGE_FAULT_HANDLER, a);
    }
    cpu.Ret();
  }

  /** `struct pt_regs` from `p` up, in three groups of five registers. */
  predicate SavedLow(mem: Memory, p: int, r: Regs) {
    && Load(mem, p) == r.r15 && Load(mem, p + 8) == r.r14 && Load(mem, p + 16) == r.r13
    && Load(mem, p + 24) == r.r12 && Load(mem, p + 32) == r.rbp
  }

  predicate SavedMiddle(mem: Memory, p: int, r: Regs) {
    && Load(mem, p + 40) == r.rbx && Load(mem, p + 48) == r.r11 && Load(mem, p + 56) == r.r10
    && Load(mem, p + 64) == r.r9 && Load(mem, p + 72) == r.r8
  }

  predicate SavedHigh(mem: Memory, p: int, r: Regs) {
    && Load(mem, p + 80) == r.rax && Load(mem, p + 88) == r.rcx && Load(mem, p + 96) == r.rdx
    && Load(mem, p + 104) == r.rsi && Load(mem, p + 112) == r.rdi
  }

  predicate Saved(mem: Memory, p: int, r: Regs) {
    SavedLow(mem, p, r) && SavedMiddle(mem, p, r) && SavedHigh(mem, p, r)
  }

  /** The fifteen words from `p` up, in the order of `struct pt_regs`. */
  ghost predicate InPtRegsOrder(mem: Memory, p: int, r: Regs) {
    var words := [r.r15, r.r14, r.r13, r.r12, r.rbp] + [r.rbx, r.r11, r.r10, r.r9, r.r8]
                 + [r.rax, r.rcx, r.rdx, r.rsi, r.rdi];
    forall i :: 0 <= i < 15 ==> At(mem, p, i) == words[i]
  }

  lemma SavedInOrder(mem: Memory, p: int, r: Regs)
    requires Saved(mem, p, r)
    ensures InPtRegsOrder(mem, p, r)
  {
    assert At(mem, p, 0) == r.r15 && At(mem, p, 1) == r.r14 && At(mem, p, 2) == r.r13 && At(mem, p, 3) == r.r12;
    assert At(mem, p, 4) == r.rbp && At(mem, p, 5) == r.rbx && At(mem, p, 6) == r.r11 && At(mem, p, 7) == r.r10;
    assert At(mem, p, 8) == r.r9 && At(mem, p, 9) == r.r8 && At(mem, p, 10) == r.rax && At(mem, p, 11) == r.rcx;
    assert At(mem, p, 12) == r.rdx && At(mem, p, 13) == r.rsi && At(mem, p, 14) == r.rdi;
  }

  method PushHigh(cpu: Cpu)
    requires 40 <= cpu.regs.rsp
    modifies cpu`regs, cpu`mem
    ensures cpu.regs == old(cpu.regs).(rsp := old(cpu.regs.rsp) - 40)
    ensures SavedHigh(cpu.mem, cpu.regs.rsp - 80, cpu.regs)
    ensures SameOutside(old(cpu.mem), cpu.mem, cpu.regs.rsp, cpu.regs.rsp + 40)
  {
    cpu.Push(cpu.regs.rdi);
    cpu.Push(cpu.regs.rsi);
    cpu.Push(cpu.regs.rdx);
    cpu.Push(cpu.regs.rcx);
    cpu.Push(cpu.regs.rax);
  }

  method PushMiddle(cpu: Cpu)
    requires 40 <= cpu.regs.rsp
    modifies cpu`regs, cpu`mem
    ensures cpu.regs == old(cpu.regs).(rsp := old(cpu.regs.rsp) - 40)
    ensures SavedMiddle(cpu.mem, cpu.regs.rsp - 40, cpu.regs)
    ensures SameOutside(old(cpu.mem), cpu.mem, cpu.regs.rsp, cpu.regs.rsp + 40)
  {
    cpu.Push(cpu.regs.r8);
    cpu.Push(cpu.regs.r9);
    cpu.Push(cpu.regs.r10);
    cpu.Push(cpu.regs.r11);
    cpu.Push(cpu.regs.rbx);
  }

  method PushLow(cpu: Cpu)
    requires 40 <= cpu.regs.rsp
    modifies cpu`regs, cpu`mem
    ensures cpu.regs == old(cpu.regs).(rsp := old(cpu.regs.rsp) - 40)
    ensures SavedLow(cpu.mem, cpu.regs.rsp, cpu.regs)
    ensures SameOutside(old(cpu.mem), cpu.mem, cpu.regs.rsp, cpu.regs.rsp + 40)
  {
    cpu.Push(cpu.regs.rbp);
    cpu.Push(cpu.regs.r12);
    cpu.Push(cpu.regs.r13);
    cpu.Push(cpu.regs.r14);
    cpu.Push(cpu.regs.r15);
  }

  /** `PUSH_REGS`. */
  method PushRegs(cpu: Cpu)
    requires 120 <= cpu.regs.rsp
    modifies cpu`regs, cpu`mem
    ensures cpu.regs == old(cpu.regs).(rsp := old(cpu.regs.rsp) - 120)
    ensures Saved(cpu.mem, cpu.regs.rsp, old(cpu.regs))
    ensures InPtRegsOrder(cpu.mem, cpu.regs.rsp, old(cpu.regs))
    ensures SameOutside(old(cpu.mem), cpu.mem, cpu.regs.rsp, cpu.regs.rsp + 120)
  {
    PushHigh(cpu);
    PushMiddle(cpu);
    PushLow(cpu);
    SavedInOrder(cpu.mem, cpu.regs.rsp, old(cpu.regs));
  }

  method PopLow(cpu: Cpu, ghost r: Regs)
    requires cpu.regs.rsp + 40 < TWO64 && SavedLow(cpu.mem, cpu.regs.rsp, r)
    modifies cpu`regs
    ensures cpu.regs == old(cpu.regs).(rsp := old(cpu.regs.rsp) + 40,
                                       r15 := r.r15, r14 := r.r14, r13 := r.r13, r12 := r.r12, rbp := r.rbp)
  {
    var w := cpu.Pop();
    cpu.regs := cpu.regs.(r15 := w);
    w := cpu.Pop();
    cpu.regs := cpu.regs.(r14 := w);
    w := cpu.Pop();
    cpu.regs := cpu.regs.(r13 := w);
    w := cpu.Pop();
    cpu.regs := cpu.regs.(r12 := w);
    w := cpu.Pop();
    cpu.regs := cpu.regs.(rbp := w);
  }

  method PopMiddle(cpu: Cpu, ghost r: Regs)
    requires cpu.regs.rsp + 40 < TWO64 && SavedMiddle(cpu.mem, cpu.regs.rsp - 40, r)
    modifies cpu`regs
    ensures cpu.regs == old(cpu.regs).(rsp := old(cpu.regs.rsp) + 40,
                                       rbx := r.rbx, r11 := r.r11, r10 := r.r10, r9 := r.r9, r8 := r.r8)
  {
    var w := cpu.Pop();
    cpu.regs := cpu.regs.(rbx := w);
    w := cpu.Pop();
    cpu.regs := cpu.regs.(r11 := w);
    w := cpu.Pop();
    cpu.regs := cpu.regs.(r10 := w);
    w := cpu.Pop();
    cpu.regs := cpu.regs.(r9 := w);
    w := cpu.Pop();
    cpu.regs := cpu.regs.(r8 := w);
  }

  method PopHigh(cpu: Cpu, ghost r: Regs)
    requires cpu.regs.rsp + 40 < TWO64 && SavedHigh(cpu.mem, cpu.regs.rsp - 80, r)
    modifies cpu`regs
    ensures cpu.regs == old(cpu.regs).(rsp := old(cpu.regs.rsp) + 40,
                                       rax := r.rax, rcx := r.rcx, rdx := r.rdx, rsi := r.rsi, rdi := r.rdi)
  {
    var w := cpu.Pop();
    cpu.regs := cpu.regs.(rax := w);
    w := cpu.Pop();
    cpu.regs := cpu.regs.(rcx := w);
    w := cpu.Pop();
    cpu.regs := cpu.regs.(rdx := w);
    w := cpu.Pop();
    cpu.regs := cpu.regs.(rsi := w);
    w := cpu.Pop();
    cpu.regs := cpu.regs.(rdi := w);
  }

  /** `POP_REGS`. */
  method PopRegs(cpu: Cpu, ghost r: Regs)
    requires cpu.regs.rsp + 120 < TWO64 && Saved(cpu.mem, cpu.regs.rsp, r)
    modifies cpu`regs
    ensures cpu.regs == r.(rsp := old(cpu.regs.rsp) + 120)
  {
    PopLow(cpu, r);
    PopMiddle(cpu, r);
    PopHigh(cpu, r);
  }

  /** A C function given `p`, the address of the saved registers: what it may do
      is clobber registers, write below its stack pointer, and set the error
      code, the sixteenth word of `struct pt_regs`. */
  ghost predicate CalleeOk(r: Regs, m: Memory, r': Regs, m': Memory, newEc: Word -> Word) {
    && r'.rsp == r.rsp
    && Load(m', r.rsp + 120) == newEc(Load(m, r.rsp + 120))
    && (forall a :: r.rsp <= a && a != r.rsp + 120 ==> Load(m', a) == Load(m, a))
  }

  /** `INTERPOSER_HANDLER(LAB, TARG)`: whatever well-behaved C function is
      called, the page-fault handler starts with every register as on entry and
      only the error code rewritten. */
  method InterposerHandler(cpu: Cpu, callee: (Regs, Memory) -> (Regs, Memory), ghost newEc: Word -> Word)
    requires 128 <= cpu.regs.rsp && cpu.regs.rsp + 8 < TWO64
    requires forall r: Regs, m: Memory | r.rdi == r.rsp :: CalleeOk(r, m, callee(r, m).0, callee(r, m).1, newEc)
    modifies cpu`regs, cpu`mem, cpu`rip
    ensures cpu.rip == PAGE_FAULT_HANDLER
    ensures cpu.regs == old(cpu.regs)
    ensures Load(cpu.mem, cpu.regs.rsp) == newEc(Load(old(cpu.mem), cpu.regs.rsp))
    ensures forall a :: cpu.regs.rsp < a ==> Load(cpu.mem, a) == Load(old(cpu.mem), a)
  {
    PushRegs(cpu);
    cpu.regs := cpu.regs.(rdi := cpu.regs.rsp);
    ghost var m := cpu.mem;
    var (r', m') := callee(cpu.regs, cpu.mem);
    assert CalleeOk(cpu.regs, m, r', m', newEc);
    cpu.regs, cpu.mem := r', m';
    PopRegs(cpu, old(cpu.regs));
    RetToPageFault(cpu);
  }

  /** `df_c_entry`: a double fault becomes a user write fault. */
  function DfEntry(r: Regs, m: Memory): (Regs, Memory) {
    (r, m[r.rdi + 120 := USER_FT + WR_FT])
  }

  /** `tf_c_entry`: a page fault becomes a user fault. */
  function TfEntry(r: Regs, m: Memory): (Regs, Memory) {
    (r, m[r.rdi + 120 := SetUserBit(Load(m, r.rdi + 120))])
  }

  method DfJmpToC(cpu: Cpu)
    requires 128 <= cpu.regs.rsp && cpu.regs.rsp + 8 < TWO64
    modifies cpu`regs, cpu`mem, cpu`rip
    ensures cpu.rip == PAGE_FAULT_HANDLER && cpu.regs == old(cpu.regs)
    ensures Load(cpu.mem, cpu.regs.rsp) == 6
    ensures forall a :: cpu.regs.rsp < a ==> Load(cpu.mem, a) == Load(old(cpu.mem), a)
  {
    InterposerHandler(cpu, DfEntry, ec => USER_FT + WR_FT);
  }

  method TfJmpToC(cpu: Cpu)
    requires 128 <= cpu.regs.rsp && cpu.regs.rsp + 8 < TWO64
    modifies cpu`regs, cpu`mem, cpu`rip
    ensures cpu.rip == PAGE_FAULT_HANDLER && cpu.regs == old(cpu.regs)
    ensures var ec, ec' := Load(old(cpu.mem), cpu.regs.rsp), Load(cpu.mem, cpu.regs.rsp);
            (ec' / 4) % 2 == 1 && ec' % 4 == ec % 4 && ec' / 8 == ec / 8
    ensures forall a :: cpu.regs.rsp < a ==> Load(cpu.mem, a) == Load(old(cpu.mem), a)
  {
    InterposerHandler(cpu, TfEntry, SetUserBit);
    UserBitOnly(Load(old(cpu.mem), cpu.regs.rsp));
  }
}
