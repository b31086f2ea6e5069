/** The per-vector stubs and the two frame-moving trampolines.  The hardware
    has delivered an exception on the IST7 page; the trampolines move the
    frame to the stack the handler expects and enter the original handler. */
module Trampoline {
  import opened Machine

  const USER_CS: Word := 0x33
  const USER_SS: Word := 0x2b
  const THREAD_SIZE: Word := 0x4000

  /** The frame the processor pushes on delivery; `ec` exists only if `hasEc`. */
  datatype Frame = Frame(hasEc: bool, ec: Word, rip: Word, cs: Word, rflags: Word, rsp: Word, ss: Word)

  function Size(f: Frame): int {
    if f.hasEc then 48 else 40
  }

  /** `f` lies in memory with its last word just below `top`. */
  predicate Holds(mem: Memory, top: int, f: Frame) {
    && Load(mem, top - 8) == f.ss
    && Load(mem, top - 16) == f.rsp
    && Load(mem, top - 24) == f.rflags
    && Load(mem, top - 32) == f.cs
    && Load(mem, top - 40) == f.rip
    && (f.hasEc ==> Load(mem, top - 48) == f.ec)
  }

  /** The stack the handler is to run on: the interrupted one if it is a kernel
      stack, else the task's own kernel stack. */
  function Dest(f: Frame, sp0: Word): Word {
    if Negative(f.rsp) then f.rsp else sp0
  }

  /** What the handler is shown: a fault by an elevated task on a user address
      is dressed up as a fault from user mode. */
  function Shown(f: Frame, elevated: bool, cr2: Word): Frame {
    if f.hasEc && elevated && !Negative(cr2)
    then f.(ec := SetUserBit(f.ec), cs := USER_CS, ss := USER_SS)
    else f
  }

  /** The guard of the jump to the double-fault handler, as coded. */
  predicate TakenForDoubleFault(f: Frame, cr2: Word, sp0: Word) {
    f.hasEc && Negative(f.rsp) && Negative(cr2) && Negative(Minus(sp0, THREAD_SIZE + 0x1000))
  }

  /** The guard the comment above it describes: CR2 lies on the guard page
      just below the kernel stack. */
  predicate OnGuardPage(cr2: Word, sp0: Word) {
    cr2 - cr2 % 0x1000 == Minus(sp0, THREAD_SIZE + 0x1000)
  }

  /** Kernel code runs with the per-CPU base active; all other code runs with a
      non-negative base, and then the per-CPU base is the inactive one. */
  predicate GsSane(gs: Word, kernelGs: Word, perCpu: Word) {
    Negative(perCpu) && (if Negative(gs) then gs == perCpu else kernelGs == perCpu)
  }

  /** The ten words below `d` and the ten words below `top` do not meet. */
  predicate Apart(d: int, top: int) {
    d <= top - 0x50 || top <= d - 0x50
  }

  /** What delivery through IST7 and the two stacks must look like. */
  predicate Geometry(top: Word, f: Frame, sp0: Word) {
    && 0x1000 <= top && top % 0x1000 == 0
    && Negative(sp0)
    && !Bit29(f.rflags)
    && Apart(Dest(f, sp0), top)
  }

  predicate Delivered(s: Snapshot, top: Word, f: Frame) {
    s.regs.rsp == top - Size(f) && Holds(s.mem, top, f)
  }

  /** From `pre` to `post` the interposition was invisible: `handler` runs with
      every register but rsp and both GS bases as delivered, rsp at the start of
      frame `shown` just below the chosen stack top, and nothing else written
      but scratch words on the IST page and just below the moved frame. */
  ghost predicate Interposed(pre: Snapshot, post: Snapshot, top: Word, sp0: Word, f: Frame, shown: Frame,
                             handler: Word)
  {
    var d := Dest(f, sp0);
    && post.rip == handler
    && post.gs == pre.gs && post.kernelGs == pre.kernelGs
    && 0x50 <= d
    && post.regs == pre.regs.(rsp := d - Size(f))
    && Holds(post.mem, d, shown)
    && SameOutside2(pre.mem, post.mem, d - 0x50, d, top - 0x50, top)
  }

  /** The words below `d`, on which the handler starts.  They are those delivered,
      unless there is an error code, the task is elevated and CR2 is a user
      address: then code and stack segment are those of user mode, the error code
      has its user bit set, and all else is as delivered. */
  ghost predicate HandlerFinds(mem: Memory, d: int, f: Frame, elevated: bool, cr2: Word) {
    && Load(mem, d - 16) == f.rsp && Load(mem, d - 24) == f.rflags && Load(mem, d - 40) == f.rip
    && if !f.hasEc || !elevated || cr2 >= 0x8000_0000_0000_0000 then
         && Load(mem, d - 8) == f.ss && Load(mem, d - 32) == f.cs
         && (f.hasEc ==> Load(mem, d - 48) == f.ec)
       else
         && Load(mem, d - 8) == 0x2b && Load(mem, d - 32) == 0x33
         && var ec := Load(mem, d - 48);
         && (ec / 4) % 2 == 1 && ec % 4 == f.ec % 4 && ec / 8 == f.ec / 8
  }

  lemma ShownIsFound(mem: Memory, d: int, f: Frame, elevated: bool, cr2: Word)
    requires Holds(mem, d, Shown(f, elevated, cr2))
    ensures HandlerFinds(mem, d, f, elevated, cr2)
  {
    UserBitOnly(f.ec);
  }

  /** The double-fault handler sees the delivered state unchanged. */
  ghost predicate Untouched(pre: Snapshot, post: Snapshot, top: Word, f: Frame, handler: Word) {
    && post.rip == handler
    && post.gs == pre.gs && post.kernelGs == pre.kernelGs
    && post.regs == pre.regs
    && Holds(post.mem, top, f)
  }

  /** The frame as it stands on the IST page between `swapgs` and its undoing. */
  function Marked(f: Frame, swapped: bool): Frame {
    if swapped then f.(rflags := SetBit29(f.rflags)) else f
  }

  /** What the double-fault branch really does: `swapgs` and the mark it left in
      RFLAGS, if they were needed, stay. */
  ghost predicate SentToDoubleFault(pre: Snapshot, post: Snapshot, top: Word, f: Frame, perCpu: Word, handler: Word) {
    var swapped := !Negative(pre.gs);
    && post.rip == handler
    && post.gs == perCpu && post.kernelGs == (if swapped then pre.gs else pre.kernelGs)
    && post.regs == pre.regs
    && Holds(post.mem, top, Marked(f, swapped))
    && SameOutside(pre.mem, post.mem, top - 0x50, top)
  }

  /** So the double-fault handler sees the delivered state exactly if the kernel's
      GS base was active already. */
  lemma UntouchedIff(pre: Snapshot, post: Snapshot, top: Word, f: Frame, perCpu: Word, handler: Word)
    requires GsSane(pre.gs, pre.kernelGs, perCpu) && !Bit29(f.rflags)
    requires SentToDoubleFault(pre, post, top, f, perCpu, handler)
    ensures Untouched(pre, post, top, f, handler) <==> Negative(pre.gs)
  {
  }

  /** `ef_isr(v)`: push the original handler of vector `v` as a return address. */
  method Stub(cpu: Cpu, origIsrs: seq<Word>, v: nat)
    requires v < |origIsrs| && 16 <= cpu.regs.rsp
    modifies cpu`regs, cpu`mem
    ensures cpu.regs == old(cpu.regs).(rsp := old(cpu.regs.rsp) - 8)
    ensures Load(cpu.mem, cpu.regs.rsp) == origIsrs[v]
    ensures SameOutside(old(cpu.mem), cpu.mem, old(cpu.regs.rsp) - 16, old(cpu.regs.rsp))
  {
    cpu.regs := cpu.regs.(rsp := Minus(cpu.regs.rsp, 8));
    cpu.Push(cpu.regs.rdi);
    cpu.regs := cpu.regs.(rdi := origIsrs[v]);
    cpu.mem := cpu.mem[Plus(cpu.regs.rsp, 8) := cpu.regs.rdi];
    var w := cpu.Pop();
    cpu.regs := cpu.regs.(rdi := w);
  }

  /** The tail shared by both trampolines: restore the three spilled registers
      from the new stack and return into the handler.  The sanity checks before
      the final `retq` all fall through to it. */
  method Unspill(cpu: Cpu)
    requires cpu.regs.rsp + 0x20 < TWO64
    modifies cpu`regs, cpu`rip
    ensures cpu.rip == At(cpu.mem, old(cpu.regs.rsp), 3)
    ensures cpu.regs == old(cpu.regs).(rcx := At(cpu.mem, old(cpu.regs.rsp), 0),
                                       rsi := At(cpu.mem, old(cpu.regs.rsp), 1),
                                       rdi := At(cpu.mem, old(cpu.regs.rsp), 2),
                                       rsp := old(cpu.regs.rsp) + 0x20)
  {
    var w := cpu.Pop();
    cpu.regs := cpu.regs.(rcx := w);
    w := cpu.Pop();
    cpu.regs := cpu.regs.(rsi := w);
    w := cpu.Pop();
    cpu.regs := cpu.regs.(rdi := w);
    cpu.Ret();
  }

  /** `subq/movq/movq/rep movsq/lea`: copy `n` words from the IST page to just
      below `rdi`, and switch to the copy. */
  method CopyFrame(cpu: Cpu, n: Word)
    requires !cpu.dirDown && n <= 10
    requires 8 * n <= cpu.regs.rdi && cpu.regs.rsp + 8 * n < TWO64
    requires cpu.regs.rdi <= cpu.regs.rsp || cpu.regs.rsp + 8 * n <= cpu.regs.rdi - 8 * n
    modifies cpu`regs, cpu`mem
    ensures var d := old(cpu.regs.rdi) - 8 * n;
            && cpu.regs == old(cpu.regs).(rsp := d, rcx := cpu.regs.rcx, rsi := cpu.regs.rsi, rdi := cpu.regs.rdi)
            && (forall i :: 0 <= i < n ==> At(cpu.mem, d, i) == At(old(cpu.mem), old(cpu.regs.rsp), i))
            && SameOutside(old(cpu.mem), cpu.mem, d, old(cpu.regs.rdi))
  {
    cpu.regs := cpu.regs.(rdi := Minus(cpu.regs.rdi, 8 * n));
    cpu.regs := cpu.regs.(rsi := cpu.regs.rsp);
    cpu.regs := cpu.regs.(rcx := n);
    cpu.RepMovsq();
    cpu.regs := cpu.regs.(rsp := Minus(cpu.regs.rdi, 8 * n));
  }

  /** The ten (or nine) words at the bottom of the IST stack once rdi, rsi and
      rcx are spilled below the return address. */
  predicate Spilled(mem: Memory, s: int, regs: Regs, handler: Word, f: Frame) {
    && At(mem, s, 0) == regs.rcx && At(mem, s, 1) == regs.rsi && At(mem, s, 2) == regs.rdi
    && At(mem, s, 3) == handler
    && Holds(mem, s + 0x20 + Size(f), f)
  }

  lemma SpilledWords(mem: Memory, s: int, regs: Regs, handler: Word, f: Frame)
    requires Spilled(mem, s, regs, handler, f)
    ensures f.hasEc ==>
              && At(mem, s, 4) == f.ec && At(mem, s, 5) == f.rip && At(mem, s, 6) == f.cs
              && At(mem, s, 7) == f.rflags && At(mem, s, 8) == f.rsp && At(mem, s, 9) == f.ss
    ensures !f.hasEc ==>
              && At(mem, s, 4) == f.rip && At(mem, s, 5) == f.cs && At(mem, s, 6) == f.rflags
              && At(mem, s, 7) == f.rsp && At(mem, s, 8) == f.ss
  {
  }

  /** A word-for-word copy of the spilled area is a spilled area. */
  lemma CopiedSpill(m: Memory, m': Memory, s: int, d: int, regs: Regs, handler: Word, f: Frame)
    requires Spilled(m, s, regs, handler, f)
    requires forall i :: 0 <= i < 4 + Size(f) / 8 ==> At(m', d, i) == At(m, s, i)
    ensures Spilled(m', d, regs, handler, f)
  {
    SpilledWords(m, s, regs, handler, f);
    assert At(m', d, 0) == At(m, s, 0) && At(m', d, 1) == At(m, s, 1) && At(m', d, 2) == At(m, s, 2);
    assert At(m', d, 3) == At(m, s, 3) && At(m', d, 4) == At(m, s, 4) && At(m', d, 5) == At(m, s, 5);
    assert At(m', d, 6) == At(m, s, 6) && At(m', d, 7) == At(m, s, 7) && At(m', d, 8) == At(m, s, 8);
    if f.hasEc {
      assert At(m', d, 9) == At(m, s, 9);
    }
  }

  /** Both trampolines begin by spilling rdi, rsi and rcx, and fetching the
      interrupted stack pointer, `rspAt` bytes above the spilled rdi. */
  method Spill(cpu: Cpu, rspAt: Word, ghost top: Word, ghost f: Frame, ghost handler: Word)
    requires 0x1000 <= top && rspAt == Size(f)
    requires cpu.regs.rsp == top - Size(f) - 8 && Holds(cpu.mem, top, f) && Load(cpu.mem, cpu.regs.rsp) == handler
    modifies cpu`regs, cpu`mem
    ensures cpu.regs == old(cpu.regs).(rsp := top - Size(f) - 32, rdi := f.rsp)
    ensures Spilled(cpu.mem, top - Size(f) - 32, old(cpu.regs), handler, f)
    ensures SameOutside(old(cpu.mem), cpu.mem, top - 0x50, top)
  {
    cpu.Push(cpu.regs.rdi);
    cpu.regs := cpu.regs.(rdi := Load(cpu.mem, cpu.regs.rsp + rspAt));
    cpu.Push(cpu.regs.rsi);
    cpu.Push(cpu.regs.rcx);
  }

  /** The stack choice of the trampoline without error code. */
  method ChooseNoErrCode(cpu: Cpu, ghost f: Frame)
    requires GsSane(cpu.gs, cpu.kernelGs, cpu.perCpu)
    requires cpu.regs.rdi == f.rsp
    modifies cpu`regs, cpu`gs, cpu`kernelGs
    ensures cpu.regs == old(cpu.regs).(rdi := Dest(f, cpu.sp0))
    ensures cpu.gs == old(cpu.gs) && cpu.kernelGs == old(cpu.kernelGs)
  {
    if !Negative(cpu.regs.rdi) {
      cpu.regs := cpu.regs.(rdi := cpu.gs);
      if !Negative(cpu.regs.rdi) {
        cpu.SwapGs();
        var sp0 := cpu.ReadSp0();
        cpu.regs := cpu.regs.(rdi := sp0);
        cpu.SwapGs();
      } else {
        var sp0 := cpu.ReadSp0();
        cpu.regs := cpu.regs.(rdi := sp0);
      }
    }
  }

  /** `pf_adaptor_asm_fix_ist_no_err_code`. */
  method FixIstNoErrCode(cpu: Cpu, ghost top: Word, ghost f: Frame, ghost handler: Word)
    requires !f.hasEc && Geometry(top, f, cpu.sp0) && GsSane(cpu.gs, cpu.kernelGs, cpu.perCpu)
    requires cpu.regs.rsp == top - 48 && Holds(cpu.mem, top, f) && Load(cpu.mem, cpu.regs.rsp) == handler
    requires !cpu.dirDown
    modifies cpu`regs, cpu`rip, cpu`gs, cpu`kernelGs, cpu`mem
    ensures cpu.rip == handler && cpu.gs == old(cpu.gs) && cpu.kernelGs == old(cpu.kernelGs)
    ensures var d := Dest(f, cpu.sp0);
            && cpu.regs == old(cpu.regs).(rsp := Minus(d, 40))
            && Holds(cpu.mem, d, f)
            && SameOutside2(old(cpu.mem), cpu.mem, d - 0x50, d, top - 0x50, top)
  {
    Spill(cpu, 0x28, top, f, handler);
    ChooseNoErrCode(cpu, f);
    ghost var m, d := cpu.mem, Dest(f, cpu.sp0);
    CopyFrame(cpu, 9);
    CopiedSpill(m, cpu.mem, top - 72, d - 72, old(cpu.regs), handler, f);
    Unspill(cpu);
  }

  /** The mark is bit 29 alone, and it can be taken back. */
  lemma MarkIsReversible(w: Word)
    requires !Bit29(w)
    ensures Bit29(SetBit29(w)) && ClearBit29(SetBit29(w)) == w
    ensures SetBit29(w) == w + 0x2000_0000 && (SetBit29(w) / 0x2000_0000) % 2 == 1
  {
  }

  /** Undo `swapgs` if the copied RFLAGS say it was done, and clear the mark. */
  method UnmarkSwap(cpu: Cpu, ghost regs: Regs, ghost f: Frame, ghost swapped: bool, ghost handler: Word)
    requires f.hasEc && !Bit29(f.rflags) && cpu.regs.rsp + 0x50 < TWO64
    requires Spilled(cpu.mem, cpu.regs.rsp, regs, handler, Marked(f, swapped))
    modifies cpu`gs, cpu`kernelGs, cpu`mem
    ensures if swapped then cpu.gs == old(cpu.kernelGs) && cpu.kernelGs == old(cpu.gs)
            else cpu.gs == old(cpu.gs) && cpu.kernelGs == old(cpu.kernelGs)
    ensures Spilled(cpu.mem, cpu.regs.rsp, regs, handler, f)
    ensures SameOutside(old(cpu.mem), cpu.mem, cpu.regs.rsp, cpu.regs.rsp + 0x50)
  {
    var a := Plus(cpu.regs.rsp, 0x38);
    MarkIsReversible(f.rflags);
    if Bit29(Load(cpu.mem, a)) {
      cpu.SwapGs();
      cpu.mem := cpu.mem[a := ClearBit29(Load(cpu.mem, a))];
    }
  }

  /** Make the per-CPU base active, marking RFLAGS if that took a `swapgs`. */
  method ActivateKernelGs(cpu: Cpu, ghost regs: Regs, ghost f: Frame, ghost handler: Word)
    requires f.hasEc && GsSane(cpu.gs, cpu.kernelGs, cpu.perCpu)
    requires cpu.regs.rsp + 0x50 < TWO64
    requires Spilled(cpu.mem, cpu.regs.rsp, regs, handler, f)
    modifies cpu`regs, cpu`gs, cpu`kernelGs, cpu`mem
    ensures cpu.regs == old(cpu.regs).(rcx := cpu.regs.rcx)
    ensures cpu.gs == cpu.perCpu
    ensures cpu.kernelGs == (if Negative(old(cpu.gs)) then old(cpu.kernelGs) else old(cpu.gs))
    ensures Spilled(cpu.mem, cpu.regs.rsp, regs, handler, Marked(f, !Negative(old(cpu.gs))))
    ensures SameOutside(old(cpu.mem), cpu.mem, cpu.regs.rsp, cpu.regs.rsp + 0x50)
  {
    cpu.regs := cpu.regs.(rcx := cpu.gs);
    if !Negative(cpu.regs.rcx) {
      cpu.SwapGs();
      var a := cpu.regs.rsp + 0x38;
      cpu.mem := cpu.mem[a := SetBit29(Load(cpu.mem, a))];
    }
  }

  /** Dress the frame up if the task is elevated and CR2 is a user address. */
  method RewriteFrame(cpu: Cpu, ghost top: Word, ghost regs: Regs, ghost f: Frame, ghost handler: Word)
    requires f.hasEc && 0x1000 <= top
    requires cpu.regs.rsp == top - 80 && cpu.gs == cpu.perCpu
    requires Spilled(cpu.mem, top - 80, regs, handler, f)
    modifies cpu`regs, cpu`mem
    ensures cpu.regs == old(cpu.regs).(rsi := cpu.regs.rsi, rcx := cpu.regs.rcx)
    ensures Spilled(cpu.mem, top - 80, regs, handler, Shown(f, cpu.elevated, cpu.cr2))
    ensures SameOutside(old(cpu.mem), cpu.mem, top - 0x50, top)
  {
    var e := cpu.ReadElevated();
    if e {
      cpu.regs := cpu.regs.(rcx := cpu.cr2);
      if !Negative(cpu.regs.rcx) {
        var s := cpu.regs.rsp;
        cpu.mem := cpu.mem[s + 0x20 := SetUserBit(Load(cpu.mem, s + 0x20))];
        cpu.mem := cpu.mem[s + 0x30 := USER_CS];
        cpu.mem := cpu.mem[s + 0x48 := USER_SS];
      }
    }
  }

  /** Leave through the double-fault handler: drop what was spilled and jump. */
  method JumpToDoubleFault(cpu: Cpu, dfHandler: Word, ghost regs: Regs, ghost f: Frame, ghost handler: Word)
    requires f.hasEc && cpu.regs.rsp + 0x50 < TWO64
    requires Spilled(cpu.mem, cpu.regs.rsp, regs, handler, f)
    modifies cpu`regs, cpu`rip
    ensures cpu.rip == dfHandler
    ensures cpu.regs == old(cpu.regs).(rsp := old(cpu.regs.rsp) + 0x20,
                                       rcx := regs.rcx, rsi := regs.rsi, rdi := regs.rdi)
  {
    var w := cpu.Pop();
    cpu.regs := cpu.regs.(rcx := w);
    w := cpu.Pop();
    cpu.regs := cpu.regs.(rsi := w);
    w := cpu.Pop();
    cpu.regs := cpu.regs.(rdi := w);
    cpu.regs := cpu.regs.(rsp := Plus(cpu.regs.rsp, 8));
    cpu.rip := dfHandler;
  }

  /** The copy of the frame and the way out, once the stack is chosen. */
  method MoveErrCode(cpu: Cpu, ghost top: Word, ghost regs: Regs, ghost f: Frame, ghost swapped: bool,
                     ghost handler: Word)
    requires f.hasEc && 0x1000 <= top && !cpu.dirDown && !Bit29(f.rflags)
    requires cpu.regs.rsp == top - 80 && Negative(cpu.regs.rdi)
    requires Apart(cpu.regs.rdi, top)
    requires Spilled(cpu.mem, top - 80, regs, handler, Marked(f, swapped))
    modifies cpu`regs, cpu`rip, cpu`gs, cpu`kernelGs, cpu`mem
    ensures cpu.rip == handler
    ensures if swapped then cpu.gs == old(cpu.kernelGs) && cpu.kernelGs == old(cpu.gs)
            else cpu.gs == old(cpu.gs) && cpu.kernelGs == old(cpu.kernelGs)
    ensures var d := old(cpu.regs.rdi);
            && cpu.regs == old(cpu.regs).(rsp := d - 48, rcx := regs.rcx, rsi := regs.rsi, rdi := regs.rdi)
            && Holds(cpu.mem, d, f)
            && SameOutside(old(cpu.mem), cpu.mem, d - 0x50, d)
  {
    ghost var m, d, g := cpu.mem, cpu.regs.rdi, Marked(f, swapped);
    CopyFrame(cpu, 10);
    CopiedSpill(m, cpu.mem, top - 80, d - 80, regs, handler, g);
    UnmarkSwap(cpu, regs, f, swapped, handler);
    Unspill(cpu);
  }

  /** The stack choice of the trampoline with error code, and the test that
      sends some faults to the double-fault handler instead. */
  method ChooseErrCode(cpu: Cpu, ghost f: Frame) returns (doubleFault: bool)
    requires f.hasEc && cpu.gs == cpu.perCpu && cpu.regs.rdi == f.rsp
    modifies cpu`regs
    ensures doubleFault == TakenForDoubleFault(f, cpu.cr2, cpu.sp0)
    ensures cpu.regs == old(cpu.regs).(rsi := cpu.regs.rsi, rcx := cpu.regs.rcx, rdi := Dest(f, cpu.sp0))
  {
    doubleFault := false;
    if Negative(cpu.regs.rdi) {
      var sp0 := cpu.ReadSp0();
      cpu.regs := cpu.regs.(rsi := Minus(sp0, THREAD_SIZE + 0x1000));
      cpu.regs := cpu.regs.(rcx := cpu.cr2);
      cpu.regs := cpu.regs.(rcx := cpu.regs.rcx - cpu.regs.rcx % 0x1000);
      // testq %rcx, %rsi; jns: the sign flag is the conjunction of both signs
      doubleFault := Negative(cpu.regs.rcx) && Negative(cpu.regs.rsi);
    } else {
      var sp0 := cpu.ReadSp0();
      cpu.regs := cpu.regs.(rdi := sp0);
    }
  }

  /** The rest of `pf_adaptor_asm_fix_ist_err_code` once the frame is spilled:
      rewrite, copy, undo `swapgs`, return into the handler. */
  method FinishErrCode(cpu: Cpu, ghost top: Word, ghost regs: Regs, ghost f: Frame, ghost swapped: bool,
                       ghost handler: Word)
    requires f.hasEc && Geometry(top, f, cpu.sp0) && !cpu.dirDown
    requires cpu.regs.rsp == top - 80 && cpu.gs == cpu.perCpu && cpu.regs.rdi == Dest(f, cpu.sp0)
    requires Spilled(cpu.mem, top - 80, regs, handler, Marked(f, swapped))
    modifies cpu`regs, cpu`rip, cpu`gs, cpu`kernelGs, cpu`mem
    ensures cpu.rip == handler
    ensures if swapped then cpu.gs == old(cpu.kernelGs) && cpu.kernelGs == old(cpu.gs)
            else cpu.gs == old(cpu.gs) && cpu.kernelGs == old(cpu.kernelGs)
    ensures var d := Dest(f, cpu.sp0);
            && cpu.regs == old(cpu.regs).(rsp := Minus(d, 48), rcx := regs.rcx, rsi := regs.rsi, rdi := regs.rdi)
            && Holds(cpu.mem, d, Shown(f, cpu.elevated, cpu.cr2))
            && SameOutside2(old(cpu.mem), cpu.mem, d - 0x50, d, top - 0x50, top)
  {
    RewriteFrame(cpu, top, regs, Marked(f, swapped), handler);
    ghost var g := Shown(f, cpu.elevated, cpu.cr2);
    assert Marked(g, swapped) == Shown(Marked(f, swapped), cpu.elevated, cpu.cr2);
    MoveErrCode(cpu, top, regs, g, swapped, handler);
  }

  /** `pf_adaptor_asm_fix_ist_err_code` past its parity test. */
  method FixIstErrCode(cpu: Cpu, dfHandler: Word, ghost top: Word, ghost f: Frame, ghost handler: Word)
    requires f.hasEc && Geometry(top, f, cpu.sp0) && GsSane(cpu.gs, cpu.kernelGs, cpu.perCpu) && !cpu.dirDown
    requires cpu.regs.rsp == top - 56 && Holds(cpu.mem, top, f) && Load(cpu.mem, cpu.regs.rsp) == handler
    modifies cpu`regs, cpu`rip, cpu`gs, cpu`kernelGs, cpu`mem
    ensures !TakenForDoubleFault(f, cpu.cr2, cpu.sp0) ==>
              && cpu.rip == handler && cpu.gs == old(cpu.gs) && cpu.kernelGs == old(cpu.kernelGs)
              && var d := Dest(f, cpu.sp0);
              && cpu.regs == old(cpu.regs).(rsp := Minus(d, 48))
              && Holds(cpu.mem, d, Shown(f, cpu.elevated, cpu.cr2))
              && SameOutside2(old(cpu.mem), cpu.mem, d - 0x50, d, top - 0x50, top)
    ensures TakenForDoubleFault(f, cpu.cr2, cpu.sp0) ==>
              && cpu.rip == dfHandler
              && cpu.regs == old(cpu.regs).(rsp := top - 48)
              && Holds(cpu.mem, top, Marked(f, !Negative(old(cpu.gs))))
              && cpu.gs == cpu.perCpu
              && cpu.kernelGs == (if Negative(old(cpu.gs)) then old(cpu.kernelGs) else old(cpu.gs))
              && SameOutside(old(cpu.mem), cpu.mem, top - 0x50, top)
  {
    ghost var swapped := !Negative(cpu.gs);
    Spill(cpu, 0x30, top, f, handler);
    ActivateKernelGs(cpu, old(cpu.regs), f, handler);
    var doubleFault := ChooseErrCode(cpu, f);
    if doubleFault {
      JumpToDoubleFault(cpu, dfHandler, old(cpu.regs), Marked(f, swapped), handler);
    } else {
      FinishErrCode(cpu, top, old(cpu.regs), f, swapped, handler);
    }
  }

  /** Delivery below a page boundary leaves the stub an even number of words down
      exactly if there is no error code. */
  lemma ParityTellsErrorCode(top: int, f: Frame)
    requires top % 0x1000 == 0
    ensures ((top - Size(f) - 8) / 8) % 2 == 0 <==> !f.hasEc
  {
    var k := top / 0x1000;
    assert top == 0x1000 * k;
    assert (0x1000 * k - 48) / 8 == 2 * (0x100 * k - 3);
    assert (0x1000 * k - 56) / 8 == 2 * (0x100 * k - 4) + 1;
  }

  /** The entry point of every stub.  Whether the processor pushed an error
      code is read off the parity of the stack pointer. */
  method FixIst(cpu: Cpu, dfHandler: Word, ghost top: Word, ghost f: Frame, ghost handler: Word)
    requires Geometry(top, f, cpu.sp0) && GsSane(cpu.gs, cpu.kernelGs, cpu.perCpu)
    requires cpu.regs.rsp == top - Size(f) - 8 && Holds(cpu.mem, top, f) && Load(cpu.mem, cpu.regs.rsp) == handler
    modifies cpu`regs, cpu`rip, cpu`gs, cpu`kernelGs, cpu`mem, cpu`dirDown
    ensures !TakenForDoubleFault(f, cpu.cr2, cpu.sp0) ==>
              && cpu.rip == handler && cpu.gs == old(cpu.gs) && cpu.kernelGs == old(cpu.kernelGs)
              && var d := Dest(f, cpu.sp0);
              && cpu.regs == old(cpu.regs).(rsp := Minus(d, Size(f)))
              && Holds(cpu.mem, d, Shown(f, cpu.elevated, cpu.cr2))
              && SameOutside2(old(cpu.mem), cpu.mem, d - 0x50, d, top - 0x50, top)
    ensures TakenForDoubleFault(f, cpu.cr2, cpu.sp0) ==>
              && cpu.rip == dfHandler
              && cpu.regs == old(cpu.regs).(rsp := top - 48)
              && Holds(cpu.mem, top, Marked(f, !Negative(old(cpu.gs))))
              && cpu.gs == cpu.perCpu
              && cpu.kernelGs == (if Negative(old(cpu.gs)) then old(cpu.kernelGs) else old(cpu.gs))
              && SameOutside(old(cpu.mem), cpu.mem, top - 0x50, top)
  {
    cpu.dirDown := false;
    ParityTellsErrorCode(top, f);
    if (cpu.regs.rsp / 8) % 2 == 0 {
      FixIstNoErrCode(cpu, top, f, handler);
    } else {
      FixIstErrCode(cpu, dfHandler, top, f, handler);
    }
  }

  /** Stub `v` followed by the trampoline, from the state delivery leaves. */
  method TakeException(cpu: Cpu, origIsrs: seq<Word>, v: nat, dfHandler: Word, ghost top: Word, ghost f: Frame)
    requires v < |origIsrs|
    requires Geometry(top, f, cpu.sp0) && GsSane(cpu.gs, cpu.kernelGs, cpu.perCpu)
    requires Delivered(cpu.View(), top, f)
    modifies cpu`regs, cpu`rip, cpu`gs, cpu`kernelGs, cpu`mem, cpu`dirDown
    ensures !TakenForDoubleFault(f, cpu.cr2, cpu.sp0) ==>
              && Interposed(old(cpu.View()), cpu.View(), top, cpu.sp0, f, Shown(f, cpu.elevated, cpu.cr2), origIsrs[v])
              && var d := if f.rsp >= 0x8000_0000_0000_0000 then f.rsp else cpu.sp0;
              && cpu.regs.rsp == d - (if f.hasEc then 48 else 40)
              && HandlerFinds(cpu.mem, d, f, cpu.elevated, cpu.cr2)
    ensures TakenForDoubleFault(f, cpu.cr2, cpu.sp0) ==>
              && SentToDoubleFault(old(cpu.View()), cpu.View(), top, f, cpu.perCpu, dfHandler)
              && (Untouched(old(cpu.View()), cpu.View(), top, f, dfHandler) <==> Negative(old(cpu.gs)))
  {
    Stub(cpu, origIsrs, v);
    FixIst(cpu, dfHandler, top, f, origIsrs[v]);
    if !TakenForDoubleFault(f, cpu.cr2, cpu.sp0) {
      ShownIsFound(cpu.mem, Dest(f, cpu.sp0), f, cpu.elevated, cpu.cr2);
    }
  }

  /** The five words every delivery pushes on the stack that ends at `top`. */
  method PushFive(cpu: Cpu, top: Word, f: Frame)
    requires 0x1000 <= top
    modifies cpu`regs, cpu`mem
    ensures Holds(cpu.mem, top, f.(hasEc := false))
    ensures cpu.regs == old(cpu.regs).(rsp := top - 40)
    ensures SameOutside(old(cpu.mem), cpu.mem, top - 40, top)
  {
    cpu.regs := cpu.regs.(rsp := top);
    cpu.Push(f.ss);
    cpu.Push(f.rsp);
    cpu.Push(f.rflags);
    cpu.Push(f.cs);
    cpu.Push(f.rip);
  }

  /** The processor's own delivery through a gate whose IST field is 7. */
  method Deliver(cpu: Cpu, top: Word, f: Frame)
    requires 0x1000 <= top
    requires f.rsp == cpu.regs.rsp
    modifies cpu`regs, cpu`mem
    ensures Delivered(cpu.View(), top, f)
    ensures cpu.regs == old(cpu.regs).(rsp := top - Size(f))
    ensures SameOutside(old(cpu.mem), cpu.mem, top - 0x30, top)
  {
    PushFive(cpu, top, f);
    if f.hasEc {
      cpu.Push(f.ec);
    }
  }

  /** The coded guard is about signs only, whatever the stack. */
  lemma DoubleFaultGuardIsASignTest(f: Frame, cr2: Word, sp0: Word)
    ensures TakenForDoubleFault(f, cr2, sp0) <==>
            && f.hasEc && f.rsp >= 0x8000_0000_0000_0000 && cr2 >= 0x8000_0000_0000_0000
            && (sp0 >= 0x8000_0000_0000_5000 || sp0 < 0x5000)
  {
  }

  /** The coded guard and the one its comment describes agree exactly when an
      error-code exception from a kernel stack finds in CR2 either a user
      address or one on the guard page, the fifth page below the stack's top. */
  lemma DoubleFaultGuardAgreement(f: Frame, cr2: Word, sp0: Word)
    requires sp0 >= 0x8000_0000_0000_5000 && sp0 % 0x1000 == 0
    requires f.hasEc && Negative(f.rsp)
    ensures OnGuardPage(cr2, sp0) <==> sp0 - 0x5000 <= cr2 < sp0 - 0x4000
    ensures TakenForDoubleFault(f, cr2, sp0) == OnGuardPage(cr2, sp0) <==>
            cr2 < 0x8000_0000_0000_0000 || OnGuardPage(cr2, sp0)
  {
    var page := cr2 - cr2 % 0x1000;
    assert page <= cr2 < page + 0x1000 && page % 0x1000 == 0;
    assert (sp0 - 0x5000) % 0x1000 == 0;
  }

  /** A stack pointer of the kernel's own, four pages below whose top the guard
      page begins, and an address left in CR2 by an older fault elsewhere. */
  const SomeSp0: Word := 0xffff_c900_0000_4000
  const StaleCr2: Word := 0xffff_8880_0000_0000
  const SomePerCpu: Word := 0xffff_8881_0000_0000
  const UserGs: Word := 0x7f00_0000_0000
  const SomeTop: Word := 0xffff_c900_0010_0000
  const KernelGp := Frame(true, 0, 0xffff_ffff_8100_0000, 0x10, 2, SomeSp0 - 0x100, 0x18)

  /** A general-protection fault in the kernel with a stale kernel address in
      CR2 is sent to the double-fault handler. */
  lemma StaleCr2GoesToDoubleFault()
    ensures TakenForDoubleFault(KernelGp, StaleCr2, SomeSp0) && !OnGuardPage(StaleCr2, SomeSp0)
  {
  }

  /** If that fault comes after the kernel's own `swapgs` on its way out (say, of
      its `iretq`), the handler cannot see the delivered state: whatever the
      registers and memory, the GS bases are exchanged. */
  lemma SwapgsIsLost(pre: Snapshot, post: Snapshot, handler: Word)
    requires pre.gs == UserGs && pre.kernelGs == SomePerCpu
    requires SentToDoubleFault(pre, post, SomeTop, KernelGp, SomePerCpu, handler)
    ensures Geometry(SomeTop, KernelGp, SomeSp0) && GsSane(pre.gs, pre.kernelGs, SomePerCpu)
    ensures TakenForDoubleFault(KernelGp, StaleCr2, SomeSp0)
    ensures !Untouched(pre, post, SomeTop, KernelGp, handler)
    ensures post.gs == pre.kernelGs && post.kernelGs == pre.gs
  {
    StaleCr2GoesToDoubleFault();
    UntouchedIff(pre, post, SomeTop, KernelGp, SomePerCpu, handler);
  }

  /** The same as a run: delivery, stub and trampoline on that input. */
  method SwapgsIsLostInRun(regs: Regs, origIsrs: seq<Word>, v: nat, dfHandler: Word) returns (cpu: Cpu)
    requires v < |origIsrs|
    ensures cpu.rip == dfHandler && cpu.gs == SomePerCpu && cpu.kernelGs == UserGs
    ensures cpu.regs == regs.(rsp := SomeTop - 48) && Load(cpu.mem, SomeTop - 24) == 0x2000_0002
    ensures Holds(cpu.mem, SomeTop, Marked(KernelGp, true))
  {
    cpu := new Cpu(regs.(rsp := SomeSp0 - 0x100), UserGs, SomePerCpu, StaleCr2, SomePerCpu, SomeSp0, false);
    Deliver(cpu, SomeTop, KernelGp);
    StaleCr2GoesToDoubleFault();
    TakeException(cpu, origIsrs, v, dfHandler, SomeTop, KernelGp);
  }
}
