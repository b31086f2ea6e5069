/** Nested exceptions.  Every delivery reuses the same IST page, yet no outer
    frame, and nothing on an interrupted kernel stack, is ever disturbed. */
module Nesting {
  import opened Machine
  import opened Trampoline

  /** One kernel stack [lo, sp0) and the IST page below `ist`. */
  datatype Layout = Layout(lo: Word, sp0: Word, ist: Word)

  predicate Sound(l: Layout) {
    && Negative(l.lo) && l.lo <= l.sp0
    && 0x1000 <= l.ist && l.ist % 0x1000 == 0
    && (l.ist <= l.lo || l.sp0 <= l.ist - 0x50)
  }

  /** A frame whose handler has not returned: what was shown to the handler,
      where, and the memory at the moment of the exception. */
  datatype Live = Live(shown: Frame, top: int, before: Memory)

  datatype System = System(mem: Memory, rsp: Word, live: seq<Live>)

  /** Base of the innermost live frame: its handler must stay below it. */
  function Limit(l: Layout, live: seq<Live>): int {
    if live == [] then l.sp0 else live[|live| - 1].top - Size(live[|live| - 1].shown)
  }

  /** Handlers run on the kernel stack below their entry rsp; with no handler
      active, user code may be running. */
  predicate Placed(l: Layout, rsp: Word, live: seq<Live>) {
    (live == [] && !Negative(rsp)) || l.lo <= rsp <= Limit(l, live)
  }

  datatype Event =
    | Fault(frame: Frame, elevated: bool, cr2: Word, handler: Word, delivered: Snapshot, entered: Snapshot)
    | Code(mem: Memory, rsp: Word)
    | Iret

  ghost predicate SameOn(m: Memory, m': Memory, lo: int, hi: int) {
    forall a :: lo <= a < hi ==> Load(m', a) == Load(m, a)
  }

  /** What each event may be.  A fault is a hardware delivery on the IST page
      followed by a run of the trampoline outside its double-fault branch. */
  ghost predicate Allowed(l: Layout, s: System, e: Event) {
    match e
    case Fault(f, elevated, cr2, handler, delivered, entered) =>
      && f.rsp == s.rsp && Geometry(l.ist, f, l.sp0)
      && l.lo <= Dest(f, l.sp0) - 0x50
      && Delivered(delivered, l.ist, f) && SameOutside(s.mem, delivered.mem, l.ist - 0x30, l.ist)
      && !TakenForDoubleFault(f, cr2, l.sp0)
      && Interposed(delivered, entered, l.ist, l.sp0, f, Shown(f, elevated, cr2), handler)
    case Code(mem, rsp) =>
      && Placed(l, rsp, s.live)
      && (s.live != [] ==> SameOn(s.mem, mem, Limit(l, s.live), l.sp0))
    case Iret =>
      s.live != [] && s.rsp == Limit(l, s.live)
  }

  function Next(l: Layout, s: System, e: Event): System
  {
    match e
    case Fault(f, elevated, cr2, _, _, entered) =>
      System(entered.mem, entered.regs.rsp, s.live + [Live(Shown(f, elevated, cr2), Dest(f, l.sp0), s.mem)])
    case Code(mem, rsp) => System(mem, rsp, s.live)
    case Iret =>
      if s.live == [] then s
      else System(s.mem, Load(s.mem, s.live[|s.live| - 1].top - 16), s.live[..|s.live| - 1])
  }

  ghost predicate Run(l: Layout, s: System, es: seq<Event>)
    decreases |es|
  {
    es == [] || (Allowed(l, s, es[0]) && Run(l, Next(l, s, es[0]), es[1..]))
  }

  function After(l: Layout, s: System, es: seq<Event>): System
    decreases |es|
  {
    if es == [] then s else After(l, Next(l, s, es[0]), es[1..])
  }

  /** Live frame `i` is intact, sits within the frames around it, and so does
      everything above it that the interrupted code had on the kernel stack. */
  ghost predicate FrameSafe(l: Layout, s: System, i: nat)
    requires i < |s.live|
  {
    var x := s.live[i];
    && Holds(s.mem, x.top, x.shown)
    && l.lo <= x.top - Size(x.shown) && x.top <= Limit(l, s.live[..i])
    && (if Negative(x.shown.rsp) then x.top == x.shown.rsp else i == 0 && x.top == l.sp0)
    && SameOn(x.before, s.mem, x.top, l.sp0)
  }

  ghost predicate Safe(l: Layout, s: System) {
    && Placed(l, s.rsp, s.live)
    && forall i :: 0 <= i < |s.live| ==> FrameSafe(l, s, i)
  }

  /** Live frames are stacked downwards: an outer frame lies above an inner one. */
  lemma {:induction false} OuterAbove(l: Layout, s: System, i: nat, j: nat)
    requires Sound(l) && Safe(l, s) && i <= j <= |s.live|
    ensures Limit(l, s.live[..j]) <= Limit(l, s.live[..i]) <= l.sp0
    decreases j
  {
    if j == 0 {
    } else {
      assert s.live[..j][|s.live[..j]| - 1] == s.live[j - 1];
      assert FrameSafe(l, s, j - 1);
      if i < j {
        OuterAbove(l, s, i, j - 1);
      } else {
        OuterAbove(l, s, j - 1, j - 1);
      }
    }
  }

  /** Memory agreeing from the innermost limit up keeps every live frame safe. */
  lemma KeepsFrames(l: Layout, s: System, mem: Memory, i: nat)
    requires Sound(l) && Safe(l, s) && i < |s.live|
    requires SameOn(s.mem, mem, Limit(l, s.live), l.sp0)
    ensures FrameSafe(l, s.(mem := mem), i)
  {
    assert s.live[..|s.live|] == s.live;
    assert s.live[..i + 1][|s.live[..i + 1]| - 1] == s.live[i];
    OuterAbove(l, s, i, |s.live|);
    OuterAbove(l, s, i + 1, |s.live|);
    assert FrameSafe(l, s, i);
  }

  lemma FaultStep(l: Layout, s: System, e: Event)
    requires Sound(l) && Safe(l, s) && Allowed(l, s, e) && e.Fault?
    ensures Safe(l, Next(l, s, e))
  {
    var s' := Next(l, s, e);
    var n := |s.live|;
    var d := Dest(e.frame, l.sp0);
    assert s.live[..n] == s.live;
    OuterAbove(l, s, 0, n);
    OuterAbove(l, s, n, n);
    assert SameOn(s.mem, s'.mem, d, l.sp0);
    forall i | 0 <= i < |s'.live| ensures FrameSafe(l, s', i) {
      if i < n {
        KeepsFrames(l, s, s'.mem, i);
        assert s'.live[..i] == s.live[..i];
      } else {
        assert s'.live[..i] == s.live;
      }
    }
  }

  lemma CodeStep(l: Layout, s: System, e: Event)
    requires Sound(l) && Safe(l, s) && Allowed(l, s, e) && e.Code?
    ensures Safe(l, Next(l, s, e))
  {
    forall i | 0 <= i < |s.live| ensures FrameSafe(l, Next(l, s, e), i) {
      KeepsFrames(l, s, e.mem, i);
      assert Next(l, s, e).mem == s.(mem := e.mem).mem;
    }
  }

  lemma IretStep(l: Layout, s: System, e: Event)
    requires Sound(l) && Safe(l, s) && Allowed(l, s, e) && e.Iret?
    ensures Safe(l, Next(l, s, e))
    ensures Next(l, s, e).rsp == s.live[|s.live| - 1].shown.rsp
  {
    var s' := Next(l, s, e);
    var n := |s.live| - 1;
    assert FrameSafe(l, s, n);
    forall i | 0 <= i < n ensures FrameSafe(l, s', i) {
      assert FrameSafe(l, s, i);
      assert s'.live[..i] == s.live[..i];
    }
  }

  /** Over every run, at every depth, every live frame is intact. */
  lemma {:induction false} NestingSafety(l: Layout, s: System, es: seq<Event>)
    requires Sound(l) && Safe(l, s) && Run(l, s, es)
    ensures Safe(l, After(l, s, es))
    decreases |es|
  {
    if es == [] {
    } else {
      match es[0] {
        case Fault(_, _, _, _, _, _) => FaultStep(l, s, es[0]);
        case Code(_, _) => CodeStep(l, s, es[0]);
        case Iret => IretStep(l, s, es[0]);
      }
      NestingSafety(l, Next(l, s, es[0]), es[1..]);
    }
  }

  /** Every state of the run but the last has more than `d` live frames. */
  ghost predicate StaysAbove(l: Layout, s: System, es: seq<Event>, d: nat)
    decreases |es|
  {
    es == [] || (|s.live| > d && StaysAbove(l, Next(l, s, es[0]), es[1..], d))
  }

  lemma {:induction false} OuterFramesKept(l: Layout, s: System, es: seq<Event>, d: nat)
    requires StaysAbove(l, s, es, d) && |After(l, s, es).live| == d && d < |s.live|
    requires Sound(l) && Safe(l, s) && Run(l, s, es)
    ensures var t := After(l, s, es);
            && t.live == s.live[..d]
            && t.rsp == s.live[d].shown.rsp
            && SameOn(s.live[d].before, t.mem, s.live[d].top, l.sp0)
    decreases |es|
  {
    var s' := Next(l, s, es[0]);
    NestingSafety(l, s, [es[0]]);
    assert Run(l, s', []) && [es[0]][1..] == [] && After(l, s, [es[0]]) == s';
    if |s'.live| > d {
      OuterFramesKept(l, s', es[1..], d);
      assert s'.live[..d] == s.live[..d] && s'.live[d] == s.live[d];
    } else {
      assert FrameSafe(l, s, d);
      IretStep(l, s, es[0]);
    }
  }

  /** An exception taken at `s`, whatever nests inside it, ends where it began:
      its final `iret` resumes the interrupted code on the rsp it had, with all
      outer frames still live and its kernel stack contents unchanged. */
  lemma ExceptionIsBracketed(l: Layout, s: System, es: seq<Event>)
    requires Sound(l) && Safe(l, s) && Run(l, s, es)
    requires es != [] && es[0].Fault?
    requires StaysAbove(l, Next(l, s, es[0]), es[1..], |s.live|)
    requires |After(l, s, es).live| == |s.live|
    ensures var t := After(l, s, es);
            && t.live == s.live
            && t.rsp == s.rsp
            && SameOn(s.mem, t.mem, Dest(es[0].frame, l.sp0), l.sp0)
  {
    FaultStep(l, s, es[0]);
    OuterFramesKept(l, Next(l, s, es[0]), es[1..], |s.live|);
    assert Next(l, s, es[0]).live[..|s.live|] == s.live;
  }

  /** Hardware delivery, stub and trampoline together are one allowed `Fault`. */
  method TakeFault(cpu: Cpu, origIsrs: seq<Word>, v: nat, dfHandler: Word, l: Layout, f: Frame, ghost live: seq<Live>)
    returns (ghost e: Event)
    requires Sound(l) && cpu.sp0 == l.sp0 && v < |origIsrs|
    requires f.rsp == cpu.regs.rsp && Geometry(l.ist, f, l.sp0) && l.lo <= Dest(f, l.sp0) - 0x50
    requires GsSane(cpu.gs, cpu.kernelGs, cpu.perCpu) && !TakenForDoubleFault(f, cpu.cr2, l.sp0)
    modifies cpu`regs, cpu`rip, cpu`gs, cpu`kernelGs, cpu`mem, cpu`dirDown
    ensures e.Fault? && Allowed(l, System(old(cpu.mem), old(cpu.regs.rsp), live), e)
    ensures Next(l, System(old(cpu.mem), old(cpu.regs.rsp), live), e) ==
            System(cpu.mem, cpu.regs.rsp, live + [Live(Shown(f, cpu.elevated, cpu.cr2), Dest(f, l.sp0), old(cpu.mem))])
    ensures cpu.rip == origIsrs[v] && cpu.regs == old(cpu.regs).(rsp := cpu.regs.rsp)
  {
    Deliver(cpu, l.ist, f);
    ghost var delivered := cpu.View();
    TakeException(cpu, origIsrs, v, dfHandler, l.ist, f);
    e := Fault(f, cpu.elevated, cpu.cr2, origIsrs[v], delivered, cpu.View());
  }
}
