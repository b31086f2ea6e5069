/** The two halves together: an exception on a redirected vector, from the gate
    in the CPU's table to the original handler. */
module Dispatch {
  import opened Machine
  import opened Idt
  import opened EfAdaptor
  import opened Trampoline

  /** CPU `c`, whose processor state is `cpu`, takes exception `v` while the
      gates are as some history of `ef_adaptor_init` calls left them.  Outside
      the double-fault branch the handler the kernel first installed for `v`
      starts, and cannot tell that the frame took the detour over another stack. */
  method DispatchException(a: Adaptor, cpu: Cpu, c: nat, v: nat, f: Frame, dfHandler: Word, ghost orig: Table)
    requires a.Valid() && c < |a.tss| && v < IDT_ENTRIES
    requires Kept(orig, a.State(), a.stubs) && a.StacksReady()
    requires orig[v] != a.pages.Active()[v]
    requires f.rsp == cpu.regs.rsp && Negative(cpu.sp0) && !Bit29(f.rflags)
    requires Apart(Dest(f, cpu.sp0), a.tss[c][6])
    requires GsSane(cpu.gs, cpu.kernelGs, cpu.perCpu)
    modifies cpu`regs, cpu`rip, cpu`gs, cpu`kernelGs, cpu`mem, cpu`dirDown
    ensures !TakenForDoubleFault(f, cpu.cr2, cpu.sp0) ==>
              var d := if f.rsp >= 0x8000_0000_0000_0000 then f.rsp else cpu.sp0;
              && cpu.rip == GateOffset(orig[v])
              && cpu.gs == old(cpu.gs) && cpu.kernelGs == old(cpu.kernelGs)
              && cpu.regs == old(cpu.regs).(rsp := cpu.regs.rsp) && cpu.regs.rsp == d - (if f.hasEc then 48 else 40)
              && HandlerFinds(cpu.mem, d, f, cpu.elevated, cpu.cr2)
  {
    var gate := a.pages.tables[a.pages.idtr[c]][v];
    assert VectorKept(orig, a.State(), a.stubs, v);
    OffsetRoundTrip(orig[v].(ist := IST_INDEX_EF + 1), StubAddr(a.stubs, v));
    // the processor takes the stack the gate names and enters the stub its offset points at
    var top := a.tss[c][gate.ist - 1];
    var u := (GateOffset(gate) - a.stubs) / ISR_LEN;
    Deliver(cpu, top, f);
    TakeException(cpu, a.origIsrs, u, dfHandler, top, f);
  }
}
