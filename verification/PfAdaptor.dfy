/** The three-vector installer: page fault, double fault, general protection. */
module PfAdaptor {
  import opened Machine
  import opened Idt

  const X86_TRAP_DF := 8
  const X86_TRAP_GP := 13
  const X86_TRAP_PF := 14

  /** One handler per vector: page fault, double fault, general protection. */
  datatype Handlers = Handlers(pf: Word, df: Word, gp: Word)

  datatype Outcome = Refused | Installed(table: Table, dirty: bool)

  /** One of the three gates: ours already, the expected one, or foreign. */
  function InstallOne(o: Outcome, v: nat, expected: Word, ours: Word): (o': Outcome)
    requires v < IDT_ENTRIES && (o.Installed? ==> |o.table| == IDT_ENTRIES)
    ensures o'.Installed? ==> |o'.table| == IDT_ENTRIES
  {
    if o.Refused? then o else
    var val := GateOffset(o.table[v]);
    if val == expected then Installed(o.table[v := GateSetOffset(o.table[v], ours)], true)
    else if val != ours then Refused
    else o
  }

  function Install(t: Table, expected: Handlers, ours: Handlers): (o: Outcome)
    requires |t| == IDT_ENTRIES
    ensures o.Installed? ==> |o.table| == IDT_ENTRIES
  {
    var o := InstallOne(Installed(t, false), X86_TRAP_PF, expected.pf, ours.pf);
    var o := InstallOne(o, X86_TRAP_DF, expected.df, ours.df);
    InstallOne(o, X86_TRAP_GP, expected.gp, ours.gp)
  }

  /** Every gate but three is kept whole, and those three keep all but their
      offset; they then enter the adaptor.  Refusal means a foreign handler. */
  lemma InstallChangesOnlyThreeOffsets(t: Table, expected: Handlers, ours: Handlers)
    requires |t| == IDT_ENTRIES
    ensures var o := Install(t, expected, ours);
            && (o.Installed? ==>
                && (forall v :: 0 <= v < IDT_ENTRIES && v != X86_TRAP_PF && v != X86_TRAP_DF && v != X86_TRAP_GP ==>
                      o.table[v] == t[v])
                && o.table[X86_TRAP_PF] == GateSetOffset(t[X86_TRAP_PF], ours.pf)
                && o.table[X86_TRAP_DF] == GateSetOffset(t[X86_TRAP_DF], ours.df)
                && o.table[X86_TRAP_GP] == GateSetOffset(t[X86_TRAP_GP], ours.gp)
                && (!o.dirty ==> o.table == t))
            && (o.Refused? <==>
                || GateOffset(t[X86_TRAP_PF]) !in {expected.pf, ours.pf}
                || GateOffset(t[X86_TRAP_DF]) !in {expected.df, ours.df}
                || GateOffset(t[X86_TRAP_GP]) !in {expected.gp, ours.gp})
  {
    OffsetRoundTrip(t[X86_TRAP_PF], 0);
    OffsetRoundTrip(t[X86_TRAP_DF], 0);
    OffsetRoundTrip(t[X86_TRAP_GP], 0);
  }

  /** A second run finds nothing to do, exactly when none of the handlers it is
      told to expect is the adaptor's own. */
  lemma InstallIsIdempotent(t: Table, expected: Handlers, ours: Handlers)
    requires |t| == IDT_ENTRIES && Install(t, expected, ours).Installed?
    ensures var t' := Install(t, expected, ours).table;
            Install(t', expected, ours) == Installed(t', false) <==>
            expected.pf != ours.pf && expected.df != ours.df && expected.gp != ours.gp
  {
    InstallChangesOnlyThreeOffsets(t, expected, ours);
    OffsetRoundTrip(t[X86_TRAP_PF], ours.pf);
    OffsetRoundTrip(t[X86_TRAP_DF], ours.df);
    OffsetRoundTrip(t[X86_TRAP_GP], ours.gp);
  }

  /** Each saved handler is set once, by the first call that gets to it: a
      foreign handler on one vector keeps the call from the next. */
  function SavedAfter(t: Table, saved: Handlers, expected: Handlers, ours: Handlers): Handlers
    requires |t| == IDT_ENTRIES
  {
    var pfOk := GateOffset(t[X86_TRAP_PF]) in {expected.pf, ours.pf};
    var dfOk := GateOffset(t[X86_TRAP_DF]) in {expected.df, ours.df};
    Handlers(if saved.pf == 0 then expected.pf else saved.pf,
             if saved.df == 0 && pfOk then expected.df else saved.df,
             if saved.gp == 0 && pfOk && dfOk then expected.gp else saved.gp)
  }

  // ---- Runs of calls ------------------------------------------------------

  /** The active table and the saved handlers. */
  datatype State = State(table: Table, saved: Handlers)

  function AfterCall(s: State, expected: Handlers, ours: Handlers): (s': State)
    requires |s.table| == IDT_ENTRIES
    ensures |s'.table| == IDT_ENTRIES
  {
    var o := Install(s.table, expected, ours);
    State(if o.Installed? then o.table else s.table, SavedAfter(s.table, s.saved, expected, ours))
  }

  /** Calls one after the other; each may expect other handlers. */
  function AfterCalls(t: Table, calls: seq<Handlers>, ours: Handlers): (s: State)
    requires |t| == IDT_ENTRIES
    ensures |s.table| == IDT_ENTRIES
    decreases |calls|
  {
    if calls == [] then State(t, Handlers(0, 0, 0))
    else AfterCall(AfterCalls(t, calls[..|calls| - 1], ours), calls[|calls| - 1], ours)
  }

  /** The handlers in the gates of the page fault, the double fault and general
      protection. */
  function HandlersOf(t: Table): Handlers
    requires |t| == IDT_ENTRIES
  {
    Handlers(GateOffset(t[14]), GateOffset(t[8]), GateOffset(t[13]))
  }

  /** Each of the three vectors leads where `orig` led: through an entry of the
      adaptor to the handler saved for that vector, or directly. */
  ghost predicate Leads(orig: Table, s: State, ours: Handlers)
    requires |orig| == |s.table| == IDT_ENTRIES
  {
    var (pf, df, gp) := (GateOffset(s.table[14]), GateOffset(s.table[8]), GateOffset(s.table[13]));
    && (if pf == ours.pf then s.saved.pf else pf) == GateOffset(orig[14])
    && (if df == ours.df then s.saved.df else df) == GateOffset(orig[8])
    && (if gp == ours.gp then s.saved.gp else gp) == GateOffset(orig[13])
  }

  /** None of the original handlers is the adaptor's own. */
  ghost predicate Foreign(orig: Table, ours: Handlers)
    requires |orig| == IDT_ENTRIES
  {
    && GateOffset(orig[14]) != ours.pf && GateOffset(orig[8]) != ours.df && GateOffset(orig[13]) != ours.gp
  }

  /** Before a call: it will take note of a wrong handler, because none is noted
      for a vector it gets to and it expects neither the original nor 0 there. */
  predicate Poisons(orig: Handlers, s: State, e: Handlers, ours: Handlers)
    requires |s.table| == IDT_ENTRIES
  {
    var toDf := GateOffset(s.table[14]) == e.pf || GateOffset(s.table[14]) == ours.pf;
    var toGp := toDf && (GateOffset(s.table[8]) == e.df || GateOffset(s.table[8]) == ours.df);
    || (s.saved.pf == 0 && e.pf != 0 && e.pf != orig.pf)
    || (toDf && s.saved.df == 0 && e.df != 0 && e.df != orig.df)
    || (toGp && s.saved.gp == 0 && e.gp != 0 && e.gp != orig.gp)
  }

  predicate PoisonedInRun(orig: Table, calls: seq<Handlers>, ours: Handlers)
    requires |orig| == IDT_ENTRIES
    decreases |calls|
  {
    calls != [] &&
    var init := calls[..|calls| - 1];
    || PoisonedInRun(orig, init, ours)
    || Poisons(HandlersOf(orig), AfterCalls(orig, init, ours), calls[|calls| - 1], ours)
  }

  /** What is saved for a vector is 0 or its original handler. */
  ghost predicate Clean(orig: Handlers, saved: Handlers) {
    && (saved.pf == 0 || saved.pf == orig.pf)
    && (saved.df == 0 || saved.df == orig.df)
    && (saved.gp == 0 || saved.gp == orig.gp)
  }

  /** A saved handler never changes again, and a call saves a wrong one exactly
      if it poisons. */
  lemma SavedOnce(orig: Handlers, s: State, e: Handlers, ours: Handlers)
    requires |s.table| == IDT_ENTRIES
    ensures var saved' := AfterCall(s, e, ours).saved;
            && (s.saved.pf != 0 ==> saved'.pf == s.saved.pf)
            && (s.saved.df != 0 ==> saved'.df == s.saved.df)
            && (s.saved.gp != 0 ==> saved'.gp == s.saved.gp)
            && (Clean(orig, saved') <==> Clean(orig, s.saved) && !Poisons(orig, s, e, ours))
  {
  }

  /** The table of a run: untouched until a call expects exactly the original
      handlers, and from then on with the adaptor's three entries. */
  ghost predicate TableOfRun(orig: Table, t: Table, ours: Handlers, installed: bool)
    requires |orig| == |t| == IDT_ENTRIES
  {
    if installed then HandlersOf(t) == ours else t == orig
  }

  lemma CallOnTable(orig: Table, s: State, e: Handlers, ours: Handlers, installed: bool)
    requires |orig| == |s.table| == IDT_ENTRIES && Foreign(orig, ours) && TableOfRun(orig, s.table, ours, installed)
    ensures TableOfRun(orig, AfterCall(s, e, ours).table, ours, installed || e == HandlersOf(orig))
  {
    InstallChangesOnlyThreeOffsets(s.table, e, ours);
    OffsetRoundTrip(s.table[14], ours.pf);
    OffsetRoundTrip(s.table[8], ours.df);
    OffsetRoundTrip(s.table[13], ours.gp);
  }

  /** Something is saved for every vector that has a handler to save. */
  ghost predicate Noted(orig: Handlers, saved: Handlers) {
    (saved.pf != 0 || orig.pf == 0) && (saved.df != 0 || orig.df == 0) && (saved.gp != 0 || orig.gp == 0)
  }

  lemma CallNotes(orig: Table, s: State, e: Handlers, ours: Handlers)
    requires |orig| == |s.table| == IDT_ENTRIES
    ensures Noted(HandlersOf(orig), s.saved) ==> Noted(HandlersOf(orig), AfterCall(s, e, ours).saved)
    ensures s.table == orig && e == HandlersOf(orig) ==> Noted(e, AfterCall(s, e, ours).saved)
  {
  }

  lemma {:induction false} RunState(orig: Table, calls: seq<Handlers>, ours: Handlers)
    requires |orig| == IDT_ENTRIES && Foreign(orig, ours)
    ensures var s, installed := AfterCalls(orig, calls, ours), HandlersOf(orig) in calls;
            && TableOfRun(orig, s.table, ours, installed)
            && (installed ==> Noted(HandlersOf(orig), s.saved))
            && (Clean(HandlersOf(orig), s.saved) <==> !PoisonedInRun(orig, calls, ours))
    decreases |calls|
  {
    if calls == [] {
    } else {
      var init, e := calls[..|calls| - 1], calls[|calls| - 1];
      assert calls == init + [e];
      RunState(orig, init, ours);
      var m := AfterCalls(orig, init, ours);
      CallOnTable(orig, m, e, ours, HandlersOf(orig) in init);
      CallNotes(orig, m, e, ours);
      SavedOnce(HandlersOf(orig), m, e, ours);
    }
  }

  /** Over every run of calls, whatever handlers each is told to expect: all
      three vectors lead to their original handlers exactly if the adaptor never
      got installed or no call made it note a wrong handler. */
  lemma LeadsIff(orig: Table, calls: seq<Handlers>, ours: Handlers)
    requires |orig| == IDT_ENTRIES && Foreign(orig, ours)
    ensures Leads(orig, AfterCalls(orig, calls, ours), ours) <==>
            HandlersOf(orig) !in calls || !PoisonedInRun(orig, calls, ours)
  {
    RunState(orig, calls, ours);
  }

  /** In particular calls that expect the original handlers are always safe. */
  lemma {:induction false} TruthfulCallsNeverPoison(orig: Table, calls: seq<Handlers>, ours: Handlers)
    requires |orig| == IDT_ENTRIES
    requires forall i :: 0 <= i < |calls| ==>
               calls[i] == Handlers(GateOffset(orig[14]), GateOffset(orig[8]), GateOffset(orig[13]))
    ensures !PoisonedInRun(orig, calls, ours)
    decreases |calls|
  {
    if calls == [] {
    } else {
      TruthfulCallsNeverPoison(orig, calls[..|calls| - 1], ours);
    }
  }

  /** A first call that is wrong about the page-fault handler is refused, but what
      it noted stays: after a second, right call page faults go astray. */
  lemma RefusedCallPoisons(orig: Table, ours: Handlers, wrong: Word)
    requires |orig| == IDT_ENTRIES && Foreign(orig, ours)
    requires wrong != 0 && wrong != GateOffset(orig[14])
    ensures var h := HandlersOf(orig);
            var s := AfterCalls(orig, [h.(pf := wrong), h], ours);
            GateOffset(s.table[14]) == ours.pf && s.saved.pf == wrong && !Leads(orig, s, ours)
  {
    var h := HandlersOf(orig);
    var calls := [h.(pf := wrong), h];
    assert calls[..1] == [h.(pf := wrong)] && calls[..1][..0] == [];
    assert calls[1] == h && h in calls;
    RunState(orig, calls, ours);
    assert AfterCalls(orig, calls[..1], ours).saved.pf == wrong;
  }

  class Adaptor {
    const pages: IdtAdaptor
    const ours: Handlers      // pf_adaptor_asm_fix_err_code_{u,uw,gp}
    var saved: Handlers       // where those continue; 0 until first set

    constructor (pages: IdtAdaptor, ours: Handlers)
      ensures this.pages == pages && this.ours == ours && saved == Handlers(0, 0, 0)
    {
      this.pages := pages;
      this.ours := ours;
      saved := Handlers(0, 0, 0);
    }

    /** One gate of the clone at `idt`; `dirty` says whether an earlier one, and
        in the end whether any one, was changed. */
    method InstallGate(idt: Word, v: nat, expected: Word, mine: Word, dirty: bool) returns (ok: bool, dirty': bool)
      requires pages.ValidWithClone(idt) && v < IDT_ENTRIES
      modifies pages`tables
      ensures pages.ValidWithClone(idt) && pages.Active() == old(pages.Active())
      ensures InstallOne(Installed(old(pages.tables)[idt], dirty), v, expected, mine) ==
              (if ok then Installed(pages.tables[idt], dirty') else Refused)
      ensures ok <==> GateOffset(old(pages.tables)[idt][v]) in {expected, mine}
      ensures forall u :: 0 <= u < IDT_ENTRIES && u != v ==> pages.tables[idt][u] == old(pages.tables)[idt][u]
    {
      var gate := pages.tables[idt][v];
      var val := GateOffset(gate);
      ok, dirty' := true, dirty;
      if val != expected {
        if val != mine {
          ok := false;
        }
      } else {
        pages.WriteGate(idt, v, GateSetOffset(gate, mine));
        dirty' := true;
      }
    }

    /** The three gates of the clone in turn; on a foreign handler, give up. */
    method InstallGates(idt: Word, expected: Handlers) returns (ok: bool, dirty: bool)
      requires pages.ValidWithClone(idt)
      modifies `saved, pages`tables
      ensures pages.ValidWithClone(idt) && pages.Active() == old(pages.Active())
      ensures Install(old(pages.tables)[idt], expected, ours) ==
              (if ok then Installed(pages.tables[idt], dirty) else Refused)
      ensures saved == SavedAfter(old(pages.tables)[idt], old(saved), expected, ours)
    {
      if saved.pf == 0 { saved := saved.(pf := expected.pf); }
      ok, dirty := InstallGate(idt, X86_TRAP_PF, expected.pf, ours.pf, false);
      if !ok { return; }
      if saved.df == 0 { saved := saved.(df := expected.df); }
      ok, dirty := InstallGate(idt, X86_TRAP_DF, expected.df, ours.df, dirty);
      if !ok { return; }
      if saved.gp == 0 { saved := saved.(gp := expected.gp); }
      ok, dirty := InstallGate(idt, X86_TRAP_GP, expected.gp, ours.gp, dirty);
    }

    /** `pf_adaptor_init`: all or nothing. */
    method Init(cpu: nat, expected: Handlers, page: Word, order: seq<nat>) returns (rc: int)
      requires pages.Valid() && cpu < |pages.idtr|
      requires page != 0 && page != pages.boot && page !in pages.clones
      requires forall c :: 0 <= c < |pages.idtr| <==> c in order
      modifies `saved, pages
      ensures pages.Valid()
      ensures var o := Install(old(pages.Active()), expected, ours);
              && (o.Refused? ==> rc == 0 && pages.Active() == old(pages.Active()))
              && (o.Installed? ==> rc == 1 && pages.Active() == o.table)
              && saved == SavedAfter(old(pages.Active()), old(saved), expected, ours)
              && (o.Refused? || !o.dirty ==> pages.currentIdt == old(pages.currentIdt) && pages.idtr == old(pages.idtr))
    {
      var idt := pages.Clone(cpu, page);
      var ok, dirty := InstallGates(idt, expected);
      if !ok {
        pages.Release(idt);
        return 0;
      }
      if dirty {
        pages.Activate(idt, order);
      } else {
        InstallChangesOnlyThreeOffsets(old(pages.Active()), expected, ours);
        pages.Release(idt);
      }
      return 1;
    }

    /** One more call in a run on table `orig`. */
    method InitInRun(cpu: nat, expected: Handlers, page: Word, order: seq<nat>, ghost orig: Table,
                     ghost calls: seq<Handlers>)
      returns (rc: int)
      requires pages.Valid() && cpu < |pages.idtr|
      requires page != 0 && page != pages.boot && page !in pages.clones
      requires forall c :: 0 <= c < |pages.idtr| <==> c in order
      requires |orig| == IDT_ENTRIES && Foreign(orig, ours)
      requires State(pages.Active(), saved) == AfterCalls(orig, calls, ours)
      modifies `saved, pages
      ensures pages.Valid() && State(pages.Active(), saved) == AfterCalls(orig, calls + [expected], ours)
      ensures Leads(orig, State(pages.Active(), saved), ours) <==>
              HandlersOf(orig) !in calls + [expected] || !PoisonedInRun(orig, calls + [expected], ours)
    {
      rc := Init(cpu, expected, page, order);
      assert (calls + [expected])[..|calls|] == calls;
      LeadsIff(orig, calls + [expected], ours);
    }
  }
}
