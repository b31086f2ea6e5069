/** Redirecting gates to the per-vector stubs, on an IST stack of their own. */
module EfAdaptor {
  import opened Machine
  import opened Idt

  const IST_INDEX_EF := 6   // slot of `tss.ist`; a gate names it by its index plus one
  const ISR_LEN := 32
  const EINVAL := 22
  const PAGE_SIZE := 0x1000

  /** Address of the stub of vector `v` in the table of stubs. */
  function StubAddr(stubs: Word, v: nat): Word
    requires stubs + ISR_LEN * IDT_ENTRIES <= TWO64 && v < IDT_ENTRIES
  {
    stubs + ISR_LEN * v
  }

  /** A table of gates together with the handlers saved in `ef_adaptor_orig_isrs`. */
  datatype Redirection = Redirection(table: Table, isrs: seq<Word>)

  predicate Shaped(r: Redirection, stubs: Word) {
    |r.table| == IDT_ENTRIES && |r.isrs| == IDT_ENTRIES && stubs + ISR_LEN * IDT_ENTRIES <= TWO64
  }

  predicate InRange(vs: seq<int>) {
    forall i :: 0 <= i < |vs| ==> 0 <= vs[i] < IDT_ENTRIES
  }

  /** The gate of vector `v` once it enters stub `v` on the stack of that slot. */
  function Redirected(g: Gate, stubs: Word, v: nat): Gate
    requires stubs + ISR_LEN * IDT_ENTRIES <= TWO64 && v < IDT_ENTRIES
  {
    GateSetOffset(g.(ist := IST_INDEX_EF + 1), StubAddr(stubs, v))
  }

  /** `process_vec` on values: the new state and its return code. */
  function ProcessVec(r: Redirection, stubs: Word, v: nat): (result: (Redirection, int))
    requires Shaped(r, stubs) && v < IDT_ENTRIES
    ensures Shaped(result.0, stubs)
  {
    var g := r.table[v];
    var hdlr := GateOffset(g);
    if g.ist != 0 then
      (r, 0)
    else if r.isrs[v] != 0 && r.isrs[v] != hdlr then
      (r, -1)
    else
      (Redirection(r.table[v := Redirected(g, stubs, v)], r.isrs[v := hdlr]), 1)
  }

  datatype Outcome = Done(r: Redirection, dirty: nat) | Mismatch(r: Redirection)

  /** `process_vec` on each vector in turn, stopping at the first mismatch. */
  function ProcessAll(r: Redirection, stubs: Word, vs: seq<int>): (o: Outcome)
    requires Shaped(r, stubs) && InRange(vs)
    ensures Shaped(o.r, stubs)
    ensures o.Done? && o.dirty == 0 ==> o.r == r
    decreases |vs|
  {
    if vs == [] then Done(r, 0) else
    var o := ProcessAll(r, stubs, vs[..|vs| - 1]);
    if o.Mismatch? then o else
    var (r', rc) := ProcessVec(o.r, stubs, vs[|vs| - 1]);
    if rc < 0 then Mismatch(r') else Done(r', o.dirty + rc)
  }

  lemma {:induction false} MismatchSticks(r: Redirection, stubs: Word, vs: seq<int>, i: nat)
    requires Shaped(r, stubs) && InRange(vs) && i <= |vs|
    requires ProcessAll(r, stubs, vs[..i]).Mismatch?
    ensures ProcessAll(r, stubs, vs) == ProcessAll(r, stubs, vs[..i])
    decreases |vs| - i
  {
    if i < |vs| {
      assert vs[..i + 1][..i] == vs[..i];
      MismatchSticks(r, stubs, vs, i + 1);
    } else {
      assert vs[..i] == vs;
    }
  }

  /** The vectors one call processes: a list, then a range of at least two. */
  function Vectors(vecs: seq<int>, vstart: int, vend: int): seq<int> {
    vecs + if vstart >= 0 && vend > vstart then seq(vend - vstart + 1, i => vstart + i) else []
  }

  /** Both ends of a range are included, but a range of one vector is not one. */
  lemma VectorsProcessed(vecs: seq<int>, vstart: int, vend: int, v: int)
    ensures v in Vectors(vecs, vstart, vend) <==> v in vecs || (0 <= vstart < vend && vstart <= v <= vend)
  {
    if 0 <= vstart < vend && vstart <= v <= vend {
      var range := seq(vend - vstart + 1, i => vstart + i);
      assert range[v - vstart] == v;
      assert Vectors(vecs, vstart, vend)[|vecs| + (v - vstart)] == v;
    }
  }

  /** The handler an exception on vector `v` finally reaches. */
  function Effective(r: Redirection, stubs: Word, v: nat): Word
    requires Shaped(r, stubs) && v < IDT_ENTRIES
  {
    if GateOffset(r.table[v]) == StubAddr(stubs, v) then r.isrs[v] else GateOffset(r.table[v])
  }

  /** No original gate enters one of the stubs. */
  ghost predicate Foreign(orig: Table, stubs: Word) {
    && |orig| == IDT_ENTRIES && stubs + ISR_LEN * IDT_ENTRIES <= TWO64
    && forall v :: 0 <= v < IDT_ENTRIES ==> GateOffset(orig[v]) != StubAddr(stubs, v)
  }

  /** Vector `v` either has its original gate and nothing contrary saved, or has
      been redirected from a gate without IST, its handler saved. */
  ghost predicate VectorKept(orig: Table, r: Redirection, stubs: Word, v: nat)
    requires Shaped(r, stubs) && |orig| == IDT_ENTRIES && v < IDT_ENTRIES
  {
    || (r.table[v] == orig[v] && (r.isrs[v] == 0 || r.isrs[v] == GateOffset(orig[v])))
    || (orig[v].ist == 0 && r.table[v] == Redirected(orig[v], stubs, v) && r.isrs[v] == GateOffset(orig[v]))
  }

  ghost predicate Kept(orig: Table, r: Redirection, stubs: Word) {
    && Shaped(r, stubs) && Foreign(orig, stubs)
    && forall v :: 0 <= v < IDT_ENTRIES ==> VectorKept(orig, r, stubs, v)
  }

  lemma {:induction false} ProcessAllKeeps(orig: Table, r: Redirection, stubs: Word, vs: seq<int>)
    requires Kept(orig, r, stubs) && InRange(vs)
    ensures ProcessAll(r, stubs, vs).Done? && Kept(orig, ProcessAll(r, stubs, vs).r, stubs)
    decreases |vs|
  {
    if vs == [] {
    } else {
      var init, v := vs[..|vs| - 1], vs[|vs| - 1];
      ProcessAllKeeps(orig, r, stubs, init);
      var m := ProcessAll(r, stubs, init).r;
      assert VectorKept(orig, m, stubs, v);
      var m' := ProcessVec(m, stubs, v).0;
      forall u | 0 <= u < IDT_ENTRIES ensures VectorKept(orig, m', stubs, u) {
        assert VectorKept(orig, m, stubs, u);
      }
    }
  }

  lemma EffectiveIsOriginal(orig: Table, r: Redirection, stubs: Word)
    requires Kept(orig, r, stubs)
    ensures forall v :: 0 <= v < IDT_ENTRIES ==> Effective(r, stubs, v) == GateOffset(orig[v])
    ensures forall v :: 0 <= v < IDT_ENTRIES && orig[v].ist != 0 ==> r.table[v] == orig[v]
  {
    forall v | 0 <= v < IDT_ENTRIES
      ensures Effective(r, stubs, v) == GateOffset(orig[v])
      ensures orig[v].ist != 0 ==> r.table[v] == orig[v]
    {
      assert VectorKept(orig, r, stubs, v);
      OffsetRoundTrip(orig[v].(ist := IST_INDEX_EF + 1), StubAddr(stubs, v));
    }
  }

  /** A whole history of calls; a call that fails leaves the table alone. */
  function AfterCalls(r: Redirection, stubs: Word, calls: seq<seq<int>>): (o: Outcome)
    requires Shaped(r, stubs) && forall i :: 0 <= i < |calls| ==> InRange(calls[i])
    ensures Shaped(o.r, stubs)
    decreases |calls|
  {
    if calls == [] then Done(r, 0) else
    var o := AfterCalls(r, stubs, calls[..|calls| - 1]);
    if o.Mismatch? then o else ProcessAll(o.r, stubs, calls[|calls| - 1])
  }

  /** Over every run of calls: no handler mismatch, every vector still reaches
      its original handler, and gates that had an IST are untouched. */
  lemma {:induction false} HandlerPreservation(orig: Table, stubs: Word, calls: seq<seq<int>>)
    requires Foreign(orig, stubs) && forall i :: 0 <= i < |calls| ==> InRange(calls[i])
    ensures var o := AfterCalls(Redirection(orig, seq(IDT_ENTRIES, _ => 0)), stubs, calls);
            && o.Done? && Kept(orig, o.r, stubs)
            && (forall v :: 0 <= v < IDT_ENTRIES ==> Effective(o.r, stubs, v) == GateOffset(orig[v]))
            && (forall v :: 0 <= v < IDT_ENTRIES && orig[v].ist != 0 ==> o.r.table[v] == orig[v])
    decreases |calls|
  {
    var start := Redirection(orig, seq(IDT_ENTRIES, _ => 0));
    var o := AfterCalls(start, stubs, calls);
    if calls == [] {
      assert forall v :: 0 <= v < IDT_ENTRIES ==> VectorKept(orig, start, stubs, v);
    } else {
      HandlerPreservation(orig, stubs, calls[..|calls| - 1]);
      ProcessAllKeeps(orig, AfterCalls(start, stubs, calls[..|calls| - 1]).r, stubs, calls[|calls| - 1]);
    }
    EffectiveIsOriginal(orig, o.r, stubs);
  }

  /** The vectors whose gates differ between two tables. */
  function Changed(t: Table, t': Table): set<int>
    requires |t| == |t'| == IDT_ENTRIES
  {
    set v | 0 <= v < IDT_ENTRIES && t[v] != t'[v]
  }

  /** Redirecting one more gate changes one more vector. */
  lemma OneMoreChanged(t: Table, m: Table, v: int, g: Gate)
    requires |t| == |m| == IDT_ENTRIES && 0 <= v < IDT_ENTRIES && m[v] == t[v] && g != t[v]
    ensures Changed(t, m[v := g]) == Changed(t, m) + {v} && v !in Changed(t, m)
  {
  }

  /** The return value counts the newly redirected gates, each vector once. */
  lemma {:induction false} DirtyCountsRedirections(r: Redirection, stubs: Word, vs: seq<int>)
    requires Shaped(r, stubs) && InRange(vs) && ProcessAll(r, stubs, vs).Done?
    ensures var o := ProcessAll(r, stubs, vs);
            && o.dirty == |Changed(r.table, o.r.table)|
            && (forall v :: v in Changed(r.table, o.r.table) <==> v in vs && r.table[v].ist == 0)
            && (forall v :: v in Changed(r.table, o.r.table) ==> o.r.table[v] == Redirected(r.table[v], stubs, v))
    decreases |vs|
  {
    if vs == [] {
    } else {
      var init, v := vs[..|vs| - 1], vs[|vs| - 1];
      assert vs == init + [v];
      DirtyCountsRedirections(r, stubs, init);
      var m := ProcessAll(r, stubs, init);
      if m.r.table[v].ist == 0 {
        OneMoreChanged(r.table, m.r.table, v, Redirected(m.r.table[v], stubs, v));
      }
    }
  }

  /** A call stops with a mismatch exactly if it lists a vector without IST
      whose gate enters another handler than the one saved before. */
  lemma {:induction false} MismatchIff(r: Redirection, stubs: Word, vs: seq<int>)
    requires Shaped(r, stubs) && InRange(vs)
    ensures ProcessAll(r, stubs, vs).Mismatch? <==>
            exists v :: v in vs && r.table[v].ist == 0 && r.isrs[v] != 0 && r.isrs[v] != GateOffset(r.table[v])
    ensures forall v :: 0 <= v < IDT_ENTRIES && r.isrs[v] != 0 ==> ProcessAll(r, stubs, vs).r.isrs[v] == r.isrs[v]
    ensures ProcessAll(r, stubs, vs).Done? ==>
              forall v :: 0 <= v < IDT_ENTRIES ==>
                var o := ProcessAll(r, stubs, vs).r;
                (o.table[v] == r.table[v] && o.isrs[v] == r.isrs[v]) || (v in vs && o.table[v].ist != 0)
    decreases |vs|
  {
    if vs == [] {
    } else {
      var init, v := vs[..|vs| - 1], vs[|vs| - 1];
      assert vs == init + [v];
      MismatchIff(r, stubs, init);
      var m := ProcessAll(r, stubs, init);
      if m.Done? {
        assert ProcessAll(r, stubs, vs).Mismatch? <==> ProcessVec(m.r, stubs, v).1 < 0;
        assert m.r.table[v].ist == 0 ==> m.r.table[v] == r.table[v] && m.r.isrs[v] == r.isrs[v];
        assert v in vs;
      }
    }
  }

  /** A kept gate: unless it is the original one, it enters its stub on the stack
      of the last slot, with its handler saved, and is otherwise as it was. */
  lemma KeptGate(orig: Table, r: Redirection, stubs: Word, v: nat)
    requires Kept(orig, r, stubs) && v < IDT_ENTRIES
    ensures var g, g' := orig[v], r.table[v];
            && g'.segment == g.segment && g'.typ == g.typ && g'.dpl == g.dpl && g'.present == g.present
            && (g' != g ==> g.ist == 0 && g'.ist == 7 && GateOffset(g') == stubs + 32 * v && r.isrs[v] == GateOffset(g))
            && (g' == g <==> g'.ist == g.ist)
  {
    assert VectorKept(orig, r, stubs, v);
    OffsetRoundTrip(orig[v].(ist := IST_INDEX_EF + 1), StubAddr(stubs, v));
  }

  lemma OneCallChanges(r: Redirection, stubs: Word, vs: seq<int>, v: int)
    requires Shaped(r, stubs) && InRange(vs) && ProcessAll(r, stubs, vs).Done? && 0 <= v < IDT_ENTRIES
    ensures ProcessAll(r, stubs, vs).r.table[v] != r.table[v] <==> v in vs && r.table[v].ist == 0
  {
    DirtyCountsRedirections(r, stubs, vs);
    assert v in Changed(r.table, ProcessAll(r, stubs, vs).r.table) <==> v in vs && r.table[v].ist == 0;
  }

  /** Over every run of calls a gate is changed exactly if some call lists it and
      it had no IST. */
  lemma {:induction false} ChangedOverRuns(orig: Table, stubs: Word, calls: seq<seq<int>>, v: int)
    requires Foreign(orig, stubs) && (forall i :: 0 <= i < |calls| ==> InRange(calls[i])) && 0 <= v < IDT_ENTRIES
    ensures var o := AfterCalls(Redirection(orig, seq(IDT_ENTRIES, _ => 0)), stubs, calls);
            o.r.table[v] != orig[v] <==> orig[v].ist == 0 && exists i :: 0 <= i < |calls| && v in calls[i]
    decreases |calls|
  {
    if calls == [] {
    } else {
      var init, vs := calls[..|calls| - 1], calls[|calls| - 1];
      assert calls == init + [vs];
      ChangedOverRuns(orig, stubs, init, v);
      HandlerPreservation(orig, stubs, init);
      HandlerPreservation(orig, stubs, calls);
      var m := AfterCalls(Redirection(orig, seq(IDT_ENTRIES, _ => 0)), stubs, init).r;
      KeptGate(orig, m, stubs, v);
      KeptGate(orig, ProcessAll(m, stubs, vs).r, stubs, v);
      OneCallChanges(m, stubs, vs, v);
    }
  }

  /** Saving more handlers does not disturb the table still in use: while the
      CPUs reload one after the other, both tables lead to the same handlers. */
  lemma {:induction false} OldTableStillKept(orig: Table, r: Redirection, stubs: Word, vs: seq<int>)
    requires Kept(orig, r, stubs) && InRange(vs)
    ensures Kept(orig, Redirection(r.table, ProcessAll(r, stubs, vs).r.isrs), stubs)
    decreases |vs|
  {
    if vs == [] {
      assert Redirection(r.table, r.isrs) == r;
    } else {
      var init, v := vs[..|vs| - 1], vs[|vs| - 1];
      OldTableStillKept(orig, r, stubs, init);
      ProcessAllKeeps(orig, r, stubs, init);
      ProcessAllKeeps(orig, r, stubs, vs);
      var m, m' := ProcessAll(r, stubs, init).r, ProcessAll(r, stubs, vs).r;
      forall u | 0 <= u < IDT_ENTRIES ensures VectorKept(orig, Redirection(r.table, m'.isrs), stubs, u) {
        assert VectorKept(orig, Redirection(r.table, m.isrs), stubs, u);
        assert VectorKept(orig, m', stubs, u);
        assert VectorKept(orig, m, stubs, u);
      }
    }
  }

  /** At instant `i`, on every CPU, every vector leads to its original handler,
      by the handlers saved at that instant. */
  ghost predicate Reaches(orig: Table, i: Instant, stubs: Word)
    requires |orig| == IDT_ENTRIES && stubs + ISR_LEN * IDT_ENTRIES <= TWO64
  {
    && |i.isrs| == IDT_ENTRIES
    && forall c, v :: 0 <= c < |i.seen| && 0 <= v < IDT_ENTRIES ==>
         && |i.seen[c]| == IDT_ENTRIES
         && Effective(Redirection(i.seen[c], i.isrs), stubs, v) == GateOffset(orig[v])
  }

  /** An instant of a call that processes `vs`: some of the vectors have been
      saved while all CPUs still use the old table, or all have been and each
      CPU uses the old or the new one. */
  ghost predicate InTransit(i: Instant, r: Redirection, stubs: Word, vs: seq<int>)
    requires Shaped(r, stubs) && InRange(vs)
  {
    || (exists k :: 0 <= k <= |vs| && SeesOneOf(i, r.table, r.table, ProcessAll(r, stubs, vs[..k]).r.isrs))
    || (&& ProcessAll(r, stubs, vs).Done?
        && SeesOneOf(i, r.table, ProcessAll(r, stubs, vs).r.table, ProcessAll(r, stubs, vs).r.isrs))
  }

  /** Whichever of two kept tables each CPU has loaded. */
  lemma SeenKept(orig: Table, i: Instant, t: Table, t': Table, isrs: seq<Word>, stubs: Word)
    requires Kept(orig, Redirection(t, isrs), stubs) && Kept(orig, Redirection(t', isrs), stubs)
    requires SeesOneOf(i, t, t', isrs)
    ensures Reaches(orig, i, stubs)
  {
    EffectiveIsOriginal(orig, Redirection(t, isrs), stubs);
    EffectiveIsOriginal(orig, Redirection(t', isrs), stubs);
  }

  lemma EveryInstantReachesOriginal(orig: Table, r: Redirection, stubs: Word, vs: seq<int>, i: Instant)
    requires Kept(orig, r, stubs) && InRange(vs) && InTransit(i, r, stubs, vs)
    ensures Reaches(orig, i, stubs)
  {
    if k :| 0 <= k <= |vs| && SeesOneOf(i, r.table, r.table, ProcessAll(r, stubs, vs[..k]).r.isrs) {
      OldTableStillKept(orig, r, stubs, vs[..k]);
      SeenKept(orig, i, r.table, r.table, ProcessAll(r, stubs, vs[..k]).r.isrs, stubs);
    } else {
      var r' := ProcessAll(r, stubs, vs).r;
      ProcessAllKeeps(orig, r, stubs, vs);
      OldTableStillKept(orig, r, stubs, vs);
      assert Redirection(r'.table, r'.isrs) == r';
      SeenKept(orig, i, r.table, r'.table, r'.isrs, stubs);
    }
  }

  /** `tss.x86_tss.ist`: the seven stacks a gate can name, 0 for none. */
  type Tss = ist: seq<Word> | |ist| == 7 witness [0, 0, 0, 0, 0, 0, 0]

  /** From `was` to `tss` at most the slot of the adaptor changed, on any CPU. */
  ghost predicate SameOtherSlots(was: seq<Tss>, tss: seq<Tss>) {
    |tss| == |was| && forall c :: 0 <= c < |was| ==> tss[c] == was[c][IST_INDEX_EF := tss[c][IST_INDEX_EF]]
  }

  ghost predicate NoStacks(tss: seq<Tss>) {
    forall c :: 0 <= c < |tss| ==> tss[c][IST_INDEX_EF] == 0
  }

  /** The adaptor's globals: the saved handlers and each CPU's TSS. */
  class Adaptor {
    const pages: IdtAdaptor
    const stubs: Word
    var origIsrs: seq<Word>
    var tss: seq<Tss>

    ghost predicate Valid()
      reads this, pages
    {
      && pages.Valid() && pages.isrs == origIsrs && |origIsrs| == IDT_ENTRIES && |tss| == |pages.idtr|
      && stubs + ISR_LEN * IDT_ENTRIES <= TWO64
      && (forall c :: 0 <= c < |tss| ==> tss[c][IST_INDEX_EF] % PAGE_SIZE == 0)
    }

    /** Between the clone at `idt` and its activation or release. */
    ghost predicate Editing(idt: Word)
      reads this, pages
    {
      && pages.ValidWithClone(idt) && pages.isrs == origIsrs && |origIsrs| == IDT_ENTRIES
      && stubs + ISR_LEN * IDT_ENTRIES <= TWO64
    }

    ghost function State(): Redirection
      reads this, pages
      requires Valid()
    {
      Redirection(pages.Active(), origIsrs)
    }

    ghost predicate SomeRedirected()
      reads this, pages
      requires Valid()
    {
      exists v :: 0 <= v < IDT_ENTRIES && GateOffset(pages.Active()[v]) == StubAddr(stubs, v)
    }

    /** Any CPU can take an exception through a redirected gate: it has a stack. */
    ghost predicate StacksReady()
      reads this, pages
      requires Valid()
    {
      SomeRedirected() ==> forall c :: 0 <= c < |tss| ==> tss[c][IST_INDEX_EF] != 0
    }

    constructor (pages: IdtAdaptor, stubs: Word, tss: seq<Tss>)
      requires |tss| == |pages.idtr| && NoStacks(tss)
      requires pages.Valid() && stubs + ISR_LEN * IDT_ENTRIES <= TWO64
      requires pages.isrs == seq(IDT_ENTRIES, _ => 0)
      ensures Valid() && this.pages == pages && this.stubs == stubs && this.tss == tss
      ensures origIsrs == seq(IDT_ENTRIES, _ => 0)
    {
      this.pages := pages;
      this.stubs := stubs;
      origIsrs := seq(IDT_ENTRIES, _ => 0);
      this.tss := tss;
    }

    /** `ef_adaptor_setup_tss` on every CPU; `got[c]` is the page CPU `c` would
        be given (0 if none).  Stacks already installed are left in place, and so
        is every other slot. */
    method SetupTss(got: seq<Word>) returns (failed: bool)
      requires |got| == |tss|
      requires forall c :: 0 <= c < |got| ==> got[c] % PAGE_SIZE == 0 && got[c] + PAGE_SIZE < TWO64
      modifies `tss
      ensures SameOtherSlots(old(tss), tss)
      ensures failed <==> exists c :: 0 <= c < |got| && old(tss)[c][IST_INDEX_EF] == 0 && got[c] == 0
      ensures forall c :: 0 <= c < |got| ==>
                tss[c][6] == (if old(tss)[c][6] == 0 && got[c] != 0 then got[c] + 0x1000 else old(tss)[c][6])
    {
      failed := false;
      for c := 0 to |tss|
        invariant SameOtherSlots(old(tss), tss)
        invariant failed <==> exists b :: 0 <= b < c && old(tss)[b][IST_INDEX_EF] == 0 && got[b] == 0
        invariant forall b :: 0 <= b < |got| ==>
                    tss[b][IST_INDEX_EF] ==
                    (if b < c && old(tss)[b][IST_INDEX_EF] == 0 && got[b] != 0 then got[b] + PAGE_SIZE
                     else old(tss)[b][IST_INDEX_EF])
      {
        if tss[c][IST_INDEX_EF] == 0 {
          if got[c] == 0 {
            failed := true;
          } else {
            tss := tss[c := tss[c][IST_INDEX_EF := got[c] + PAGE_SIZE]];
          }
        }
      }
    }

    /** `ef_adaptor_cleanup_tss` on every CPU. */
    method CleanupTss()
      modifies `tss
      ensures SameOtherSlots(old(tss), tss) && NoStacks(tss)
    {
      for c := 0 to |tss|
        invariant SameOtherSlots(old(tss), tss)
        invariant forall b :: 0 <= b < c ==> tss[b][IST_INDEX_EF] == 0
      {
        tss := tss[c := tss[c][IST_INDEX_EF := 0]];
      }
    }

    /** `process_vec` on the clone at `idt`. */
    method Process(idt: Word, vec: int) returns (rc: int)
      requires Editing(idt) && 0 <= vec < IDT_ENTRIES
      modifies `origIsrs, pages`tables, pages`isrs, pages`history
      ensures Editing(idt) && pages.Active() == old(pages.Active())
      ensures (Redirection(pages.tables[idt], origIsrs), rc) ==
              ProcessVec(old(Redirection(pages.tables[idt], origIsrs)), stubs, vec)
      ensures old(pages.history) <= pages.history
      ensures forall i :: |old(pages.history)| <= i < |pages.history| ==>
                SeesOneOf(pages.history[i], pages.Active(), pages.Active(), origIsrs)
    {
      var gate := pages.tables[idt][vec];
      var hdlr := GateOffset(gate);
      if gate.ist != 0 {
        return 0;
      }
      gate := gate.(ist := IST_INDEX_EF + 1);
      // cmpxchg(&ef_adaptor_orig_isrs[vec], 0, hdlr)
      var saved := origIsrs[vec];
      if saved == 0 {
        origIsrs := origIsrs[vec := hdlr];
        pages.NoteHandlers(idt, origIsrs);
      }
      if saved != 0 && saved != hdlr {
        return -1;
      }
      assert origIsrs == old(origIsrs)[vec := hdlr];
      hdlr := StubAddr(stubs, vec);
      gate := GateSetOffset(gate, hdlr);
      pages.WriteGate(idt, vec, gate);
      return 1;
    }

    /** The two vector loops of `ef_adaptor_init`, as one pass. */
    method ProcessEach(idt: Word, vs: seq<int>) returns (ok: bool, dirty: nat)
      requires Editing(idt) && InRange(vs)
      requires pages.tables[idt] == pages.Active()
      modifies `origIsrs, pages`tables, pages`isrs, pages`history
      ensures Editing(idt) && pages.Active() == old(pages.Active())
      ensures var o := ProcessAll(old(Redirection(pages.Active(), origIsrs)), stubs, vs);
              if ok then o == Done(Redirection(pages.tables[idt], origIsrs), dirty)
              else o == Mismatch(Redirection(pages.tables[idt], origIsrs))
      ensures old(pages.history) <= pages.history
      ensures forall i :: |old(pages.history)| <= i < |pages.history| ==>
                InTransit(pages.history[i], old(Redirection(pages.Active(), origIsrs)), stubs, vs)
    {
      ghost var start := Redirection(pages.Active(), origIsrs);
      ok, dirty := true, 0;
      for i := 0 to |vs|
        invariant Editing(idt) && pages.Active() == start.table
        invariant ProcessAll(start, stubs, vs[..i]) == Done(Redirection(pages.tables[idt], origIsrs), dirty)
        invariant old(pages.history) <= pages.history
        invariant forall j :: |old(pages.history)| <= j < |pages.history| ==>
                    InTransit(pages.history[j], start, stubs, vs)
      {
        assert vs[..i + 1][..i] == vs[..i];
        var rc := Process(idt, vs[i]);
        assert ProcessAll(start, stubs, vs[..i + 1]).r.isrs == origIsrs;
        if rc < 0 {
          MismatchSticks(start, stubs, vs, i + 1);
          return false, 0;
        }
        dirty := dirty + rc;
      }
      assert vs[..|vs|] == vs;
    }

    /** The end of `ef_adaptor_init`: activate the edited clone or release it. */
    method Conclude(idt: Word, ok: bool, dirty: nat, order: seq<nat>) returns (rc: int)
      requires Editing(idt) && |tss| == |pages.idtr|
      requires forall c :: 0 <= c < |tss| ==> tss[c][IST_INDEX_EF] % PAGE_SIZE == 0
      requires forall c :: 0 <= c < |pages.idtr| <==> c in order
      requires ok && dirty == 0 ==> pages.tables[idt] == pages.Active()
      modifies `tss, pages`clones, pages`currentIdt, pages`idtr, pages`history
      ensures Valid()
      ensures SameOtherSlots(old(tss), tss)
      ensures if ok then rc == dirty && pages.Active() == old(pages.tables[idt]) && tss == old(tss)
              else rc == -EINVAL && pages.Active() == old(pages.Active()) && NoStacks(tss)
      ensures old(pages.history) <= pages.history
      ensures forall i :: |old(pages.history)| <= i < |pages.history| ==>
                SeesOneOf(pages.history[i], old(pages.Active()), pages.Active(), origIsrs)
    {
      if !ok {
        CleanupTss();
        pages.Release(idt);
        return -EINVAL;
      }
      if dirty > 0 {
        pages.Activate(idt, order);
      } else {
        pages.Release(idt);
      }
      return dirty;
    }

    /** `ef_adaptor_init` from the clone on: edit, then activate or release. */
    method Redirect(cpu: nat, vs: seq<int>, page: Word, order: seq<nat>) returns (rc: int)
      requires Valid() && cpu < |pages.idtr| && InRange(vs)
      requires page != 0 && page != pages.boot && page !in pages.clones
      requires forall c :: 0 <= c < |pages.idtr| <==> c in order
      modifies this, pages
      ensures Valid()
      ensures var o := ProcessAll(old(State()), stubs, vs);
              && origIsrs == o.r.isrs && SameOtherSlots(old(tss), tss)
              && (o.Mismatch? ==> rc == -EINVAL && pages.Active() == old(pages.Active()) && NoStacks(tss))
              && (o.Done? ==> rc == o.dirty && State() == o.r && tss == old(tss))
      ensures old(pages.history) <= pages.history
      ensures forall i :: |old(pages.history)| <= i < |pages.history| ==>
                InTransit(pages.history[i], old(State()), stubs, vs)
    {
      assert vs[..0] == [] && vs[..|vs|] == vs;
      var idt := pages.Clone(cpu, page);
      var ok, dirty := ProcessEach(idt, vs);
      rc := Conclude(idt, ok, dirty, order);
    }

    /** `ef_adaptor_init` with tsthdlr 0. */
    method Init(cpu: nat, vecs: seq<int>, vstart: int, vend: int, page: Word, order: seq<nat>, got: seq<Word>)
      returns (rc: int)
      requires Valid() && cpu < |pages.idtr|
      requires InRange(Vectors(vecs, vstart, vend))
      requires page != 0 && page != pages.boot && page !in pages.clones
      requires forall c :: 0 <= c < |pages.idtr| <==> c in order
      requires |got| == |tss|
      requires forall c :: 0 <= c < |got| ==> got[c] % PAGE_SIZE == 0 && got[c] + PAGE_SIZE < TWO64
      modifies this, pages
      ensures Valid()
      ensures var noStack := exists c :: 0 <= c < |got| && old(tss)[c][IST_INDEX_EF] == 0 && got[c] == 0;
              var o := ProcessAll(old(State()), stubs, Vectors(vecs, vstart, vend));
              && (noStack ==> rc == -EINVAL && State() == old(State()))
              && SameOtherSlots(old(tss), tss) && (noStack || o.Mismatch? ==> NoStacks(tss))
              && (!noStack && o.Mismatch? ==>
                  rc == -EINVAL && pages.Active() == old(pages.Active()) && origIsrs == o.r.isrs)
              && (!noStack && o.Done? ==> rc == o.dirty && State() == o.r)
              && (noStack || o.Done? ==> old(StacksReady()) ==> StacksReady())
              && (!noStack && o.Mismatch? ==> (StacksReady() <==> !SomeRedirected()))
      ensures old(pages.history) <= pages.history
      ensures forall i :: |old(pages.history)| <= i < |pages.history| ==>
                InTransit(pages.history[i], old(State()), stubs, Vectors(vecs, vstart, vend))
    {
      var failed := SetupTss(got);
      if failed {
        CleanupTss();
        return -EINVAL;
      }
      rc := Redirect(cpu, Vectors(vecs, vstart, vend), page, order);
      assert NoStacks(tss) ==> tss[0][IST_INDEX_EF] == 0;
    }

    /** One more call in a run that began with table `orig`: it cannot meet a
        mismatch, and at each of its instants, on every CPU, every vector leads
        to its original handler.  What the next call needs still holds. */
    method InitInRun(cpu: nat, vecs: seq<int>, vstart: int, vend: int, page: Word, order: seq<nat>, got: seq<Word>,
                     ghost orig: Table) returns (rc: int)
      requires Valid() && cpu < |pages.idtr|
      requires InRange(Vectors(vecs, vstart, vend))
      requires page != 0 && page != pages.boot && page !in pages.clones
      requires forall c :: 0 <= c < |pages.idtr| <==> c in order
      requires |got| == |tss|
      requires forall c :: 0 <= c < |got| ==> got[c] % PAGE_SIZE == 0 && got[c] + PAGE_SIZE < TWO64
      requires Kept(orig, State(), stubs) && StacksReady()
      modifies this, pages
      ensures Valid() && Kept(orig, State(), stubs) && StacksReady()
      ensures rc == -22 <==> exists c :: 0 <= c < |got| && old(tss)[c][IST_INDEX_EF] == 0 && got[c] == 0
      ensures rc != -22 ==> rc == |Changed(old(pages.Active()), pages.Active())|
      ensures old(pages.history) <= pages.history
      ensures forall i :: |old(pages.history)| <= i < |pages.history| ==>
                Reaches(orig, pages.history[i], stubs)
    {
      ghost var r, vs := State(), Vectors(vecs, vstart, vend);
      ProcessAllKeeps(orig, r, stubs, vs);
      DirtyCountsRedirections(r, stubs, vs);
      rc := Init(cpu, vecs, vstart, vend, page, order, got);
      ghost var done := if rc == -EINVAL then [] else vs;
      ProcessAllKeeps(orig, r, stubs, done);
      assert State() == ProcessAll(r, stubs, done).r;
      forall i | |old(pages.history)| <= i < |pages.history| ensures Reaches(orig, pages.history[i], stubs) {
        EveryInstantReachesOriginal(orig, r, stubs, vs, pages.history[i]);
      }
    }
  }
}
