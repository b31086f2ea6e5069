/** Interrupt descriptor tables: gates, and the pages that hold cloned tables. */
module Idt {
  import opened Machine

  const IDT_ENTRIES := 256

  type U16 = x: int | 0 <= x < 0x1_0000
  type U32 = x: int | 0 <= x < 0x1_0000_0000

  /** A gate descriptor: the handler's address in three pieces, and the rest. */
  datatype Gate = Gate(offsetLow: U16, offsetMiddle: U16, offsetHigh: U32,
                       segment: U16, ist: nat, typ: nat, dpl: nat, present: bool)

  function GateOffset(g: Gate): Word {
    g.offsetLow + 0x1_0000 * g.offsetMiddle + 0x1_0000_0000 * g.offsetHigh
  }

  function GateSetOffset(g: Gate, addr: Word): Gate {
    g.(offsetLow := addr % 0x1_0000,
       offsetMiddle := (addr / 0x1_0000) % 0x1_0000,
       offsetHigh := addr / 0x1_0000_0000)
  }

  /** Splitting an address over a gate and recombining it are inverse. */
  lemma OffsetRoundTrip(g: Gate, addr: Word)
    ensures GateOffset(GateSetOffset(g, addr)) == addr
    ensures GateSetOffset(g, GateOffset(g)) == g
    ensures var g' := GateSetOffset(g, addr);
            && addr == g'.offsetLow + 0x1_0000 * g'.offsetMiddle + 0x1_0000_0000 * g'.offsetHigh
            && g'.segment == g.segment && g'.ist == g.ist && g'.typ == g.typ && g'.dpl == g.dpl
            && g'.present == g.present
  {
    var q := addr / 0x1_0000;
    assert addr / 0x1_0000_0000 == q / 0x1_0000;
    assert q == 0x1_0000 * (q / 0x1_0000) + q % 0x1_0000;
    var o := GateOffset(g);
    assert o == g.offsetLow + 0x1_0000 * (g.offsetMiddle + 0x1_0000 * g.offsetHigh);
    assert o / 0x1_0000 == g.offsetMiddle + 0x1_0000 * g.offsetHigh;
  }

  type Table = seq<Gate>

  /** One instant of the machine: what each CPU's IDTR points at, the clone
      pages not yet freed, the table each CPU would dispatch through, and the
      saved handlers its stubs would read. */
  datatype Instant = Instant(idtr: seq<Word>, clones: set<Word>, seen: seq<Table>, isrs: seq<Word>)

  ghost predicate SafeInstant(boot: Word, i: Instant) {
    && boot !in i.clones
    && forall c :: 0 <= c < |i.idtr| ==> i.idtr[c] == boot || i.idtr[c] in i.clones
  }

  /** Every CPU dispatches through one of two complete tables, with these saved
      handlers. */
  ghost predicate SeesOneOf(i: Instant, t: Table, t': Table, isrs: seq<Word>) {
    i.isrs == isrs && forall c :: 0 <= c < |i.seen| ==> i.seen[c] == t || i.seen[c] == t'
  }

  ghost function SeenBy(idtr: seq<Word>, tables: map<Word, Table>): (seen: seq<Table>)
    requires forall c :: 0 <= c < |idtr| ==> idtr[c] in tables
    ensures |seen| == |idtr| && forall c :: 0 <= c < |idtr| ==> seen[c] == tables[idtr[c]]
  {
    if idtr == [] then [] else SeenBy(idtr[..|idtr| - 1], tables) + [tables[idtr[|idtr| - 1]]]
  }

  /** The globals of the IDT adaptor, its pages, and the CPUs' IDTRs. */
  class IdtAdaptor {
    const boot: Word                  // address of the kernel's own table
    var tables: map<Word, Table>
    var clones: set<Word>             // allocated clone pages
    var origIdt: Word                 // 0 stands for NULL
    var currentIdt: Word
    var idtr: seq<Word>
    ghost var isrs: seq<Word>         // what the stubs read; written by the adaptor of EfAdaptor
    ghost var history: seq<Instant>   // every instant so far that differs in one of these

    /** The address every CPU's IDTR holds between calls. */
    ghost function ActiveIdt(): Word
      reads this
    {
      if currentIdt == 0 then boot else currentIdt
    }

    ghost function Active(): Table
      reads this
      requires ActiveIdt() in tables
    {
      tables[ActiveIdt()]
    }

    ghost predicate Pages()
      reads this
    {
      && boot != 0 && boot !in clones && 0 !in clones
      && boot in tables && clones <= tables.Keys
      && (origIdt == 0 || origIdt == boot)
      && (forall p :: p in tables ==> |tables[p]| == IDT_ENTRIES)
      && |idtr| > 0
      && (forall i :: 0 <= i < |history| ==> SafeInstant(boot, history[i]))
    }

    /** The present instant, as the last one recorded. */
    ghost predicate Recorded()
      reads this
    {
      && (forall c :: 0 <= c < |idtr| ==> idtr[c] in tables)
      && history != []
      && history[|history| - 1] == Instant(idtr, clones, SeenBy(idtr, tables), isrs)
    }

    /** Between calls all CPUs use the active table and no other clone exists. */
    ghost predicate Valid()
      reads this
    {
      && Pages() && Recorded()
      && (forall c :: 0 <= c < |idtr| ==> idtr[c] == ActiveIdt())
      && clones == (if currentIdt == 0 then {} else {currentIdt})
    }

    /** As `Valid`, with one clone handed out and not yet activated. */
    ghost predicate ValidWithClone(idt: Word)
      reads this
    {
      && Pages() && Recorded()
      && (forall c :: 0 <= c < |idtr| ==> idtr[c] == ActiveIdt())
      && idt != 0 && idt != currentIdt
      && clones == (if currentIdt == 0 then {idt} else {currentIdt, idt})
    }

    constructor (boot: Word, table: Table, cpus: nat)
      requires boot != 0 && |table| == IDT_ENTRIES && cpus > 0
      ensures Valid() && Active() == table && |idtr| == cpus && |history| == 1
      ensures this.boot == boot && isrs == seq(IDT_ENTRIES, _ => 0)
    {
      this.boot := boot;
      tables := map[boot := table];
      clones := {};
      origIdt, currentIdt := 0, 0;
      idtr := seq(cpus, _ => boot);
      isrs := seq(IDT_ENTRIES, _ => 0);
      new;
      history := [Instant(idtr, clones, SeenBy(idtr, tables), isrs)];
    }

    /** Record the present instant; called after every visible change. */
    ghost method Observe()
      requires Pages()
      requires forall c :: 0 <= c < |idtr| ==> idtr[c] == boot || idtr[c] in clones
      modifies `history
      ensures Pages()
      ensures history == old(history) + [Instant(idtr, clones, SeenBy(idtr, tables), isrs)]
    {
      history := history + [Instant(idtr, clones, SeenBy(idtr, tables), isrs)];
    }

    /** The stubs read other handlers from now on. */
    ghost method NoteHandlers(idt: Word, isrs': seq<Word>)
      requires ValidWithClone(idt)
      modifies `isrs, `history
      ensures ValidWithClone(idt) && isrs == isrs'
      ensures |history| == |old(history)| + 1 && old(history) <= history
      ensures SeesOneOf(history[|old(history)|], Active(), Active(), isrs)
    {
      isrs := isrs';
      Observe();
    }

    /** `free_pages` of a clone: it must be allocated, and no CPU may use it. */
    method FreePage(p: Word)
      requires Pages() && p in clones
      requires forall c :: 0 <= c < |idtr| ==> idtr[c] != p && (idtr[c] == boot || idtr[c] in clones)
      modifies `clones, `history
      ensures Pages() && clones == old(clones) - {p}
      ensures history == old(history) + [Instant(idtr, clones, SeenBy(idtr, tables), isrs)]
    {
      clones := clones - {p};
      Observe();
    }

    /** `idt_adaptor_clone`, given the page the allocator hands out (0 if none). */
    method Clone(cpu: nat, page: Word) returns (idt: Word)
      requires Valid() && cpu < |idtr|
      requires page != boot && page !in clones
      modifies `tables, `clones, `origIdt, `history
      ensures idt == page
      ensures page == 0 ==> Valid() && Active() == old(Active()) && history == old(history)
      ensures page != 0 ==> ValidWithClone(idt) && Active() == old(Active()) && tables[idt] == old(Active())
      ensures page != 0 ==> |history| == |old(history)| + 1 && old(history) <= history
                            && SeesOneOf(history[|old(history)|], old(Active()), old(Active()), isrs)
    {
      if page == 0 {
        return 0;
      }
      clones := clones + {page};
      idt := page;
      var src;
      if currentIdt != 0 {
        src := currentIdt;
      } else {
        origIdt := if origIdt == 0 then idtr[cpu] else origIdt;
        src := origIdt;
      }
      tables := tables[idt := tables[src]];
      Observe();
    }

    /** `write_idt_entry` on a clone that is not in use. */
    method WriteGate(idt: Word, v: nat, g: Gate)
      requires ValidWithClone(idt) && v < IDT_ENTRIES
      modifies `tables
      ensures ValidWithClone(idt) && tables == old(tables)[idt := old(tables)[idt][v := g]]
      ensures Active() == old(Active())
    {
      ghost var seen := SeenBy(idtr, tables);
      tables := tables[idt := tables[idt][v := g]];
      assert SeenBy(idtr, tables) == seen;
    }

    /** `load_idt_wrapper` on one CPU. */
    method LoadIdt(cpu: nat, idt: Word)
      requires Pages() && cpu < |idtr| && idt in clones
      requires forall c :: 0 <= c < |idtr| ==> idtr[c] == boot || idtr[c] in clones
      modifies `idtr, `history
      ensures Pages() && idtr == old(idtr)[cpu := idt]
      ensures history == old(history) + [Instant(idtr, clones, SeenBy(idtr, tables), isrs)]
    {
      idtr := idtr[cpu := idt];
      Observe();
    }

    /** Every CPU loads the new table, in whatever order the cross-calls run. */
    method LoadEverywhere(idt: Word, order: seq<nat>)
      requires ValidWithClone(idt)
      requires forall c :: 0 <= c < |idtr| <==> c in order
      modifies `idtr, `history
      ensures Pages() && Recorded() && |idtr| == |old(idtr)|
      ensures forall c :: 0 <= c < |idtr| ==> idtr[c] == idt
      ensures old(history) <= history
      ensures forall i :: |old(history)| <= i < |history| ==> SeesOneOf(history[i], Active(), tables[idt], isrs)
    {
      ghost var was := ActiveIdt();
      for k := 0 to |order|
        invariant Pages() && Recorded() && |idtr| == |old(idtr)|
        invariant old(history) <= history
        invariant forall i :: |old(history)| <= i < |history| ==> SeesOneOf(history[i], tables[was], tables[idt], isrs)
        invariant forall c :: 0 <= c < |idtr| ==> idtr[c] == was || idtr[c] == idt
        invariant forall c :: 0 <= c < |idtr| && c in order[..k] ==> idtr[c] == idt
      {
        assert order[k] in order;
        LoadIdt(order[k], idt);
        assert order[..k + 1] == order[..k] + [order[k]];
      }
      assert order[..|order|] == order;
    }

    /** `idt_adaptor_activate`: the previous clone is freed only once no CPU can
        dispatch through it. */
    method Activate(idt: Word, order: seq<nat>)
      requires ValidWithClone(idt)
      requires forall c :: 0 <= c < |idtr| <==> c in order
      modifies `clones, `currentIdt, `idtr, `history
      ensures Valid() && currentIdt == idt && |idtr| == |old(idtr)|
      ensures old(history) <= history
      ensures forall i :: |old(history)| <= i < |history| ==> SeesOneOf(history[i], old(Active()), Active(), isrs)
    {
      LoadEverywhere(idt, order);
      if currentIdt != 0 {
        FreePage(currentIdt);
      }
      currentIdt := idt;
    }

    /** `idt_adaptor_release`. */
    method Release(idt: Word)
      requires ValidWithClone(idt)
      modifies `clones, `history
      ensures Valid() && Active() == old(Active())
      ensures |history| == |old(history)| + 1 && old(history) <= history
      ensures SeesOneOf(history[|old(history)|], Active(), Active(), isrs)
    {
      FreePage(idt);
    }
  }
}
