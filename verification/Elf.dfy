/** kld's shared-library stubs: string tables, symbol tables, and a reader. */
module Elf {
  import opened Machine

  const NUL := '\0'
  const TWO32 := 0x1_0000_0000

  predicate CString(s: string) {
    NUL !in s
  }

  ghost predicate CStrings(names: seq<string>) {
    forall i :: 0 <= i < |names| ==> CString(names[i])
  }

  // ---- String tables ------------------------------------------------------

  /** A string table: an initial empty string, then each name with its NUL. */
  function Packed(names: seq<string>): seq<char> {
    if names == [] then [NUL]
    else Packed(names[..|names| - 1]) + names[|names| - 1] + [NUL]
  }

  /** The tally kept while names are collected. */
  function NameLen(names: seq<string>): nat {
    if names == [] then 0 else NameLen(names[..|names| - 1]) + |names[|names| - 1]| + 1
  }

  /** Where name `i` starts. */
  function Offset(names: seq<string>, i: nat): nat
    requires i <= |names|
  {
    |Packed(names[..i])|
  }

  /** `elf_strptr`: the string that starts at `off`. */
  function StrAt(buf: seq<char>, off: nat): string
    decreases |buf| - off
  {
    if off >= |buf| || buf[off] == NUL then "" else [buf[off]] + StrAt(buf, off + 1)
  }

  lemma {:induction false} PackedLength(names: seq<string>)
    ensures |Packed(names)| == NameLen(names) + 1
    decreases |names|
  {
    if names == [] {
    } else {
      PackedLength(names[..|names| - 1]);
    }
  }

  lemma {:induction false} StrAtReads(a: seq<char>, s: string, b: seq<char>, k: nat)
    requires CString(s) && k <= |s|
    ensures StrAt(a + s + [NUL] + b, |a| + k) == s[k..]
    decreases |s| - k
  {
    var buf := a + s + [NUL] + b;
    if k < |s| {
      StrAtReads(a, s, b, k + 1);
      assert buf[|a| + k] == s[k] && s[k] in s;
    } else {
      assert buf[|a| + k] == NUL;
    }
  }

  /** What is packed first stays in front. */
  lemma {:induction false} PackedPrefix(names: seq<string>, i: nat) returns (rest: seq<char>)
    requires i < |names|
    ensures Packed(names) == Packed(names[..i]) + names[i] + [NUL] + rest
    decreases |names|
  {
    var init, last := names[..|names| - 1], names[|names| - 1];
    if i == |names| - 1 {
      rest := [];
    } else {
      assert init[..i] == names[..i];
      var r := PackedPrefix(init, i);
      rest := r + last + [NUL];
    }
  }

  /** Every offset reads back its name. */
  lemma OffsetReadsName(names: seq<string>, i: nat)
    requires CStrings(names) && i < |names|
    ensures StrAt(Packed(names), Offset(names, i)) == names[i]
    ensures 0 < Offset(names, i) < |Packed(names)|
  {
    var rest := PackedPrefix(names, i);
    StrAtReads(Packed(names[..i]), names[i], rest, 0);
    PackedLength(names[..i]);
  }

  /** There is room for name `i` in a buffer sized for all of them. */
  lemma {:induction false} Tallied(names: seq<string>, i: nat)
    requires i < |names|
    ensures |Packed(names[..i])| + |names[i]| + 1 <= NameLen(names) + 1
    decreases |names|
  {
    PackedLength(names[..i]);
    var init := names[..|names| - 1];
    if i == |names| - 1 {
    } else {
      assert init[..i] == names[..i];
      Tallied(init, i);
    }
  }

  class StrTab {
    var buf: array<char>
    var top: nat

    constructor (size: nat)
      ensures fresh(buf) && buf.Length == size && top == 0
    {
      buf := new char[size](_ => NUL);
      top := 0;
    }

    /** `add_str`: the buffer must have room for the string and its NUL. */
    method AddStr(s: string) returns (off: nat)
      requires CString(s) && top + |s| + 1 <= buf.Length
      modifies this`top, buf
      ensures off == old(top) && top == old(top) + |s| + 1
      ensures buf[..top] == old(buf[..top]) + s + [NUL]
    {
      off := top;
      for i := 0 to |s|
        invariant top == off && buf[..off] == old(buf[..top])
        invariant buf[off..off + i] == s[..i]
      {
        buf[off + i] := s[i];
        assert buf[off..off + i + 1] == buf[off..off + i] + [s[i]];
      }
      buf[off + |s|] := NUL;
      top := top + |s| + 1;
      assert buf[..top] == buf[..off] + buf[off..off + |s|] + [NUL];
    }

    /** Fill the table from empty; it then is `Packed(names)`, and a buffer of
        the tallied size plus one is filled exactly to its end. */
    method Fill(names: seq<string>) returns (offsets: seq<nat>)
      requires top == 0 && CStrings(names) && NameLen(names) + 1 <= buf.Length
      modifies this`top, buf
      ensures buf == old(buf)
      ensures top <= buf.Length && buf[..top] == Packed(names)
      ensures top == buf.Length <==> buf.Length == NameLen(names) + 1
      ensures |offsets| == |names| && forall i :: 0 <= i < |names| ==> offsets[i] == Offset(names, i)
    {
      var zero := AddStr("");
      offsets := [];
      for i := 0 to |names|
        invariant buf == old(buf) && top <= buf.Length
        invariant buf[..top] == Packed(names[..i]) && |offsets| == i
        invariant forall j :: 0 <= j < i ==> offsets[j] == Offset(names, j)
      {
        assert names[..i + 1][..i] == names[..i];
        Tallied(names, i);
        var off := AddStr(names[i]);
        offsets := offsets + [off];
      }
      assert names[..|names|] == names;
      PackedLength(names);
    }
  }

  // ---- Images -------------------------------------------------------------

  datatype SymType = TypeFunc | TypeData | TypeRoData | TypeBss | TypeAbs
  datatype SymBind = BindGlobal | BindLocal | BindWeak

  /** `SymbolEntry`. */
  datatype SymbolEntry = SymbolEntry(name: string, addr: Word, size: Word, bind: SymBind, typ: SymType)

  datatype SectionType = ShtNull | ShtStrtab | ShtSymtab | ShtDynsym | ShtHash | ShtDynamic

  const SHN_UNDEF := 0
  const SHN_ABS := 0xfff1

  /** `Elf64_Sym`; `name` is a 32-bit offset into the linked string table. */
  datatype Sym = Sym(name: nat, value: Word, size: Word, shndx: nat, weak: bool, func: bool)

  /** A section: the offset of its name, its type, the section it refers to,
      and its data as characters or as symbols. */
  datatype Section = Section(name: nat, typ: SectionType, link: nat, chars: seq<char>, syms: seq<Sym>)

  type Image = seq<Section>

  const SECTION_NAMES: seq<string> := [".shstrtab", ".strtab", ".symtab", ".dynstr", ".dynsym", ".hash", ".dynamic"]

  function Names(entries: seq<SymbolEntry>): (ns: seq<string>)
    ensures |ns| == |entries| && forall i :: 0 <= i < |entries| ==> ns[i] == entries[i].name
  {
    seq(|entries|, i requires 0 <= i < |entries| => entries[i].name)
  }

  /** The symbol written for an entry; the offset is cut to 32 bits. */
  function SymFor(e: SymbolEntry, off: nat): Sym {
    Sym(off % TWO32, e.addr, e.size, SHN_ABS, e.bind.BindWeak?, e.typ.TypeFunc?)
  }

  const NULL_SYM := Sym(0, 0, 0, SHN_UNDEF, false, false)

  /** The symbol table: the null symbol, then one symbol per entry. */
  function SymTable(entries: seq<SymbolEntry>): (t: seq<Sym>)
    ensures |t| == |entries| + 1
  {
    [NULL_SYM] + seq(|entries|, i requires 0 <= i < |entries| => SymFor(entries[i], Offset(Names(entries), i)))
  }

  /** The sections in the order they are created, after the null one, from the
      string tables, the symbol table, and the offsets of the section names. */
  function Assemble(shStrs: seq<char>, sh: seq<nat>, strs: seq<char>, syms: seq<Sym>): (image: Image)
    requires |sh| == |SECTION_NAMES|
    ensures |image| == 8
  {
    [ Section(0, ShtNull, 0, [], []),
      Section(sh[0], ShtStrtab, 0, shStrs, []),
      Section(sh[1], ShtStrtab, 0, strs, []),
      Section(sh[3], ShtStrtab, 0, strs, []),
      Section(sh[2], ShtSymtab, 2, [], syms),
      Section(sh[4], ShtDynsym, 3, [], syms),
      Section(sh[5], ShtHash, 5, [], []),
      Section(sh[6], ShtDynamic, 0, [], []) ]
  }

  function Offsets(names: seq<string>): (os: seq<nat>)
    ensures |os| == |names| && forall i :: 0 <= i < |names| ==> os[i] == Offset(names, i)
  {
    seq(|names|, i requires 0 <= i < |names| => Offset(names, i))
  }

  function ImageOf(entries: seq<SymbolEntry>): (image: Image)
    ensures |image| == 8
  {
    Assemble(Packed(SECTION_NAMES), Offsets(SECTION_NAMES), Packed(Names(entries)), SymTable(entries))
  }

  /** The symbol table, symbol by symbol. */
  lemma SymTableIs(entries: seq<SymbolEntry>, offsets: seq<nat>, t: seq<Sym>)
    requires |offsets| == |entries| && offsets == Offsets(Names(entries))
    requires |t| == |entries| + 1 && t[0] == NULL_SYM
    requires forall k :: 1 <= k < |t| ==> t[k] == SymFor(entries[k - 1], offsets[k - 1])
    ensures t == SymTable(entries)
  {
    forall k | 0 <= k < |t| ensures t[k] == SymTable(entries)[k] {
    }
  }

  /** The symbol-table loop of `elf_generate_elf_mmap`. */
  method FillSymbols(entries: seq<SymbolEntry>, offsets: seq<nat>) returns (syms: array<Sym>)
    requires |offsets| == |entries| && offsets == Offsets(Names(entries))
    ensures fresh(syms) && syms[..] == SymTable(entries)
  {
    syms := new Sym[|entries| + 1](_ => NULL_SYM);
    for i := 0 to |entries|
      invariant syms[0] == NULL_SYM
      invariant forall k :: 1 <= k <= i ==> syms[k] == SymFor(entries[k - 1], offsets[k - 1])
    {
      syms[i + 1] := SymFor(entries[i], offsets[i]);
    }
    SymTableIs(entries, offsets, syms[..]);
  }

  /** The section-name table, its buffer sized by a loop over the names. */
  method SectionNameTable() returns (shStr: StrTab, sh: seq<nat>)
    ensures fresh(shStr) && fresh(shStr.buf)
    ensures shStr.top == shStr.buf.Length && shStr.buf[..] == Packed(SECTION_NAMES) && sh == Offsets(SECTION_NAMES)
  {
    var len := 0;
    for i := 0 to |SECTION_NAMES|
      invariant len == NameLen(SECTION_NAMES[..i])
    {
      assert SECTION_NAMES[..i + 1][..i] == SECTION_NAMES[..i];
      len := len + |SECTION_NAMES[i]| + 1;
    }
    assert SECTION_NAMES[..|SECTION_NAMES|] == SECTION_NAMES;
    shStr := new StrTab(len + 1);
    sh := shStr.Fill(SECTION_NAMES);
    assert shStr.buf[..shStr.top] == shStr.buf[..];
  }

  /** `elf_generate_elf_mmap`, given the tally of the name lengths; `spare` bytes
      of the buffer for the symbol names stay unused. */
  method Generate(entries: seq<SymbolEntry>, nmstrlen: nat) returns (image: Image, ghost spare: nat)
    requires CStrings(Names(entries)) && NameLen(Names(entries)) <= nmstrlen
    ensures image == ImageOf(entries)
    ensures spare == nmstrlen - NameLen(Names(entries))
  {
    var shStr, sh := SectionNameTable();
    var symStr := new StrTab(nmstrlen + 1);
    var offsets := symStr.Fill(Names(entries));
    spare := symStr.buf.Length - symStr.top;
    PackedLength(Names(entries));
    var syms := FillSymbols(entries, offsets);
    image := Assemble(shStr.buf[..], sh, symStr.buf[..symStr.top], syms[..]);
  }

  // ---- Reading ------------------------------------------------------------

  /** Every symbol section refers to a section of the image. */
  ghost predicate Linked(image: Image) {
    forall s :: 0 <= s < |image| ==> image[s].link < |image|
  }

  predicate HasSymbols(s: Section) {
    s.typ.ShtSymtab? || s.typ.ShtDynsym?
  }

  /** `seInit`. */
  function EntryOf(image: Image, s: Section, y: Sym): SymbolEntry
    requires s.link < |image|
  {
    SymbolEntry(StrAt(image[s.link].chars, y.name), if y.shndx == SHN_UNDEF then 0 else y.value, 0, BindGlobal, TypeAbs)
  }

  predicate Skipped(y: Sym) {
    y.name == 0 && y.value == 0
  }

  /** The entries read from the first `n` symbols of a section. */
  function ReadSection(image: Image, s: Section, n: nat): seq<SymbolEntry>
    requires s.link < |image| && n <= |s.syms|
  {
    if n == 0 then []
    else
      ReadSection(image, s, n - 1) + if Skipped(s.syms[n - 1]) then [] else [EntryOf(image, s, s.syms[n - 1])]
  }

  /** The entries read from the first `n` sections. */
  function ReadImage(image: Image, n: nat): seq<SymbolEntry>
    requires Linked(image) && n <= |image|
  {
    if n == 0 then []
    else
      var s := image[n - 1];
      ReadImage(image, n - 1) + if HasSymbols(s) then ReadSection(image, s, |s.syms|) else []
  }

  /** What reading keeps of an entry: its name and address. */
  function Plain(e: SymbolEntry): SymbolEntry {
    SymbolEntry(e.name, e.addr, 0, BindGlobal, TypeAbs)
  }

  function PlainAll(entries: seq<SymbolEntry>): (r: seq<SymbolEntry>)
    ensures |r| == |entries| && forall i :: 0 <= i < |entries| ==> r[i] == Plain(entries[i])
  {
    seq(|entries|, i requires 0 <= i < |entries| => Plain(entries[i]))
  }

  /** The offset of name `i` fits 32 bits; or what lies at the cut offset is the
      same name, and the symbol does not look empty. */
  predicate Addressable(entries: seq<SymbolEntry>, i: nat)
    requires i < |entries|
  {
    var names := Names(entries);
    var cut := Offset(names, i) % TWO32;
    || Offset(names, i) < TWO32
    || (StrAt(Packed(names), cut) == names[i] && (cut != 0 || entries[i].addr != 0))
  }

  ghost predicate AllAddressable(entries: seq<SymbolEntry>) {
    forall i :: 0 <= i < |entries| ==> Addressable(entries, i)
  }

  /** A written symbol is kept and reads back as its entry, even one with address
      0 or an empty name, exactly if it is addressable. */
  lemma SymbolRoundTrip(entries: seq<SymbolEntry>, image: Image, s: Section, i: nat)
    requires CStrings(Names(entries)) && i < |entries|
    requires s.link < |image| && image[s.link].chars == Packed(Names(entries)) && s.syms == SymTable(entries)
    ensures !Skipped(s.syms[i + 1]) && EntryOf(image, s, s.syms[i + 1]) == Plain(entries[i]) <==>
            Addressable(entries, i)
  {
    var names := Names(entries);
    var off := Offset(names, i);
    OffsetReadsName(names, i);
    assert off < TWO32 ==> off % TWO32 == off;
    assert s.syms[i + 1] == SymFor(entries[i], off);
  }

  /** The symbol after the first `i` real ones is kept, as `plain[i]`. */
  ghost predicate ReadsAs(image: Image, s: Section, plain: seq<SymbolEntry>, i: nat)
    requires s.link < |image| && |s.syms| == |plain| + 1 && i < |plain|
  {
    !Skipped(s.syms[i + 1]) && EntryOf(image, s, s.syms[i + 1]) == plain[i]
  }

  /** Reading symbol by symbol skips the first; it gives `plain` exactly if it
      keeps each other one as the entry in its place. */
  lemma {:induction false} ReadsInOrder(image: Image, s: Section, plain: seq<SymbolEntry>, n: nat)
    requires s.link < |image| && |s.syms| == |plain| + 1 && n <= |plain| && Skipped(s.syms[0])
    ensures |ReadSection(image, s, n + 1)| <= n
    ensures ReadSection(image, s, n + 1) == plain[..n] <==> forall i :: 0 <= i < n ==> ReadsAs(image, s, plain, i)
    decreases n
  {
    if n == 0 {
      assert ReadSection(image, s, 0) == [];
    } else {
      ReadsInOrder(image, s, plain, n - 1);
      var rest := ReadSection(image, s, n);
      assert plain[..n] == plain[..n - 1] + [plain[n - 1]];
      if ReadSection(image, s, n + 1) == plain[..n] {
        assert rest == plain[..n][..n - 1] == plain[..n - 1];
        assert plain[..n][n - 1] == plain[n - 1];
      }
      if forall i :: 0 <= i < n ==> ReadsAs(image, s, plain, i) {
        assert ReadsAs(image, s, plain, n - 1);
      }
    }
  }

  lemma SectionRoundTrip(entries: seq<SymbolEntry>, image: Image, s: Section)
    requires CStrings(Names(entries))
    requires s.link < |image| && image[s.link].chars == Packed(Names(entries)) && s.syms == SymTable(entries)
    ensures |ReadSection(image, s, |s.syms|)| <= |entries|
    ensures ReadSection(image, s, |s.syms|) == PlainAll(entries) <==> AllAddressable(entries)
  {
    var plain := PlainAll(entries);
    forall i | 0 <= i < |entries| ensures ReadsAs(image, s, plain, i) <==> Addressable(entries, i) {
      SymbolRoundTrip(entries, image, s, i);
    }
    ReadsInOrder(image, s, plain, |plain|);
    assert plain[..|plain|] == plain;
  }

  lemma TwiceEqual<T>(a: seq<T>, b: seq<T>, c: seq<T>)
    requires |a| <= |c| && |b| <= |c|
    ensures a + b == c + c <==> a == c && b == c
  {
    if a + b == c + c {
      assert a == (a + b)[..|c|] && b == (a + b)[|c|..];
    }
  }

  /** Only the two symbol sections contribute. */
  lemma AssembledRoundTrip(shStrs: seq<char>, sh: seq<nat>, entries: seq<SymbolEntry>)
    requires |sh| == |SECTION_NAMES| && CStrings(Names(entries))
    ensures var image := Assemble(shStrs, sh, Packed(Names(entries)), SymTable(entries));
            && Linked(image)
            && (ReadImage(image, |image|) == PlainAll(entries) + PlainAll(entries) <==> AllAddressable(entries))
  {
    var image := Assemble(shStrs, sh, Packed(Names(entries)), SymTable(entries));
    assert Linked(image);
    SectionRoundTrip(entries, image, image[4]);
    SectionRoundTrip(entries, image, image[5]);
    var a := ReadSection(image, image[4], |image[4].syms|);
    var b := ReadSection(image, image[5], |image[5].syms|);
    assert ReadImage(image, 1) == [];
    assert ReadImage(image, 2) == [];
    assert ReadImage(image, 3) == [];
    assert ReadImage(image, 4) == [];
    assert ReadImage(image, 5) == a;
    assert ReadImage(image, 6) == a + b;
    assert ReadImage(image, 7) == ReadImage(image, 6);
    TwiceEqual(a, b, PlainAll(entries));
  }

  /** Reading a generated image yields the entries twice, in order, exactly if
      all are addressable. */
  lemma ElfRoundTrip(entries: seq<SymbolEntry>)
    requires CStrings(Names(entries))
    ensures var image := ImageOf(entries);
            && Linked(image)
            && (ReadImage(image, |image|) == PlainAll(entries) + PlainAll(entries) <==> AllAddressable(entries))
  {
    AssembledRoundTrip(Packed(SECTION_NAMES), Offsets(SECTION_NAMES), entries);
  }

  /** In particular, entry by entry: name and address come back in both halves,
      and everything else as `seInit` leaves it. */
  lemma EntriesReadBack(entries: seq<SymbolEntry>)
    requires CStrings(Names(entries)) && AllAddressable(entries)
    ensures var image, n := ImageOf(entries), |entries|;
            && Linked(image)
            && var read := ReadImage(image, |image|);
            && |read| == 2 * n
            && forall k :: 0 <= k < 2 * n ==>
                 var e := entries[if k < n then k else k - n];
                 && read[k].name == e.name && read[k].addr == e.addr
                 && read[k].size == 0 && read[k].bind == BindGlobal && read[k].typ == TypeAbs
  {
    ElfRoundTrip(entries);
  }

  /** The symbol written for an entry, in both symbol sections. */
  lemma SymbolsAsWritten(entries: seq<SymbolEntry>, i: nat)
    requires i < |entries|
    ensures var image, e := ImageOf(entries), entries[i];
            && image[4].syms == image[5].syms && |image[4].syms| == |entries| + 1
            && var y := image[4].syms[i + 1];
            && y.value == e.addr && y.size == e.size && y.shndx == 0xfff1
            && (y.weak <==> e.bind == BindWeak) && (y.func <==> e.typ == TypeFunc)
  {
  }

  /** Section `k` has this name, type and link. */
  ghost predicate IsSection(image: Image, k: nat, name: string, typ: SectionType, link: nat)
    requires 1 < |image| && k < |image|
  {
    StrAt(image[1].chars, image[k].name) == name && image[k].typ == typ && image[k].link == link
  }

  lemma AssembledSections(shStrs: seq<char>, sh: seq<nat>, strs: seq<char>, syms: seq<Sym>)
    requires |sh| == |SECTION_NAMES|
    requires forall i :: 0 <= i < |sh| ==> StrAt(shStrs, sh[i]) == SECTION_NAMES[i]
    ensures var image := Assemble(shStrs, sh, strs, syms);
            && image[0].typ == ShtNull
            && IsSection(image, 1, ".shstrtab", ShtStrtab, 0)
            && IsSection(image, 2, ".strtab", ShtStrtab, 0)
            && IsSection(image, 3, ".dynstr", ShtStrtab, 0)
            && IsSection(image, 4, ".symtab", ShtSymtab, 2)
            && IsSection(image, 5, ".dynsym", ShtDynsym, 3)
            && IsSection(image, 6, ".hash", ShtHash, 5)
            && IsSection(image, 7, ".dynamic", ShtDynamic, 0)
            && image[2].chars == image[3].chars == strs
  {
  }

  /** The sections by the names the section-name table gives them. */
  lemma SectionsAreNamed(entries: seq<SymbolEntry>)
    ensures var image := ImageOf(entries);
            && image[0].typ == ShtNull
            && IsSection(image, 1, ".shstrtab", ShtStrtab, 0)
            && IsSection(image, 2, ".strtab", ShtStrtab, 0)
            && IsSection(image, 3, ".dynstr", ShtStrtab, 0)
            && IsSection(image, 4, ".symtab", ShtSymtab, 2)
            && IsSection(image, 5, ".dynsym", ShtDynsym, 3)
            && IsSection(image, 6, ".hash", ShtHash, 5)
            && IsSection(image, 7, ".dynamic", ShtDynamic, 0)
            && image[2].chars == image[3].chars == Packed(Names(entries))
  {
    assert CStrings(SECTION_NAMES);
    var sh := Offsets(SECTION_NAMES);
    forall i | 0 <= i < |sh| ensures StrAt(Packed(SECTION_NAMES), sh[i]) == SECTION_NAMES[i] {
      OffsetReadsName(SECTION_NAMES, i);
    }
    AssembledSections(Packed(SECTION_NAMES), sh, Packed(Names(entries)), SymTable(entries));
  }

  /** So it does whenever the string table has at most 2^32 bytes. */
  lemma SmallTablesAreAddressable(entries: seq<SymbolEntry>)
    requires CStrings(Names(entries)) && NameLen(Names(entries)) + 1 <= TWO32
    ensures AllAddressable(entries)
  {
    PackedLength(Names(entries));
    forall i | 0 <= i < |entries| ensures Addressable(entries, i) {
      OffsetReadsName(Names(entries), i);
    }
  }

  /** An input past that: a first name so long that the offset of the second is
      2^32, which is cut to that of the empty string. */
  lemma CutOffsetLosesName(first: SymbolEntry, second: SymbolEntry)
    requires CString(first.name) && |first.name| == TWO32 - 2 && second.name == "b"
    ensures var entries := [first, second];
            var image := ImageOf(entries);
            Linked(image) && ReadImage(image, |image|) != PlainAll(entries) + PlainAll(entries)
  {
    var entries := [first, second];
    var names := Names(entries);
    assert names[..1] == [first.name];
    PackedLength(names[..1]);
    assert NameLen([first.name]) == NameLen([]) + |first.name| + 1 by {
      assert [first.name][..0] == [];
    }
    assert Offset(names, 1) == TWO32;
    var rest := PackedPrefix(names, 0);
    assert Packed(names[..0]) == [NUL];
    assert !Addressable(entries, 1);
    ElfRoundTrip(entries);
  }

  // ---- Tables that grow ---------------------------------------------------

  lemma NameLenAppends(entries: seq<SymbolEntry>, e: SymbolEntry)
    ensures NameLen(Names(entries + [e])) == NameLen(Names(entries)) + |e.name| + 1
  {
    var ns := Names(entries + [e]);
    assert ns[..|ns| - 1] == Names(entries);
  }

  /** A table of entries: allocated slots, how many are used, and the tally of
      the names with their NULs. */
  datatype Table = Table(slots: seq<SymbolEntry>, used: nat, nmstrlen: nat)

  ghost predicate Sound(t: Table) {
    t.used <= |t.slots| && t.nmstrlen == NameLen(Names(t.slots[..t.used]))
  }

  ghost function Contents(t: Table): seq<SymbolEntry>
    requires Sound(t)
  {
    t.slots[..t.used]
  }

  const ZEROED := SymbolEntry("", 0, 0, BindGlobal, TypeFunc)
  const EMPTY := Table([], 0, 0)

  /** A full table is reallocated to twice its size, or 1024 slots at first. */
  function Grown(t: Table): (t': Table)
    requires Sound(t)
    ensures Sound(t') && Contents(t') == Contents(t) && t'.used < |t'.slots|
  {
    if t.used == |t.slots| then
      var more := if t.used == 0 then 1024 else t.used;
      var t' := t.(slots := t.slots + seq(more, _ => ZEROED));
      assert t'.slots[..t.used] == t.slots[..t.used];
      t'
    else t
  }

  function Push(t: Table, e: SymbolEntry): (t': Table)
    requires Sound(t)
    ensures Sound(t') && Contents(t') == Contents(t) + [e]
  {
    var g := Grown(t);
    var t' := Table(g.slots[g.used := e], g.used + 1, g.nmstrlen + |e.name| + 1);
    assert t'.slots[..t'.used] == g.slots[..g.used] + [e];
    NameLenAppends(Contents(g), e);
    t'
  }

  /** One section of `elf_read_syms`. */
  method AddSection(start: Table, image: Image, s: Section) returns (t: Table)
    requires Sound(start) && s.link < |image|
    ensures Sound(t) && Contents(t) == Contents(start) + ReadSection(image, s, |s.syms|)
  {
    t := start;
    for i := 0 to |s.syms|
      invariant Sound(t) && Contents(t) == Contents(start) + ReadSection(image, s, i)
    {
      if !Skipped(s.syms[i]) {
        t := Push(t, EntryOf(image, s, s.syms[i]));
      }
    }
  }

  /** `elf_read_syms`: all entries in section order, and the tally a writer of
      these entries will need. */
  method ElfReadSyms(image: Image) returns (entries: seq<SymbolEntry>, nmstrlen: nat)
    requires Linked(image)
    ensures entries == ReadImage(image, |image|)
    ensures nmstrlen == NameLen(Names(entries))
  {
    var t := EMPTY;
    for i := 0 to |image|
      invariant Sound(t) && Contents(t) == ReadImage(image, i)
    {
      if HasSymbols(image[i]) {
        t := AddSection(t, image, image[i]);
      }
    }
    entries, nmstrlen := t.slots[..t.used], t.nmstrlen;
  }

  lemma {:induction false} StrAtIsCString(buf: seq<char>, off: nat)
    ensures CString(StrAt(buf, off))
    decreases |buf| - off
  {
    if off >= |buf| || buf[off] == NUL {
    } else {
      StrAtIsCString(buf, off + 1);
    }
  }

  ghost predicate NamesAreCStrings(entries: seq<SymbolEntry>) {
    forall i :: 0 <= i < |entries| ==> CString(entries[i].name)
  }

  lemma {:induction false} ReadSectionNames(image: Image, s: Section, n: nat)
    requires s.link < |image| && n <= |s.syms|
    ensures NamesAreCStrings(ReadSection(image, s, n))
    decreases n
  {
    if n == 0 {
    } else {
      ReadSectionNames(image, s, n - 1);
      StrAtIsCString(image[s.link].chars, s.syms[n - 1].name);
    }
  }

  /** Whatever is read can be written: its names have no NUL inside. */
  lemma {:induction false} ReadNamesAreCStrings(image: Image, n: nat)
    requires Linked(image) && n <= |image|
    ensures NamesAreCStrings(ReadImage(image, n)) && CStrings(Names(ReadImage(image, n)))
    decreases n
  {
    if n == 0 {
    } else {
      ReadNamesAreCStrings(image, n - 1);
      ReadSectionNames(image, image[n - 1], |image[n - 1].syms|);
    }
  }

  /** Write, read, and write again: no tally is ever too small or too large. */
  method RoundTrip(entries: seq<SymbolEntry>, nmstrlen: nat) returns (again: seq<SymbolEntry>, image': Image)
    requires CStrings(Names(entries)) && nmstrlen == NameLen(Names(entries))
    ensures again == PlainAll(entries) + PlainAll(entries) <==> AllAddressable(entries)
    ensures image' == ImageOf(again)
  {
    var image, spare := Generate(entries, nmstrlen);
    assert spare == 0;
    ElfRoundTrip(entries);
    var len;
    again, len := ElfReadSyms(image);
    ReadNamesAreCStrings(image, |image|);
    image', spare := Generate(again, len);
    assert spare == 0;
  }
}
