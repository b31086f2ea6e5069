/** Splitting the kernel's symbol listing into one table for the kernel and one
    for each module. */
module Kallsyms {
  import opened Options
  import opened Machine
  import opened Elf

  /** The fields of a line: address, type, symbol, and the module token, which
      the listing writes in brackets. */
  datatype Line = Line(addr: Word, kind: char, name: string, token: Option<string>)

  predicate Supported(kind: char) {
    kind in "AaBbDdRrTtVvWw"
  }

  /** `initSE` for a supported type. */
  function EntryFor(l: Line): SymbolEntry
    requires Supported(l.kind)
  {
    var (bind, typ) :=
      if l.kind in "Aa" then (BindGlobal, TypeAbs)
      else if l.kind in "Bb" then (BindGlobal, TypeBss)
      else if l.kind in "Dd" then (BindGlobal, TypeData)
      else if l.kind in "Rr" then (BindGlobal, TypeRoData)
      else if l.kind in "Tt" then (BindGlobal, TypeFunc)
      else (BindWeak, TypeFunc);
    SymbolEntry(l.name, l.addr, 0, bind, typ)
  }

  /** The module name cut out of its token in place: the first character goes,
      and so does a closing bracket or line end. */
  function ModuleName(token: string): string
    requires token != ""
  {
    var last := token[|token| - 1];
    if |token| > 1 && (last == ']' || last == '\n' || last == '\r') then token[1..|token| - 1] else token[1..]
  }

  /** The symbol of a line: its name and address, weak for the letters V and W,
      a function for those and T, in either case. */
  lemma LetterDecides(l: Line)
    requires Supported(l.kind)
    ensures var e := EntryFor(l);
            && e.name == l.name && e.addr == l.addr && e.size == 0
            && (e.bind == BindWeak <==> l.kind in {'V', 'v', 'W', 'w'}) && e.bind != BindLocal
            && (e.typ == TypeFunc <==> l.kind in {'T', 't', 'V', 'v', 'W', 'w'})
            && (e.typ == TypeAbs <==> l.kind in {'A', 'a'}) && (e.typ == TypeBss <==> l.kind in {'B', 'b'})
            && (e.typ == TypeData <==> l.kind in {'D', 'd'}) && (e.typ == TypeRoData <==> l.kind in {'R', 'r'})
  {
    assert l.kind in "Aa" <==> l.kind == 'A' || l.kind == 'a';
    assert l.kind in "Bb" <==> l.kind == 'B' || l.kind == 'b';
    assert l.kind in "Dd" <==> l.kind == 'D' || l.kind == 'd';
    assert l.kind in "Rr" <==> l.kind == 'R' || l.kind == 'r';
    assert l.kind in "Tt" <==> l.kind == 'T' || l.kind == 't';
  }

  /** The letters a listing may have. */
  lemma SupportedLetters(kind: char)
    ensures Supported(kind) <==>
            kind in {'A', 'a', 'B', 'b', 'D', 'd', 'R', 'r', 'T', 't', 'V', 'v', 'W', 'w'}
  {
  }

  /** Any token: its first character goes, and its last one if it closes. */
  lemma TokenCut(first: char, name: string, last: char)
    ensures ModuleName([first] + name + [last]) == if last in {']', '\n', '\r'} then name else name + [last]
    ensures ModuleName([first]) == ""
  {
    var token := [first] + name + [last];
    assert token[1..|token| - 1] == name && token[1..] == name + [last];
  }

  /** A bracketed module name is recovered, whatever the name. */
  lemma BracketsStripped(name: string)
    ensures ModuleName("[" + name + "]") == name
  {
    var token := "[" + name + "]";
    assert token[1..|token| - 1] == name;
  }

  predicate WellFormedLine(l: Line) {
    Supported(l.kind) && CString(l.name) && (l.token.Some? ==> l.token.value != "")
  }

  predicate WellFormed(lines: seq<Line>) {
    forall i :: 0 <= i < |lines| ==> WellFormedLine(lines[i])
  }

  /** The table a line belongs to: the kernel's, or a module's. */
  function Key(l: Line): Option<string>
    requires WellFormedLine(l)
  {
    if l.token.Some? then Some(ModuleName(l.token.value)) else None
  }

  /** The symbols of one table, in line order. */
  function Symbols(lines: seq<Line>, key: Option<string>): seq<SymbolEntry>
    requires WellFormed(lines)
  {
    if lines == [] then []
    else
      var l := lines[|lines| - 1];
      Symbols(lines[..|lines| - 1], key) + if Key(l) == key then [EntryFor(l)] else []
  }

  /** Line `i` is in the table of its key, right after the earlier lines with
      that key, and no other line takes its place. */
  lemma {:induction false} LineIsPlaced(lines: seq<Line>, i: nat)
    requires WellFormed(lines) && i < |lines|
    ensures WellFormed(lines[..i])
    ensures var key := Key(lines[i]);
            var at := |Symbols(lines[..i], key)|;
            && at < |Symbols(lines, key)|
            && var e := Symbols(lines, key)[at];
            && e == EntryFor(lines[i]) && e.name == lines[i].name && e.addr == lines[i].addr
    decreases |lines|
  {
    var init := lines[..|lines| - 1];
    if i < |lines| - 1 {
      assert init[..i] == lines[..i];
      LineIsPlaced(init, i);
    } else {
      assert init == lines[..i];
    }
  }

  /** The modules named so far. */
  function Modules(lines: seq<Line>): set<string>
    requires WellFormed(lines)
  {
    set i | 0 <= i < |lines| && Key(lines[i]).Some? :: Key(lines[i]).value
  }

  lemma {:induction false} SymbolsAreCStrings(lines: seq<Line>, key: Option<string>)
    requires WellFormed(lines)
    ensures CStrings(Names(Symbols(lines, key)))
    decreases |lines|
  {
    if lines == [] {
    } else {
      var init := lines[..|lines| - 1];
      SymbolsAreCStrings(init, key);
      var a, b := Symbols(init, key), Symbols(lines, key);
      forall i | 0 <= i < |b| ensures CString(Names(b)[i]) {
        if i < |a| {
          assert Names(a)[i] == Names(b)[i];
        }
      }
    }
  }

  /** Reading a written library gives back the symbols of its table, in line
      order, twice, exactly if all of them are addressable. */
  lemma {:induction false} LibraryReadsBack(lines: seq<Line>, key: Option<string>)
    requires WellFormed(lines)
    ensures var image := ImageOf(Symbols(lines, key));
            var plain := PlainAll(Symbols(lines, key));
            && Linked(image)
            && (ReadImage(image, |image|) == plain + plain <==> AllAddressable(Symbols(lines, key)))
  {
    SymbolsAreCStrings(lines, key);
    ElfRoundTrip(Symbols(lines, key));
  }

  // ---- Each line in its library -------------------------------------------

  /** Both lines belong to the kernel, or both to the same module. */
  predicate SameModule(l: Line, l': Line)
    requires WellFormedLine(l) && WellFormedLine(l')
  {
    if l.token.None? then l'.token.None?
    else l'.token.Some? && ModuleName(l'.token.value) == ModuleName(l.token.value)
  }

  /** Those of the first `n` lines that belong with line `i`. */
  ghost function Fellows(lines: seq<Line>, i: nat, n: nat): set<int>
    requires WellFormed(lines) && i < |lines| && n <= |lines|
  {
    set j | 0 <= j < n && SameModule(lines[j], lines[i])
  }

  lemma OneMoreFellow(lines: seq<Line>, i: nat, n: nat)
    requires WellFormed(lines) && i < |lines| && n < |lines|
    ensures |Fellows(lines, i, n + 1)| == |Fellows(lines, i, n)| + if Key(lines[n]) == Key(lines[i]) then 1 else 0
  {
    var before := Fellows(lines, i, n);
    assert SameModule(lines[n], lines[i]) <==> Key(lines[n]) == Key(lines[i]);
    assert Fellows(lines, i, n + 1) == if SameModule(lines[n], lines[i]) then before + {n} else before;
  }

  lemma {:induction false} FellowsAreSymbols(lines: seq<Line>, i: nat, n: nat)
    requires WellFormed(lines) && i < |lines| && n <= |lines|
    ensures WellFormed(lines[..n]) && |Symbols(lines[..n], Key(lines[i]))| == |Fellows(lines, i, n)|
    decreases n
  {
    if n == 0 {
      assert Fellows(lines, i, n) == {};
    } else {
      FellowsAreSymbols(lines, i, n - 1);
      OneMoreFellow(lines, i, n - 1);
      assert lines[..n][..n - 1] == lines[..n - 1];
    }
  }

  /** Both symbol sections have `n` symbols, and the one at `at` is that of `l`. */
  ghost predicate Written(image: Image, at: nat, n: nat, l: Line) {
    && |image| == 8 && at < n && image[4].syms == image[5].syms && |image[4].syms| == n + 1
    && var y := image[4].syms[at + 1];
    && y.value == l.addr && y.shndx == 0xfff1
    && (y.weak <==> l.kind in {'V', 'v', 'W', 'w'})
    && (y.func <==> l.kind in {'T', 't', 'V', 'v', 'W', 'w'})
  }

  /** Reading the library gives `n` symbols twice, with that of `l` at `at`. */
  ghost predicate ReadsBack(image: Image, at: nat, n: nat, l: Line) {
    && Linked(image) && at < n
    && var read := ReadImage(image, |image|);
    && |read| == 2 * n
    && read[at].name == l.name && read[at].addr == l.addr
    && read[n + at].name == l.name && read[n + at].addr == l.addr
  }

  /** Line `i` is in this library, after the earlier lines that belong with it. */
  ghost predicate InLibrary(lines: seq<Line>, i: nat, image: Image)
    requires WellFormed(lines) && i < |lines|
  {
    var at, n := |Fellows(lines, i, i)|, |Fellows(lines, i, |lines|)|;
    && Written(image, at, n, lines[i])
    && (AllAddressable(Symbols(lines, Key(lines[i]))) ==> ReadsBack(image, at, n, lines[i]))
  }

  lemma EachLineInItsLibrary(lines: seq<Line>, i: nat)
    requires WellFormed(lines) && i < |lines|
    ensures InLibrary(lines, i, ImageOf(Symbols(lines, Key(lines[i]))))
  {
    var syms := Symbols(lines, Key(lines[i]));
    var at := |Fellows(lines, i, i)|;
    FellowsAreSymbols(lines, i, i);
    FellowsAreSymbols(lines, i, |lines|);
    assert lines[..|lines|] == lines;
    LineIsPlaced(lines, i);
    LetterDecides(lines[i]);
    SymbolsAsWritten(syms, at);
    SymbolsAreCStrings(lines, Key(lines[i]));
    if AllAddressable(syms) {
      EntriesReadBack(syms);
    }
  }

  /** The tables as values: the kernel's, and each module's. */
  datatype Split = Split(kern: seq<SymbolEntry>, mods: map<string, seq<SymbolEntry>>)

  /** One more line: a module met for the first time starts an empty table. */
  function AddLine(t: Split, l: Line): Split
    requires WellFormedLine(l)
  {
    if l.token.Some? then
      var m := ModuleName(l.token.value);
      t.(mods := t.mods[m := (if m in t.mods then t.mods[m] else []) + [EntryFor(l)]])
    else t.(kern := t.kern + [EntryFor(l)])
  }

  function SplitOf(lines: seq<Line>): Split
    requires WellFormed(lines)
  {
    if lines == [] then Split([], map[])
    else AddLine(SplitOf(lines[..|lines| - 1]), lines[|lines| - 1])
  }

  /** The table of one key; a module not met has none. */
  function TableOf(t: Split, key: Option<string>): seq<SymbolEntry> {
    if key.None? then t.kern else if key.value in t.mods then t.mods[key.value] else []
  }

  /** Each table holds exactly its symbols, in line order. */
  lemma {:induction false} TableIsFilter(lines: seq<Line>, key: Option<string>)
    requires WellFormed(lines)
    ensures TableOf(SplitOf(lines), key) == Symbols(lines, key)
    decreases |lines|
  {
    if lines == [] {
    } else {
      TableIsFilter(lines[..|lines| - 1], key);
    }
  }

  lemma ModulesSnoc(init: seq<Line>, l: Line)
    requires WellFormed(init) && WellFormedLine(l)
    ensures WellFormed(init + [l])
    ensures Modules(init + [l]) == Modules(init) + (if Key(l).Some? then {Key(l).value} else {})
  {
    var lines := init + [l];
    forall i | 0 <= i < |init| ensures lines[i] == init[i] {
    }
    assert lines[|init|] == l;
  }

  /** There is a table for each module named, and no other. */
  lemma {:induction false} TablesAreModules(lines: seq<Line>)
    requires WellFormed(lines)
    ensures SplitOf(lines).mods.Keys == Modules(lines)
    decreases |lines|
  {
    if lines == [] {
    } else {
      var init, l := lines[..|lines| - 1], lines[|lines| - 1];
      TablesAreModules(init);
      ModulesSnoc(init, l);
      assert lines == init + [l];
    }
  }

  /** The split is the partition of the lines by key. */
  lemma {:induction false} SplitIsPartition(lines: seq<Line>)
    requires WellFormed(lines)
    ensures var t := SplitOf(lines);
            && t.kern == Symbols(lines, None)
            && t.mods.Keys == Modules(lines)
            && forall m :: m in t.mods ==> t.mods[m] == Symbols(lines, Some(m))
  {
    var t := SplitOf(lines);
    TableIsFilter(lines, None);
    TablesAreModules(lines);
    forall m | m in t.mods ensures t.mods[m] == Symbols(lines, Some(m)) {
      TableIsFilter(lines, Some(m));
    }
  }

  /** The tables and their values. */
  ghost predicate Represents(kern: Table, mods: map<string, Table>, t: Split) {
    && Sound(kern) && Contents(kern) == t.kern
    && mods.Keys == t.mods.Keys
    && forall m :: m in mods ==> Sound(mods[m]) && Contents(mods[m]) == t.mods[m]
  }

  /** The loop of `prcKallsyms`. */
  method SplitLines(lines: seq<Line>) returns (kern: Table, mods: map<string, Table>)
    requires WellFormed(lines)
    ensures Represents(kern, mods, SplitOf(lines))
  {
    kern, mods := EMPTY, map[];
    for i := 0 to |lines|
      invariant Represents(kern, mods, SplitOf(lines[..i]))
    {
      var l := lines[i];
      assert lines[..i + 1][..i] == lines[..i];
      if l.token.Some? {
        var m := ModuleName(l.token.value);
        if m !in mods {
          mods := mods[m := EMPTY];
        }
        mods := mods[m := Push(mods[m], EntryFor(l))];
      } else {
        kern := Push(kern, EntryFor(l));
      }
    }
    assert lines[..|lines|] == lines;
  }

  /** `writeso` of a table: its tally is exactly what its names need, so their
      buffer is filled to its end. */
  method WriteSo(t: Table) returns (image: Image, ghost spare: nat)
    requires Sound(t) && CStrings(Names(Contents(t)))
    ensures image == ImageOf(Contents(t))
    ensures spare == 0
  {
    image, spare := Generate(t.slots[..t.used], t.nmstrlen);
  }

  /** The last loop of `prcKallsyms`: write a library for every module. */
  method WriteModules(mods: map<string, Table>) returns (libs: map<string, Image>)
    requires forall m :: m in mods ==> Sound(mods[m]) && CStrings(Names(Contents(mods[m])))
    ensures libs.Keys == mods.Keys
    ensures forall m :: m in mods ==> libs[m] == ImageOf(Contents(mods[m]))
  {
    libs := map[];
    var todo := mods.Keys;
    while todo != {}
      invariant todo <= mods.Keys && libs.Keys == mods.Keys - todo
      invariant forall m :: m in libs ==> libs[m] == ImageOf(Contents(mods[m]))
      decreases |todo|
    {
      var m :| m in todo;
      var image, spare := WriteSo(mods[m]);
      assert spare == 0;
      libs := libs[m := image];
      todo := todo - {m};
    }
  }

  /** The libraries: one for each module, and one for the kernel if it has any
      symbol. */
  ghost predicate Libraries(lines: seq<Line>, kern: Option<Image>, libs: map<string, Image>)
    requires WellFormed(lines)
  {
    && kern == (if Symbols(lines, None) == [] then None else Some(ImageOf(Symbols(lines, None))))
    && libs.Keys == Modules(lines)
    && forall m :: m in libs ==> libs[m] == ImageOf(Symbols(lines, Some(m)))
  }

  /** Line `i` is in the library of its module, or of the kernel. */
  ghost predicate LineFound(lines: seq<Line>, i: nat, kern: Option<Image>, libs: map<string, Image>)
    requires WellFormed(lines) && i < |lines|
  {
    if lines[i].token.None? then kern.Some? && InLibrary(lines, i, kern.value)
    else
      var m := ModuleName(lines[i].token.value);
      m in libs && InLibrary(lines, i, libs[m])
  }

  lemma LineIsFound(lines: seq<Line>, i: nat, kern: Option<Image>, libs: map<string, Image>)
    requires WellFormed(lines) && i < |lines| && Libraries(lines, kern, libs)
    ensures LineFound(lines, i, kern, libs)
  {
    LineIsPlaced(lines, i);
    EachLineInItsLibrary(lines, i);
    if lines[i].token.Some? {
      assert Key(lines[i]).value in Modules(lines);
    }
  }

  lemma {:induction false} SomeLine(lines: seq<Line>, key: Option<string>) returns (i: nat)
    requires WellFormed(lines) && Symbols(lines, key) != []
    ensures i < |lines| && Key(lines[i]) == key
    decreases |lines|
  {
    var last := |lines| - 1;
    if Key(lines[last]) == key {
      i := last;
    } else {
      i := SomeLine(lines[..last], key);
    }
  }

  /** Every library is that of some line. */
  lemma LibrariesAreNamed(lines: seq<Line>, kern: Option<Image>, libs: map<string, Image>)
    requires WellFormed(lines) && Libraries(lines, kern, libs)
    ensures kern.Some? ==> exists i :: 0 <= i < |lines| && lines[i].token.None?
    ensures forall m :: m in libs ==>
              exists i :: 0 <= i < |lines| && lines[i].token.Some? && ModuleName(lines[i].token.value) == m
  {
    if kern.Some? {
      var i := SomeLine(lines, None);
    }
  }

  method WriteLibraries(lines: seq<Line>) returns (kern: Option<Image>, libs: map<string, Image>)
    requires WellFormed(lines)
    ensures Libraries(lines, kern, libs)
  {
    var k, mods := SplitLines(lines);
    SplitIsPartition(lines);
    kern := None;
    if k.used > 0 {
      SymbolsAreCStrings(lines, None);
      var image, spare := WriteSo(k);
      assert spare == 0;
      kern := Some(image);
    }
    forall m | m in mods ensures CStrings(Names(Contents(mods[m]))) {
      SymbolsAreCStrings(lines, Some(m));
    }
    libs := WriteModules(mods);
  }

  /** `prcKallsyms`: every line ends up in its place in one library, and there is
      no other library. */
  method PrcKallsyms(lines: seq<Line>) returns (kern: Option<Image>, libs: map<string, Image>)
    requires WellFormed(lines)
    ensures Libraries(lines, kern, libs)
    ensures forall i :: 0 <= i < |lines| ==> LineFound(lines, i, kern, libs)
    ensures kern.Some? ==> exists i :: 0 <= i < |lines| && lines[i].token.None?
    ensures forall m :: m in libs ==>
              exists i :: 0 <= i < |lines| && lines[i].token.Some? && ModuleName(lines[i].token.value) == m
  {
    kern, libs := WriteLibraries(lines);
    forall i | 0 <= i < |lines| ensures LineFound(lines, i, kern, libs) {
      LineIsFound(lines, i, kern, libs);
    }
    LibrariesAreNamed(lines, kern, libs);
  }
}
