/** The `mmapfile FILENAME MAP-ADDRESS FILE-OFFSET LENGTH` command: check the
    request in a fixed order, map the file at the address, and register the
    mapping as one new section of the core file. */
module MmapCommand {
  import opened Machine
  import opened Tokenizer
  import opened Literals
  import opened Sections
  import opened PathSearch

  /** The collaborators the command calls and the model does not contain. */
  datatype Host = Host(
    fs: FileSystem,
    // getenv ("PATH"), already split into directory tokens; None when unset
    pathEnv: Option<seq<string>>,
    // parse_and_eval_address; None when evaluation raises an error
    evalAddress: string -> Option<u64>,
    // mmap (addr, size, PROT_READ, MAP_FIXED | MAP_SHARED, fd, offset) on the
    // file that was opened, with the signed (off64_t) offset: the mapped
    // address, or None for MAP_FAILED
    mmap: (string, u64, u64, int) -> Option<u64>,
    // bfd_get_unique_section_name (core_bfd, "mmap_section", &count) on the
    // core's sections and the counter: the name and the new counter, or None
    // where the generator aborts
    uniqueName: (seq<Section>, nat) -> Option<(string, nat)>,
    // build_section_table over the core's sections; None when it fails
    buildTable: seq<Section> -> Option<seq<Section>>
  )

  /** The error the command raises, one per failure path of the source. */
  datatype Error =
    | UsageError                         // not exactly four arguments
    | NoCoreFile                         // core_bfd == NULL
    | BadAddress(expr: string)           // the address did not evaluate
    | Overlap(file: string, addr: u64)   // pre-check hit, or mmap failed
    | ZeroSize                           // LENGTH is 0
    | CannotOpen(file: string)           // perror_with_name (arg[0])
    | Aborted                            // the unique-name generator ran out of numbers
    | NoSections                         // build_section_table failed, after the section was made

  /** Either the confirmation "File F is now mapped from address A to B", or an error. */
  datatype Outcome = Mapped(file: string, from: u64, to: u64) | Failed(error: Error)

  /** What the command reads and writes of the debugger: whether a core is
      loaded, the core's section list, the installed section table, and the
      counter handed to the unique-name generator. */
  datatype CoreState = CoreState(loaded: bool, sections: seq<Section>, table: seq<Section>, count: nat)

  const SECTION_TEMPLATE: string := "mmap_section"

  /** bfd_get_unique_section_name calls abort () past this number. */
  const NAME_LIMIT: nat := 999999

  /** Some section of the bfd already has the name: the generator's walk
      over the section list. */
  predicate NameTaken(secs: seq<Section>, name: string)
  {
    |secs| > 0 && (secs[0].name == name || NameTaken(secs[1..], name))
  }

  /** A name is taken exactly when some section carries it. */
  lemma {:induction false} NameTakenMeansNamed(secs: seq<Section>, name: string)
    ensures NameTaken(secs, name) <==> exists k :: 0 <= k < |secs| && secs[k].name == name
  {
    if |secs| > 0 {
      NameTakenMeansNamed(secs[1..], name);
      if NameTaken(secs[1..], name) {
        var k :| 0 <= k < |secs[1..]| && secs[1..][k].name == name;
        assert secs[k + 1].name == name;
      }
      if exists k :: 0 <= k < |secs| && secs[k].name == name {
        var k :| 0 <= k < |secs| && secs[k].name == name;
        if k > 0 {
          assert secs[1..][k - 1].name == name;
        }
      }
    }
  }

  /** The candidate `<template>.<num>`, the number in decimal (`".%d"`). */
  function Numbered(template: string, num: nat): string
  {
    template + "." + Render(num, 10)
  }

  /** `bfd_get_unique_section_name (core_bfd, template, &count)`: the numbers
      from the counter up are tried in turn, the first candidate that names no
      section is taken, and the counter is left one past it; None where the
      generator aborts, on passing NAME_LIMIT. */
  function UniqueName(template: string, secs: seq<Section>, num: nat): (r: Option<(string, nat)>)
    ensures r.Some? ==> num < r.value.1 <= NAME_LIMIT + 1
    ensures r.Some? ==> r.value.0 == Numbered(template, r.value.1 - 1) && !NameTaken(secs, r.value.0)
    decreases NAME_LIMIT + 1 - num
  {
    if num > NAME_LIMIT then None
    else if NameTaken(secs, Numbered(template, num)) then UniqueName(template, secs, num + 1)
    else Some((Numbered(template, num), num + 1))
  }

  /** The generator takes the first free number, and aborts exactly when every
      number from the counter to NAME_LIMIT is taken. */
  lemma {:induction false} UniqueNameIsFirstFree(template: string, secs: seq<Section>, num: nat)
    ensures var r := UniqueName(template, secs, num);
      && (r.Some? ==> forall m :: num <= m < r.value.1 - 1 ==> NameTaken(secs, Numbered(template, m)))
      && (r.None? <==> forall m :: num <= m <= NAME_LIMIT ==> NameTaken(secs, Numbered(template, m)))
    decreases NAME_LIMIT + 1 - num
  {
    if num <= NAME_LIMIT && NameTaken(secs, Numbered(template, num)) {
      UniqueNameIsFirstFree(template, secs, num + 1);
    }
  }

  /** The host's generator is BFD's: the first free `mmap_section.<n>`. */
  ghost predicate BfdNaming(host: Host)
  {
    forall secs: seq<Section>, num: nat {:trigger UniqueName(SECTION_TEMPLATE, secs, num)} ::
      host.uniqueName(secs, num) == UniqueName(SECTION_TEMPLATE, secs, num)
  }

  /** BFD's generator hands out a name no section has, and moves the counter
      forward. */
  lemma BfdNameIsFresh(host: Host, secs: seq<Section>, num: nat)
    requires BfdNaming(host) && host.uniqueName(secs, num).Some?
    ensures var (tag, count) := host.uniqueName(secs, num).value;
      num < count <= NAME_LIMIT + 1 && !NameTaken(secs, tag)
  {
    assert host.uniqueName(secs, num) == UniqueName(SECTION_TEMPLATE, secs, num);
  }

  /** The name is `mmap_section.<n>` for the number `n` just below the new
      counter. */
  lemma BfdNameIsNumbered(host: Host, secs: seq<Section>, num: nat)
    requires BfdNaming(host) && host.uniqueName(secs, num).Some?
    ensures var (tag, count) := host.uniqueName(secs, num).value;
      count >= 1 && tag == Numbered(SECTION_TEMPLATE, count - 1)
  {
    assert host.uniqueName(secs, num) == UniqueName(SECTION_TEMPLATE, secs, num);
  }

  /** Two generator calls in a row, the second from the counter the first
      left, give labels that differ whatever the paths. */
  lemma SuccessiveBfdLabelsDiffer(h1: Host, h2: Host, secs1: seq<Section>, num: nat, secs2: seq<Section>,
                                  p1: string, p2: string)
    requires BfdNaming(h1) && BfdNaming(h2)
    requires h1.uniqueName(secs1, num).Some?
    requires h2.uniqueName(secs2, h1.uniqueName(secs1, num).value.1).Some?
    ensures Label(h1.uniqueName(secs1, num).value.0, p1)
         != Label(h2.uniqueName(secs2, h1.uniqueName(secs1, num).value.1).value.0, p2)
  {
    var (tag1, count1) := h1.uniqueName(secs1, num).value;
    var (tag2, count2) := h2.uniqueName(secs2, count1).value;
    BfdNameIsFresh(h2, secs2, count1);
    BfdNameIsNumbered(h1, secs1, num);
    BfdNameIsNumbered(h2, secs2, count1);
    LabelsOfDistinctNumbersDiffer(count1 - 1, count2 - 1, p1, p2);
  }

  /** The new section's name: "<unique name> (Mapped to <path>)". */
  function Label(tag: string, path: string): (l: string)
    ensures l != VMDATA
    ensures |l| == |tag| + 12 + |path| + 1
  {
    var l := tag + " (Mapped to " + path + ")";
    assert |l| > |VMDATA|;
    l
  }

  /** The label is the tag, then " (Mapped to ", then the path, then ")". */
  lemma LabelLayout(tag: string, path: string)
    ensures var l := Label(tag, path);
      && l[..|tag|] == tag && l[|tag|..|tag| + 12] == " (Mapped to "
      && l[|tag| + 12..|l| - 1] == path && l[|l| - 1] == ')'
  {
  }

  /** One run of the command: the new state and the outcome. */
  function Step(st: CoreState, host: Host, args: string): (r: (CoreState, Outcome))
    ensures r.1.Failed? && r.1 != Failed(NoSections) ==> r.0 == st
    ensures r.1 == Failed(NoSections) ==> r.0.loaded == st.loaded && r.0.table == st.table
    ensures r.1.Mapped? || r.1 == Failed(NoSections) ==>
      && r.0.loaded
      && |r.0.sections| == |st.sections| + 1
      && r.0.sections[..|st.sections|] == st.sections
  {
    var arg := Tokens(args);
    if |arg| != 4 then (st, Failed(UsageError))
    else if !st.loaded then (st, Failed(NoCoreFile))
    else
      var offset := ParseLiteral(arg[2]);
      var size := ToU64(ParseLiteral(arg[3]));
      match host.evalAddress(arg[1])
      case None => (st, Failed(BadAddress(arg[1])))
      case Some(addr) => Request(st, host, arg[0], addr, offset, size)
  }

  /** The request once its address is known: the overlap pre-check, the size
      check, and the search for the file. */
  function Request(st: CoreState, host: Host, name: string, addr: u64, offset: int, size: u64): (r: (CoreState, Outcome))
    ensures r.1.Failed? && r.1 != Failed(NoSections) ==> r.0 == st
    ensures r.1 == Failed(NoSections) ==> r.0.loaded == st.loaded && r.0.table == st.table
    ensures r.1.Mapped? || r.1 == Failed(NoSections) ==>
      && r.0.loaded == st.loaded
      && |r.0.sections| == |st.sections| + 1
      && r.0.sections[..|st.sections|] == st.sections
  {
    if VmdataHit(st.sections, addr) then (st, Failed(Overlap(name, addr)))
    else if size == 0 then (st, Failed(ZeroSize))
    else
      match Resolve(host.fs, host.pathEnv, name)
      case EmptyName => (st, Failed(CannotOpen(name)))
      case NotFound => (st, Failed(CannotOpen(name)))
      case Opened(f, path) => MapFile(st, host, name, addr, offset, size, f, path)
  }

  /** Mapping the opened file and registering it as a new section. */
  function MapFile(st: CoreState, host: Host, name: string, addr: u64, offset: int, size: u64,
                   f: string, path: string): (r: (CoreState, Outcome))
    ensures r.1.Failed? && r.1 != Failed(NoSections) ==> r.0 == st
    ensures r.1 == Failed(NoSections) ==> r.0.loaded == st.loaded && r.0.table == st.table
    ensures r.1.Mapped? || r.1 == Failed(NoSections) ==>
      && r.0.loaded == st.loaded
      && |r.0.sections| == |st.sections| + 1
      && r.0.sections[..|st.sections|] == st.sections
  {
    match host.mmap(f, addr, size, offset)
    case None => (st, Failed(Overlap(name, addr)))
    case Some(vaddr) =>
      match host.uniqueName(st.sections, st.count)
      case None => (st, Failed(Aborted))
      case Some((tag, count)) =>
      var sections := st.sections + [Section(Label(tag, path), vaddr, size, 0)];
      match host.buildTable(sections)
      case None => (st.(sections := sections, count := count), Failed(NoSections))
      case Some(table) => (st.(sections := sections, table := table, count := count), Mapped(path, addr, AddU64(addr, size)))
  }

  /** LENGTH is read with strtoll and stored in a size_t: the size check
      rejects exactly the literals that read as 0; a negative one passes it as
      a size near 2^64. */
  lemma OnlyZeroLengthRejected(s: string)
    ensures ToU64(ParseLiteral(s)) == 0 <==> ParseLiteral(s) == 0
    ensures ParseLiteral(s) < 0 ==> ToU64(ParseLiteral(s)) >= TWO_64 + LLONG_MIN
  {
  }

  /** Once the argument count, the core and the address have passed, the
      command is the request on the parsed offset and size. */
  lemma StepAfterChecks(st: CoreState, host: Host, args: string)
    requires |Tokens(args)| == 4 && st.loaded && host.evalAddress(Tokens(args)[1]).Some?
    ensures var arg := Tokens(args);
      Step(st, host, args) == Request(st, host, arg[0], host.evalAddress(arg[1]).value,
                                      ParseLiteral(arg[2]), ToU64(ParseLiteral(arg[3])))
  {
  }

  /** The checks come in the source's order: argument count, then core, then
      address, then overlap, then size, then the file, then the mapping. */
  lemma ErrorOrder(st: CoreState, host: Host, args: string)
    ensures var arg, out := Tokens(args), Step(st, host, args).1;
      && (|arg| != 4 ==> out == Failed(UsageError))
      && (|arg| == 4 && !st.loaded ==> out == Failed(NoCoreFile))
      && (|arg| == 4 && st.loaded && host.evalAddress(arg[1]).None? ==> out == Failed(BadAddress(arg[1])))
      && (|arg| == 4 && st.loaded && host.evalAddress(arg[1]).Some? ==>
            var addr := host.evalAddress(arg[1]).value;
            && (VmdataHit(st.sections, addr) ==> out == Failed(Overlap(arg[0], addr)))
            && (!VmdataHit(st.sections, addr) && ToU64(ParseLiteral(arg[3])) == 0 ==> out == Failed(ZeroSize))
            && ((!VmdataHit(st.sections, addr) && ToU64(ParseLiteral(arg[3])) != 0
                 && !Resolve(host.fs, host.pathEnv, arg[0]).Opened?) ==> out == Failed(CannotOpen(arg[0]))))
  {
  }

  /** Each error is raised only when every earlier check passed: the core and
      address checks, and the size check. */
  lemma ErrorsArriveInOrder(st: CoreState, host: Host, args: string)
    ensures var arg, out := Tokens(args), Step(st, host, args).1;
      && (out == Failed(NoCoreFile) ==> |arg| == 4)
      && (out.Failed? && out.error.BadAddress? ==> |arg| == 4 && st.loaded && out.error.expr == arg[1])
      && (out == Failed(ZeroSize) ==>
            |arg| == 4 && st.loaded && host.evalAddress(arg[1]).Some?
            && !VmdataHit(st.sections, host.evalAddress(arg[1]).value) && ToU64(ParseLiteral(arg[3])) == 0)
  {
    var arg := Tokens(args);
    if |arg| == 4 && st.loaded && host.evalAddress(arg[1]).Some? {
      StepAfterChecks(st, host, args);
      RequestOutcomes(st, host, arg[0], host.evalAddress(arg[1]).value, ParseLiteral(arg[2]), ToU64(ParseLiteral(arg[3])));
    }
  }

  /** Which outcome of a request comes from which check: a size error only
      after the pre-check passed, a file error only for a non-zero size, an
      overlap from the pre-check or from mmap on a file that opened. */
  lemma RequestOutcomes(st: CoreState, host: Host, name: string, addr: u64, offset: int, size: u64)
    ensures var out := Request(st, host, name, addr, offset, size).1;
      && (out == Failed(ZeroSize) ==> !VmdataHit(st.sections, addr) && size == 0)
      && (out.Failed? && out.error.CannotOpen? ==>
            out.error.file == name && !VmdataHit(st.sections, addr) && size != 0
            && !Resolve(host.fs, host.pathEnv, name).Opened?)
      && (out.Failed? && out.error.Overlap? ==>
            out.error == Overlap(name, addr)
            && (VmdataHit(st.sections, addr) || (size != 0 && Resolve(host.fs, host.pathEnv, name).Opened?)))
      && (out.Mapped? || out == Failed(NoSections) || out == Failed(Aborted) ==>
            !VmdataHit(st.sections, addr) && size != 0 && Resolve(host.fs, host.pathEnv, name).Opened?)
      && (out == Failed(Aborted) <==>
            !VmdataHit(st.sections, addr) && size != 0 && Resolve(host.fs, host.pathEnv, name).Opened?
            && host.mmap(Resolve(host.fs, host.pathEnv, name).file, addr, size, offset).Some?
            && host.uniqueName(st.sections, st.count).None?)
      && (out.Failed? ==> !out.error.UsageError? && !out.error.NoCoreFile? && !out.error.BadAddress?)
  {
    if !VmdataHit(st.sections, addr) && size != 0 && Resolve(host.fs, host.pathEnv, name).Opened? {
      var f := Resolve(host.fs, host.pathEnv, name);
      RequestReachesMapFile(st, host, name, addr, offset, size);
      MapFileOutcomes(st, host, name, addr, offset, size, f.file, f.canonical);
    }
  }

  /** Past the three checks the request is the mapping of what was opened. */
  lemma RequestReachesMapFile(st: CoreState, host: Host, name: string, addr: u64, offset: int, size: u64)
    requires !VmdataHit(st.sections, addr) && size != 0 && Resolve(host.fs, host.pathEnv, name).Opened?
    ensures var f := Resolve(host.fs, host.pathEnv, name);
      Request(st, host, name, addr, offset, size) == MapFile(st, host, name, addr, offset, size, f.file, f.canonical)
  {
  }

  /** A mapping that succeeds appends the section made from the mapped address
      and the generated name, installs the rebuilt table and takes the new
      counter. */
  lemma MapFileSuccess(st: CoreState, host: Host, name: string, addr: u64, offset: int, size: u64,
                       f: string, path: string)
    requires MapFile(st, host, name, addr, offset, size, f, path).1.Mapped?
    ensures var (st', out) := MapFile(st, host, name, addr, offset, size, f, path);
      && host.mmap(f, addr, size, offset).Some?
      && host.uniqueName(st.sections, st.count).Some?
      && var (tag, count) := host.uniqueName(st.sections, st.count).value;
      && var sections := st.sections + [Section(Label(tag, path), host.mmap(f, addr, size, offset).value, size, 0)];
      && host.buildTable(sections).Some?
      && st' == st.(sections := sections, table := host.buildTable(sections).value, count := count)
      && out == Mapped(path, addr, AddU64(addr, size))
  {
  }

  /** The outcomes of the mapping step: an overlap exactly when mmap fails, an
      abort exactly when the generator has no number left, and otherwise a
      section whether or not the table is rebuilt. */
  lemma MapFileOutcomes(st: CoreState, host: Host, name: string, addr: u64, offset: int, size: u64,
                        f: string, path: string)
    ensures var out := MapFile(st, host, name, addr, offset, size, f, path).1;
      && (out == Failed(Overlap(name, addr)) <==> host.mmap(f, addr, size, offset).None?)
      && (out == Failed(Aborted) <==>
            host.mmap(f, addr, size, offset).Some? && host.uniqueName(st.sections, st.count).None?)
      && (out.Mapped? || out == Failed(NoSections) <==>
            host.mmap(f, addr, size, offset).Some? && host.uniqueName(st.sections, st.count).Some?)
      && (out.Mapped? || out == Failed(Overlap(name, addr)) || out == Failed(Aborted) || out == Failed(NoSections))
  {
  }

  /** A failed rebuild comes after the section was appended and the counter
      advanced; only the table is left as it was. */
  lemma MapFileRebuildFails(st: CoreState, host: Host, name: string, addr: u64, offset: int, size: u64,
                            f: string, path: string)
    requires MapFile(st, host, name, addr, offset, size, f, path).1 == Failed(NoSections)
    ensures var st' := MapFile(st, host, name, addr, offset, size, f, path).0;
      && host.mmap(f, addr, size, offset).Some?
      && host.uniqueName(st.sections, st.count).Some?
      && var (tag, count) := host.uniqueName(st.sections, st.count).value;
      && var sections := st.sections + [Section(Label(tag, path), host.mmap(f, addr, size, offset).value, size, 0)];
      && host.buildTable(sections).None?
      && st' == st.(sections := sections, count := count)
  {
  }

  /** A success adds exactly one section, at the end: the mapped address, the
      requested size, alignment 0, the label built from the generated name and
      the canonical path; the table is rebuilt from the new list, and the
      confirmation spans [addr, addr + size) taken modulo 2^64. */
  lemma SuccessAddsOneSection(st: CoreState, host: Host, args: string)
    requires Step(st, host, args).1.Mapped?
    ensures var (st', out) := Step(st, host, args);
      var arg := Tokens(args);
      && |arg| == 4 && st.loaded && st'.loaded
      && host.evalAddress(arg[1]) == Some(out.from)
      && !VmdataHit(st.sections, out.from)
      && var size := ToU64(ParseLiteral(arg[3]));
      && size != 0
      && Resolve(host.fs, host.pathEnv, arg[0]).Opened?
      && out.file == Resolve(host.fs, host.pathEnv, arg[0]).canonical
      && out.to == AddU64(out.from, size)
      && |st'.sections| == |st.sections| + 1
      && st'.sections[..|st.sections|] == st.sections
      && var s := st'.sections[|st.sections|];
      && Some(s.vma) == host.mmap(Resolve(host.fs, host.pathEnv, arg[0]).file, out.from, size, ParseLiteral(arg[2]))
      && s.size == size && s.alignment == 0
      && host.uniqueName(st.sections, st.count).Some?
      && s.name == Label(host.uniqueName(st.sections, st.count).value.0, out.file)
      && st'.count == host.uniqueName(st.sections, st.count).value.1
      && host.buildTable(st'.sections) == Some(st'.table)
  {
    StepAfterChecks(st, host, args);
    var arg := Tokens(args);
    var addr := host.evalAddress(arg[1]).value;
    var offset, size := ParseLiteral(arg[2]), ToU64(ParseLiteral(arg[3]));
    RequestOutcomes(st, host, arg[0], addr, offset, size);
    var f := Resolve(host.fs, host.pathEnv, arg[0]);
    RequestReachesMapFile(st, host, arg[0], addr, offset, size);
    MapFileSuccess(st, host, arg[0], addr, offset, size, f.file, f.canonical);
  }

  /** When the table cannot be rebuilt the section has already been made: it
      stays at the end of the core's list, the counter has advanced, and the
      table installed before is still the one in use. */
  lemma FailedRebuildLeavesSection(st: CoreState, host: Host, args: string)
    requires Step(st, host, args).1 == Failed(NoSections)
    ensures var st' := Step(st, host, args).0;
      var arg := Tokens(args);
      && |arg| == 4 && st.loaded
      && host.evalAddress(arg[1]).Some?
      && var addr := host.evalAddress(arg[1]).value;
      && !VmdataHit(st.sections, addr)
      && Resolve(host.fs, host.pathEnv, arg[0]).Opened?
      && var f := Resolve(host.fs, host.pathEnv, arg[0]);
      && host.mmap(f.file, addr, ToU64(ParseLiteral(arg[3])), ParseLiteral(arg[2])).Some?
      && host.uniqueName(st.sections, st.count).Some?
      && var (tag, count) := host.uniqueName(st.sections, st.count).value;
      && st' == st.(sections := st.sections + [Section(Label(tag, f.canonical),
                      host.mmap(f.file, addr, ToU64(ParseLiteral(arg[3])), ParseLiteral(arg[2])).value,
                      ToU64(ParseLiteral(arg[3])), 0)],
                    count := count)
      && host.buildTable(st'.sections).None?
  {
    StepAfterChecks(st, host, args);
    var arg := Tokens(args);
    var addr := host.evalAddress(arg[1]).value;
    var offset, size := ParseLiteral(arg[2]), ToU64(ParseLiteral(arg[3]));
    RequestOutcomes(st, host, arg[0], addr, offset, size);
    var f := Resolve(host.fs, host.pathEnv, arg[0]);
    RequestReachesMapFile(st, host, arg[0], addr, offset, size);
    MapFileRebuildFails(st, host, arg[0], addr, offset, size, f.file, f.canonical);
  }

  /** With BFD's generator, a success names its section from a name no
      section had and leaves the counter further on. */
  lemma SuccessNameIsFresh(st: CoreState, host: Host, args: string)
    requires BfdNaming(host) && Step(st, host, args).1.Mapped?
    ensures var (st', out) := Step(st, host, args);
      && host.uniqueName(st.sections, st.count).Some?
      && var (tag, count) := host.uniqueName(st.sections, st.count).value;
      && st.count < st'.count == count
      && !NameTaken(st.sections, tag)
      && st'.sections[|st.sections|].name == Label(tag, out.file)
  {
    SuccessAddsOneSection(st, host, args);
    BfdNameIsFresh(host, st.sections, st.count);
  }

  /** A decimal digit string holds no blank. */
  lemma RenderHasNoBlank(n: nat, k: nat)
    requires k < |Render(n, 10)|
    ensures Render(n, 10)[k] != ' '
  {
    RenderValue(n, 10);
    assert DigitValue(Render(n, 10)[k], 10) >= 0;
  }

  /** A longer tag cannot hide inside a shorter tag's label: the shorter label
      has a blank where the longer tag has a digit. */
  lemma ShorterTagLabelDiffers(n1: nat, n2: nat, p1: string, p2: string)
    requires |Numbered(SECTION_TEMPLATE, n1)| < |Numbered(SECTION_TEMPLATE, n2)|
    ensures Label(Numbered(SECTION_TEMPLATE, n1), p1) != Label(Numbered(SECTION_TEMPLATE, n2), p2)
  {
    var a, b := Numbered(SECTION_TEMPLATE, n1), Numbered(SECTION_TEMPLATE, n2);
    var l1, l2 := Label(a, p1), Label(b, p2);
    LabelLayout(a, p1);
    LabelLayout(b, p2);
    assert l1[|a|] == l1[|a|..|a| + 12][0] == ' ';
    assert l2[|a|] == l2[..|b|][|a|] == b[|a|];
    assert |a| >= 13 by {
      RenderValue(n1, 10);
    }
    assert b[|a|] == Render(n2, 10)[|a| - 13];
    RenderHasNoBlank(n2, |a| - 13);
  }

  /** Labels made from different numbers differ, whatever the paths. */
  lemma LabelsOfDistinctNumbersDiffer(n1: nat, n2: nat, p1: string, p2: string)
    requires n1 != n2
    ensures Label(Numbered(SECTION_TEMPLATE, n1), p1) != Label(Numbered(SECTION_TEMPLATE, n2), p2)
  {
    var a, b := Numbered(SECTION_TEMPLATE, n1), Numbered(SECTION_TEMPLATE, n2);
    if |a| < |b| {
      ShorterTagLabelDiffers(n1, n2, p1, p2);
    } else if |b| < |a| {
      ShorterTagLabelDiffers(n2, n1, p2, p1);
    } else if Label(a, p1) == Label(b, p2) {
      LabelLayout(a, p1);
      LabelLayout(b, p2);
      assert a == Label(a, p1)[..|a|] == b;
      assert a[13..] == Render(n1, 10) && b[13..] == Render(n2, 10);
      RenderValue(n1, 10);
      RenderValue(n2, 10);
    }
  }

  /** Two successive successes label their sections differently, even for the
      same file: the counter has moved past the first number. */
  lemma SuccessiveLabelsDiffer(st: CoreState, h1: Host, a1: string, h2: Host, a2: string)
    requires BfdNaming(h1) && BfdNaming(h2)
    requires Step(st, h1, a1).1.Mapped?
    requires Step(Step(st, h1, a1).0, h2, a2).1.Mapped?
    ensures var st1 := Step(st, h1, a1).0;
      var st2 := Step(st1, h2, a2).0;
      && |st.sections| < |st1.sections| < |st2.sections|
      && st2.sections[|st.sections|] == st1.sections[|st.sections|]
      && st2.sections[|st.sections|].name != st2.sections[|st1.sections|].name
  {
    var (st1, o1) := Step(st, h1, a1);
    var (st2, o2) := Step(st1, h2, a2);
    SuccessAddsOneSection(st, h1, a1);
    SuccessAddsOneSection(st1, h2, a2);
    assert st2.sections[|st.sections|] == st2.sections[..|st1.sections|][|st.sections|];
    SuccessiveBfdLabelsDiffer(h1, h2, st.sections, st.count, st1.sections, o1.file, o2.file);
  }

  /** The pre-check never sees a section this command made: repeating a
      successful request, in the same surroundings, is mapped again (or fails
      only at the name generator or the table rebuild) rather than rejected as
      an overlap. */
  lemma RepeatedRequestNotRejected(st: CoreState, host: Host, args: string)
    requires Step(st, host, args).1.Mapped?
    ensures !VmdataHit(Step(st, host, args).0.sections, Step(st, host, args).1.from)
    ensures var again := Step(Step(st, host, args).0, host, args).1;
      again.Mapped? || again == Failed(NoSections) || again == Failed(Aborted)
  {
    SuccessAddsOneSection(st, host, args);
    var (st', out) := Step(st, host, args);
    var arg := Tokens(args);
    var addr := host.evalAddress(arg[1]).value;
    var offset, size := ParseLiteral(arg[2]), ToU64(ParseLiteral(arg[3]));
    var s := st'.sections[|st.sections|];
    assert st'.sections == st.sections + [s];
    AppendedSectionInvisible(st.sections, s, addr);
    StepAfterChecks(st', host, args);
    var f := Resolve(host.fs, host.pathEnv, arg[0]);
    RequestReachesMapFile(st', host, arg[0], addr, offset, size);
    MapFileOutcomes(st', host, arg[0], addr, offset, size, f.file, f.canonical);
  }

  /** The debugger state `mmap_command` changes in place. */
  class Core {
    var loaded: bool
    var sections: seq<Section>
    var table: seq<Section>
    var count: nat

    function State(): CoreState
      reads this
    {
      CoreState(loaded, sections, table, count)
    }

    /** A session starts with the counter at 1. */
    constructor (loaded: bool, sections: seq<Section>, table: seq<Section>)
      ensures State() == CoreState(loaded, sections, table, 1)
    {
      this.loaded := loaded;
      this.sections := sections;
      this.table := table;
      this.count := 1;
    }

    /** The command itself. */
    method Mmap(host: Host, args: string) returns (outcome: Outcome)
      modifies this
      ensures (State(), outcome) == Step(old(State()), host, args)
      ensures outcome.Failed? && outcome != Failed(NoSections) ==> State() == old(State())
      ensures outcome == Failed(NoSections) ==>
        && table == old(table)
        && |sections| == |old(sections)| + 1
        && sections[..|old(sections)|] == old(sections)
      ensures outcome.Mapped? ==>
        && |sections| == |old(sections)| + 1
        && sections[..|old(sections)|] == old(sections)
        && sections[|old(sections)|].alignment == 0
    {
      ghost var st := State();
      var arg := SplitArgs(args);
      if |arg| != 4 {
        outcome := Failed(UsageError);
      } else if !loaded {
        outcome := Failed(NoCoreFile);
      } else {
        var offset := ParseLiteral(arg[2]);
        var size := ToU64(ParseLiteral(arg[3]));
        var evaluated := host.evalAddress(arg[1]);
        if evaluated.None? {
          outcome := Failed(BadAddress(arg[1]));
        } else {
          outcome := HandleRequest(host, arg[0], evaluated.value, offset, size);
        }
      }
      if outcome.Mapped? {
        SuccessAddsOneSection(st, host, args);
      }
    }

    /** The pre-check, the size check and the file search, then the mapping. */
    method HandleRequest(host: Host, name: string, addr: u64, offset: int, size: u64) returns (outcome: Outcome)
      modifies this
      ensures (State(), outcome) == Request(old(State()), host, name, addr, offset, size)
    {
      var hit := FindOverlap(sections, addr);
      if hit {
        return Failed(Overlap(name, addr));
      }
      if size == 0 {
        return Failed(ZeroSize);
      }
      var res := FileOpen(host.fs, host.pathEnv, name);
      if !res.Opened? {
        return Failed(CannotOpen(name));
      }
      outcome := InstallMapping(host, name, addr, offset, size, res.file, res.canonical);
    }

    /** mmap, the new section, and the rebuilt table; the section is made
        before the table is built and stays when the build fails. */
    method InstallMapping(host: Host, name: string, addr: u64, offset: int, size: u64,
                          f: string, path: string) returns (outcome: Outcome)
      modifies this
      ensures (State(), outcome) == MapFile(old(State()), host, name, addr, offset, size, f, path)
    {
      var mapped := host.mmap(f, addr, size, offset);
      if mapped.None? {
        return Failed(Overlap(name, addr));
      }
      var named := host.uniqueName(sections, count);
      if named.None? {
        return Failed(Aborted);
      }
      var (tag, newCount) := named.value;
      var newSections := sections + [Section(Label(tag, path), mapped.value, size, 0)];
      var built := host.buildTable(newSections);
      sections, count := newSections, newCount;
      if built.None? {
        return Failed(NoSections);
      }
      table := built.value;
      outcome := Mapped(path, addr, AddU64(addr, size));
    }
  }
}
