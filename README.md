# mmapfile: a verified model of gdb's `mmapfile` command

gdb's `mmapfile FILENAME MAP-ADDRESS FILE-OFFSET LENGTH` command (alias
`mmap`) adds to a core-file debugging session the contents of files the
debugged process had memory-mapped but the core dump left out. The command:

1. splits its argument string on blanks;
2. insists on exactly four words and a loaded core;
3. reads FILE-OFFSET and LENGTH as `strtoll` literals, in base 16 when they
   start with `0x` and in base 10 otherwise;
4. evaluates MAP-ADDRESS;
5. rejects an address that falls inside the run of `.vmdata` sections that
   starts at the core's first such section;
6. rejects a zero length;
7. finds the file with `mmap_fileopen`: first as named, then along `PATH`
   with the special tokens `$cwd`, `~` and `$cdir`;
8. maps the file at the fixed address;
9. takes a name `mmap_section.<n>` from BFD's unique-name generator and
   adds a section named `<that name> (Mapped to <canonical path>)` to the
   core's section list;
10. rebuilds and installs the section table, then prints the mapped range.

The model is in six modules, one file each:

- `Machine` (`machine.dfy`) holds 64-bit unsigned words, their wrap-around
  addition, the signed-to-unsigned conversion and the `long long` range.
- `Tokenizer` (`tokenizer.dfy`) holds the `strtok (args, " ")` loop. Its
  specification function is `Tokens`; the method is `SplitArgs`.
- `Literals` (`literals.dfy`) holds the base choice and `strtoll`: leading
  white space, a sign, the optional `0x`/`0X` in base 16, the leading
  digits, and saturation at `LLONG_MAX`/`LLONG_MIN`.
- `Sections` (`sections.dfy`) holds the `.vmdata` overlap pre-check. It
  contains the corrected walk `FindOverlap` and the walk as written,
  `ScanAsWritten`, which reads past the end of the list (see Findings).
- `PathSearch` (`path_search.dfy`) holds `mmap_fileopen`. Its
  specification function is `Resolve`; the imperative version is
  `FileOpen` with its loops `SkipSeparators`, `SkipDotSlashes`,
  `SearchPath` and `JoinCandidate`.
- `MmapCommand` (`mmap_command.dfy`) holds the command. The pure
  specification is `Step`, split into `Request` and `MapFile`. The class
  `Core` holds the debugger state the command changes in place: whether a
  core is loaded, the section list, the installed table and the unique-name
  counter. Its method `Mmap` is proved equal to `Step`.

Calls into code outside the file are parameters of the model. They are
fields of `MmapCommand.Host` and `PathSearch.FileSystem`:

- `open` is the set of names that open;
- `mmap`;
- `parse_and_eval_address`;
- `bfd_get_unique_section_name`;
- `build_section_table`;
- `tilde_expand`;
- `gdb_realpath`;
- `current_directory`;
- `getenv ("PATH")`, already split into directory tokens.

The host is POSIX: `/` is the only directory separator, and a drive spec is
never present.

`MmapCommand.UniqueName` models what `bfd_get_unique_section_name` does. It
tries the numbers from the counter up and takes the first `n` for which no
section is named `mmap_section.<n>`, written in decimal. It leaves the
counter at `n + 1`. Past 999999 it aborts. `BfdNaming(host)` says that the
host's generator behaves exactly like `UniqueName`. The lemmas about name
freshness use it as their hypothesis and prove freshness from
`UniqueName`'s definition.

Points where the code behaves in a way a reader of the command might not
expect:

- **A mapped region is not found again by the pre-check.** The pre-check
  only looks at sections named `.vmdata`, and the new section is named after
  `mmap_section`. So the pre-check never sees a region this command made.
  Repeating a successful request in the same surroundings is not rejected as
  an overlap (`RepeatedRequestNotRejected`, `AppendedSectionInvisible`).
- **A failed table rebuild leaves the new section in place.** A failure of
  `build_section_table` happens after the new section was added to the core
  and after the counter was updated. Only the installed table stays as it
  was (`FailedRebuildLeavesSection`).
- **Labels stay distinct.** Two successful runs in a row label their new
  sections differently, even for the same file. The counter has moved past
  the first number, the two numbers render differently in decimal, and the
  rest of the label cannot make up the difference (`SuccessiveLabelsDiffer`).

## Model

| member | source | states |
|---|---|---|
| Machine.AddU64 | gdb/mmapfile.c:78 | `vma + size` on 64-bit unsigned values is the sum modulo 2^64; when it wraps the result is below both operands |
| Machine.ToU64 | gdb/mmapfile.c:64-67 | storing a `long long` into `size_t` takes it modulo 2^64: unchanged for non-negative values, plus 2^64 for negative ones |
| Tokenizer.Tokens | gdb/mmapfile.c:41-44 | the tokens strtok hands back, in order; their meaning is stated by TokensAreWords, LeadingDelimitersIgnored, TokensOfUnwords and TokensOfSpaced |
| Tokenizer.WordLength | gdb/mmapfile.c:41-44 | the token at the front of the text ends at the first blank: no blank before it, a blank or the end at it |
| Tokenizer.TokensAreWords | gdb/mmapfile.c:41-44 | every token strtok hands back is non-empty and holds no blank |
| Tokenizer.LeadingDelimitersIgnored | gdb/mmapfile.c:41-44 | blanks in front of the arguments do not change the tokens |
| Tokenizer.TokensOfUnwords | gdb/mmapfile.c:41-44 | splitting words joined by single blanks gives back exactly those words, in order |
| Tokenizer.TokensOfSpaced | gdb/mmapfile.c:41-44 | words separated by runs of blanks of any non-zero width, with any run of blanks in front and behind, split back into exactly those words, in order |
| Tokenizer.ScanWord | gdb/mmapfile.c:43-44 | one strtok call ends its token at the first blank after the start |
| Tokenizer.SplitArgs | gdb/mmapfile.c:41-44 | the strtok loop collects exactly the token sequence of the argument string |
| Literals.HexPrefixed | gdb/mmapfile.c:59-64 | the source's test `arg[i][0] == '0' && arg[i][1] == 'x'`; BaseOf states that it alone selects base 16 |
| Literals.BaseOf | gdb/mmapfile.c:59-67 | base 16 exactly when the literal starts with `0` and a lower-case `x`, base 10 otherwise |
| Literals.DigitValue | gdb/mmapfile.c:60-62 | a character's value is below the base; it is non-negative exactly for `0`-`9` and, in base 16, for `a`-`f` and `A`-`F`; every other character gives -1; HexLetterCaseIgnored states the letters' values |
| Literals.HexLetterCaseIgnored | gdb/mmapfile.c:59-60 | in base 16 an upper-case letter `A`-`F` is worth what its lower-case form is, 10 to 15 |
| Literals.DigitRun | gdb/mmapfile.c:60-62 | strtoll consumes the longest leading run of digits: all of it digits, and the character after it not a digit |
| Literals.SkipSpaces | gdb/mmapfile.c:60-62 | strtoll's leading white space is dropped: the result is a suffix that does not start with white space |
| Literals.SkipSpacesRemovesSpaces | gdb/mmapfile.c:60-62 | everything dropped in front of that suffix is white space |
| Literals.StripHexMarker | gdb/mmapfile.c:60-62 | the `0x`/`0X` strtoll skips in base 16; what follows is read by Magnitude, whose meaning MagnitudeOfDigits, HexRoundTrip and UpperCaseXReadsZero state |
| Literals.Magnitude | gdb/mmapfile.c:60-62 | the unsigned value strtoll reads after the sign: the optional `0x`/`0X` in base 16, then the leading digit run; MagnitudeOfDigits, DecimalRoundTrip, HexRoundTrip and UpperCaseXReadsZero state its value |
| Literals.Saturate | gdb/mmapfile.c:60-62 | a magnitude read without a '-' is kept when it is at most LLONG_MAX and becomes LLONG_MAX otherwise |
| Literals.SaturateNegated | gdb/mmapfile.c:60-62 | a magnitude read after a '-' is negated when it is at most 2^63 and becomes LLONG_MIN otherwise |
| Literals.Strtoll | gdb/mmapfile.c:60-67 | strtoll's result always lies in the range of `long long` |
| Literals.ParseLiteral | gdb/mmapfile.c:59-67 | the value of an offset or length literal lies in the `long long` range, and a `0x` literal is never negative |
| Literals.MagnitudeOfDigits | gdb/mmapfile.c:60-62 | a string made only of digits is consumed whole and read as its positional value |
| Literals.DecimalDigitsPlain | gdb/mmapfile.c:59-62 | a string of decimal digits has no white space, sign or `0x` in front and is read in base 10 |
| Literals.DecimalRoundTrip | gdb/mmapfile.c:61-62 | a decimal literal up to LLONG_MAX reads as its value |
| Literals.HexRoundTrip | gdb/mmapfile.c:59-60 | `0x` followed by the hexadecimal digits of a value up to LLONG_MAX reads as that value |
| Literals.NegativeDecimalRoundTrip | gdb/mmapfile.c:61-62 | a '-' in front of a decimal literal of magnitude at most 2^63 reads as the negated value |
| Literals.MinusOneLength | gdb/mmapfile.c:64-67 | a LENGTH of `-1` becomes the size 2^64 - 1, not 0 |
| Literals.UpperCaseXReadsZero | gdb/mmapfile.c:59-62 | a literal starting with `0X` is read in base 10 and is 0, whatever follows |
| Literals.HexSixteen | gdb/mmapfile.c:59-60 | `0x10` is 16 |
| Literals.HexUpperFF | gdb/mmapfile.c:59-60 | `0xFF` is 255 |
| Literals.DecimalSixteen | gdb/mmapfile.c:61-62 | `16` is 16 |
| Sections.Covers | gdb/mmapfile.c:78 | the test `addr >= vma && addr < vma + size` with the sum taken modulo 2^64; CoversIsHalfOpen and WrappedSectionCoversNothing state its meaning |
| Sections.CoversIsHalfOpen | gdb/mmapfile.c:78 | without wrap-around, the test is membership of [vma, vma + size) |
| Sections.WrappedSectionCoversNothing | gdb/mmapfile.c:78 | a section whose end wraps past 2^64 fails the test for every address |
| Sections.FirstNamed | gdb/mmapfile.c:74 | bfd_get_section_by_name finds the first section with the name, or reports none: every section before it has another name |
| Sections.RunStart | gdb/mmapfile.c:74 | the walk starts at the first `.vmdata` section; its meaning is FirstNamed's contract at 0 |
| Sections.RunEnd | gdb/mmapfile.c:84-87 | the walk continues exactly while the next section is also `.vmdata`: every section of the run is `.vmdata` and the one after it is not |
| Sections.VmdataHit | gdb/mmapfile.c:74-88 | the pre-check's verdict the command uses: some section of the `.vmdata` run covers the address; FindOverlap, AppendedSectionInvisible, HitDependsOnPrefix and ScanAsWrittenAgrees state its meaning |
| Sections.FindOverlap | gdb/mmapfile.c:74-88 | the pre-check rejects exactly when some section of the `.vmdata` run starting at the first `.vmdata` section covers the address |
| Sections.AppendedSectionInvisible | gdb/mmapfile.c:74-88 | appending a section with another name than `.vmdata` never changes the pre-check's verdict, for any address |
| Sections.HitDependsOnPrefix | gdb/mmapfile.c:76-88 | two section lists that agree up to past the end of the run give the same verdict |
| Sections.LaterSectionsIgnored | gdb/mmapfile.c:84-87 | sections after a run that closes before them are never looked at; replacing them changes nothing |
| Sections.EndAddressNotChecked | gdb/mmapfile.c:78 | only the start address is checked: with one `.vmdata` section [0x2000, 0x3000), the address 0x1000 is not rejected, whatever the length |
| Sections.WalkAsWritten | gdb/mmapfile.c:76-88 | the walk over the `.vmdata` run as written, from one section on; its meaning is stated by WalkAsWrittenMeaning |
| Sections.ScanAsWritten | gdb/mmapfile.c:74-88 | the pre-check as written, from the first `.vmdata` section; ScanAsWrittenAgrees and TrailingRunDereferencesNull state what it does |
| Sections.WalkAsWrittenMeaning | gdb/mmapfile.c:76-88 | the walk as written finds a covering section of the run exactly when there is one; without one it reads `next` of the last section exactly when the run reaches the end of the list |
| Sections.ScanAsWrittenAgrees | gdb/mmapfile.c:74-88 | wherever the walk as written does not read past the list it agrees with the pre-check's verdict |
| Sections.TrailingRunDereferencesNull | gdb/mmapfile.c:84 | when the `.vmdata` run ends the list and covers nothing, the walk as written reads `next->name` through NULL |
| Sections.NullNextExample | gdb/mmapfile.c:84 | a core whose only section is one `.vmdata` region, with an address outside it, takes that path |
| PathSearch.StripLeadingSeparators | gdb/mmapfile.c:189-190 | leading separators go: the result is a suffix that does not start with one |
| PathSearch.StripLeadingSeparatorsRemovesSeparators | gdb/mmapfile.c:189-190 | what was removed consists of separators only |
| PathSearch.StripDotSlashes | gdb/mmapfile.c:193-194 | leading `./` pairs go: the result is a suffix that does not start with `./` |
| PathSearch.StripDotSlashesRemovesPairs | gdb/mmapfile.c:193-194 | what was removed is a run of `./` pairs |
| PathSearch.NormalisedName | gdb/mmapfile.c:188-194 | the name tried along the path: leading separators, then leading `./` pairs, removed; NormalisedNameIsSuffix, NormalisedNameLeadingSeparator and NormaliseName state its meaning |
| PathSearch.NormalisedNameIsSuffix | gdb/mmapfile.c:188-194 | the name tried along the path is a suffix of the given name and never starts with `./` |
| PathSearch.NormalisedNameLeadingSeparator | gdb/mmapfile.c:188-194 | it starts with a separator only when `./` pairs followed the leading separators |
| PathSearch.NormalisedNameMayStartWithSeparator | gdb/mmapfile.c:188-194 | the loops run once each in that order, so `.//foo` becomes `/foo` |
| PathSearch.SkipSeparators | gdb/mmapfile.c:189-190 | the pointer-advancing loop computes StripLeadingSeparators |
| PathSearch.SkipDotSlashes | gdb/mmapfile.c:193-194 | the two-at-a-time loop computes StripDotSlashes |
| PathSearch.NormaliseName | gdb/mmapfile.c:188-194 | the two loops in order compute the normalised name |
| PathSearch.TrimTrailingSeparators | gdb/mmapfile.c:257-259 | trimming gives a prefix of the directory that does not end in a separator |
| PathSearch.TrimRemovesSeparators | gdb/mmapfile.c:257-259 | what was trimmed consists of separators only |
| PathSearch.TrimIdempotent | gdb/mmapfile.c:257-259 | trimming a trimmed directory changes nothing |
| PathSearch.JoinPath | gdb/mmapfile.c:257-262 | the trimmed directory, one `/`, then the name; TrimTrailingSeparators and TrimRemovesSeparators state the trim, and JoinCandidate is proved equal to it |
| PathSearch.JoinCandidate | gdb/mmapfile.c:257-262 | the candidate is the trimmed directory, one `/`, and the normalised name |
| PathSearch.ExpandToken | gdb/mmapfile.c:207-255 | the directory one `PATH` token stands for; OnlyCdirSkipped states it case by case |
| PathSearch.OnlyCdirSkipped | gdb/mmapfile.c:207-255 | a token yields no attempt exactly when it is `$cdir`; `$cwd` gives the current directory, a token holding `~` its expansion, and any other token itself |
| PathSearch.Candidate | gdb/mmapfile.c:257-266 | the file name tried for one token: none for `$cdir`, otherwise JoinPath of the expanded directory; OnlyCdirSkipped states the expansion |
| PathSearch.Opens | gdb/mmapfile.c:257-266 | that attempt's `open` succeeds; SearchIsFirstMatch and ResolveMeaning state the search in its terms |
| PathSearch.SearchTokens | gdb/mmapfile.c:175-176 | a NULL `path` is read as `"."`; NullPathSearch and NullPathTriesCurrentDirectory state what that gives |
| PathSearch.NullPathSearch | gdb/mmapfile.c:175-266 | with a NULL path the search makes one attempt, `./` followed by the name, and finds it exactly when that opens |
| PathSearch.Search | gdb/mmapfile.c:203-267 | the search along the tokens; SearchIsFirstMatch and EarlierTokenWins state its meaning |
| PathSearch.SearchIsFirstMatch | gdb/mmapfile.c:203-267 | the search fails exactly when no token's attempt opens; otherwise it returns the attempt of the first token whose attempt opens |
| PathSearch.RealpathArgument | gdb/mmapfile.c:281-292 | the name handed to gdb_realpath; RealpathArgumentShape states its shape |
| PathSearch.RealpathArgumentShape | gdb/mmapfile.c:281-292 | an absolute name is canonicalised as it is; a relative one after the current directory and exactly one separator between them, added only when the directory lacks one |
| PathSearch.Canonicalise | gdb/mmapfile.c:281-292 | gdb_realpath of the name RealpathArgument builds; RealpathArgumentShape and ResolveMeaning state its meaning |
| PathSearch.Resolve | gdb/mmapfile.c:149-298 | what mmap_fileopen opens and the canonical name it returns; ResolveMeaning states its meaning |
| PathSearch.ResolveMeaning | gdb/mmapfile.c:149-298 | an empty name fails at once; a name that opens as given is used as given; otherwise the first opening token wins and the search fails only when none opens; what opened is canonicalised |
| PathSearch.NullPathTriesCurrentDirectory | gdb/mmapfile.c:175-194 | with no `PATH`, a name that does not open as given is found exactly when `./` followed by its normalised name opens, and is then canonicalised; otherwise the search fails |
| PathSearch.EarlierTokenWins | gdb/mmapfile.c:203-267 | of two tokens that both find the file, the earlier one is used |
| PathSearch.SearchPath | gdb/mmapfile.c:203-267 | the loop over the tokens computes Search |
| PathSearch.FileOpen | gdb/mmapfile.c:149-298 | mmap_fileopen computes Resolve |
| MmapCommand.NameTaken | gdb/mmapfile.c:113 | the generator's lookup of a candidate name among the core's sections; NameTakenMeansNamed states its meaning |
| MmapCommand.NameTakenMeansNamed | gdb/mmapfile.c:113 | the generator's walk finds a name exactly when some section carries it |
| MmapCommand.Numbered | gdb/mmapfile.c:113 | the generator's candidate: the template, `.`, then the number in decimal as `".%d"` writes it; BfdNameIsNumbered and LabelsOfDistinctNumbersDiffer state what follows from it |
| MmapCommand.UniqueName | gdb/mmapfile.c:113 | the generator's name is `mmap_section.<n>` for an `n` from the counter up to 999999, no section carries it, and the counter is left at `n + 1` |
| MmapCommand.UniqueNameIsFirstFree | gdb/mmapfile.c:113 | `n` is the first free number from the counter; the generator aborts exactly when every number from the counter to 999999 is taken |
| MmapCommand.BfdNameIsFresh | gdb/mmapfile.c:113 | a host with BFD's generator hands out a name no section has and moves the counter forward |
| MmapCommand.BfdNameIsNumbered | gdb/mmapfile.c:113 | that name is `mmap_section.<n>` for the `n` just below the new counter |
| MmapCommand.Label | gdb/mmapfile.c:115-117 | the new section's label is never `.vmdata`, and its length is the name's, the path's and 13 more |
| MmapCommand.LabelLayout | gdb/mmapfile.c:115-117 | the label is the generated name, then ` (Mapped to `, then the canonical path, then `)` |
| MmapCommand.LabelsOfDistinctNumbersDiffer | gdb/mmapfile.c:113-117 | labels made from different numbers differ, whatever the two paths |
| MmapCommand.SuccessiveBfdLabelsDiffer | gdb/mmapfile.c:113-117 | two calls of BFD's generator, the second from the counter the first left, give labels that differ whatever the paths |
| MmapCommand.Step | gdb/mmapfile.c:26-147 | every failure except the rebuild failure leaves the whole state as it was; a success or a rebuild failure appends exactly one section and keeps the earlier ones; a rebuild failure keeps the installed table |
| MmapCommand.Request | gdb/mmapfile.c:74-99 | the same frame properties once the address is known |
| MmapCommand.MapFile | gdb/mmapfile.c:105-143 | the same frame properties for mapping and registration |
| MmapCommand.OnlyZeroLengthRejected | gdb/mmapfile.c:90-91 | the size check rejects exactly the LENGTH literals that read as 0; a negative length passes it as a size of at least 2^63 |
| MmapCommand.ErrorOrder | gdb/mmapfile.c:48-99 | checks take effect in the order usage, core, address, overlap, size, file: each error arises whenever its check is the first to fail |
| MmapCommand.ErrorsArriveInOrder | gdb/mmapfile.c:48-91 | the core, address and size errors arise only when every earlier check passed |
| MmapCommand.StepAfterChecks | gdb/mmapfile.c:41-72 | once the argument count, the core and the address pass, the command is the request on the parsed offset and size |
| MmapCommand.RequestOutcomes | gdb/mmapfile.c:74-113 | a size error only after the pre-check passed; a file error only for a non-zero size; an overlap from the pre-check or from mmap on an opened file; mapping only after all three checks passed; the generator's abort exactly when mmap succeeded and the generator has no number left |
| MmapCommand.RequestReachesMapFile | gdb/mmapfile.c:74-100 | past the three checks the request is the mapping of the file that opened |
| MmapCommand.MapFileOutcomes | gdb/mmapfile.c:105-140 | an overlap exactly when mmap fails; an abort exactly when mmap succeeded and the generator has nothing; otherwise a new section, with or without the table |
| MmapCommand.MapFileSuccess | gdb/mmapfile.c:105-146 | a successful mapping appends the section built from the mapped address and the generated name, installs the rebuilt table and takes the new counter |
| MmapCommand.MapFileRebuildFails | gdb/mmapfile.c:121-140 | a failed rebuild comes after the section was appended and the counter moved; only the table is as before |
| MmapCommand.SuccessAddsOneSection | gdb/mmapfile.c:105-146 | a success appends one section: the mapped address, the requested size, alignment 0, the label of the generated name and canonical path; the counter takes the generator's new value and the table is rebuilt from the new list; the message spans addr to addr + size modulo 2^64 |
| MmapCommand.FailedRebuildLeavesSection | gdb/mmapfile.c:121-140 | when the rebuild fails, the new section stays in the list, the counter has taken the generator's new value, and the installed table is unchanged |
| MmapCommand.SuccessNameIsFresh | gdb/mmapfile.c:113-119 | with BFD's generator, a success labels its section from a name no earlier section has, and the counter moves strictly forward |
| MmapCommand.SuccessiveLabelsDiffer | gdb/mmapfile.c:113-119 | with BFD's generator, two successes in a row add two sections whose labels differ, even for the same file; the first section is kept as it was |
| MmapCommand.RepeatedRequestNotRejected | gdb/mmapfile.c:74-140 | after a success, the mapped address does not hit the pre-check; repeating the same request maps again or fails only at the generator or the table rebuild, never as an overlap |
| MmapCommand.Core.constructor | gdb/mmapfile.c:21 | a session starts with the unique-name counter at 1 |
| MmapCommand.Core.Mmap | gdb/mmapfile.c:26-147 | the command changes the state exactly as Step says; it keeps the whole state on every failure but the rebuild failure, and appends one section on success |
| MmapCommand.Core.HandleRequest | gdb/mmapfile.c:74-99 | the pre-check, size check and file search compute Request |
| MmapCommand.Core.InstallMapping | gdb/mmapfile.c:105-143 | mmap, the section and the table rebuild compute MapFile; the section and counter are updated before the rebuild is checked |

## Left out

- `_initialize_mmap` (command registration and help text) is not part of this model.
- Output and errors: `printf_filtered`, `error` and `perror_with_name` become the `Outcome` value. The unwinding `error` performs is not modelled.
- Collaborators: `open`, `mmap`, `parse_and_eval_address`, `bfd_get_unique_section_name`, `build_section_table`, `tilde_expand`, `gdb_realpath`, `current_directory` and `getenv` are parameters of the model. `mmap` is a function of the opened name, address, size and offset.
- `bfd_get_unique_section_name` (bfd/section.c) is not part of this model. `UniqueName` states its behaviour from its call at gdb/mmapfile.c:113. The section hash table it searches is read as the core's section list. The facts about names hold for hosts that meet `BfdNaming`.
- `abort ()` in the generator, past 999999, ends gdb. The model gives the `Aborted` error and keeps the whole state.
- NULL results of `bfd_make_section_anyway_with_flags` and of the generator's own allocation are not modelled: the model always gets a section and a name.
- The region `mmap` fixes in gdb's own address space (`MAP_FIXED`) is not part of `CoreState`. It stays mapped after a rebuild failure or an abort. `mmap` is modelled as a function of its arguments alone; the second ensures of `RepeatedRequestNotRejected` relies on that, since a second identical call then succeeds again.
- `dirnames_to_char_ptr_vec`: the `PATH` value comes already split into tokens.
- `mmap_core`: installing the table is modelled as the `table` field.
- Section flags and `sec->contents` are not part of the section record; `close (fd)` and the descriptor leaked on the error paths after the open are not modelled.
- A NULL `args` (the command typed without arguments): the model reads it as the empty string, which gives the usage error. The source hands NULL to its first `strtok` call at gdb/mmapfile.c:41, which then resumes whatever earlier scan its hidden state holds, so the usage error is the model's choice and not guaranteed by the code.
- Strings: a Dafny `string` stands for a NUL-free C string of single-byte characters. Lengths, such as the one in `Label`'s ensures and the `snprintf` size at gdb/mmapfile.c:115-117, count characters where the code counts bytes, and the two agree only for such strings.
- Memory management: buffer sizes, `alloca`, `malloc` and `xfree` are not modelled. This includes two out-of-bounds writes:
  - `sprintf` writes the label's terminating NUL one byte past the `malloc (snprintf (NULL, ...))` allocation;
  - the strtok loop stores into `arg[4]` of the four-slot `arg` array for every input with at least four words, and into `arg[5]`, `arg[6]` and on for longer inputs, which then get the usage error.
- Literals.Strtoll: characters after the digits are ignored, like the source's NULL end pointer; `errno` is not modelled.
- The DOS drive spec and `\` separators are absent: the host is POSIX.
- PathSearch.RealpathArgument: for an empty `current_directory` the source reads the byte before the string; the model reads the empty string as not ending in a separator.
- The negative FILE-OFFSET is passed to `mmap` as the signed value; what the system does with it belongs to the `mmap` parameter.

## Findings

| source | as written | input that shows it | evidently intended | confidence | as-written member | corrected member |
|---|---|---|---|---|---|---|
| gdb/mmapfile.c:84 | the walk reads `vmsec->next->name` without checking `vmsec->next`, so a `.vmdata` run that ends the section list is followed through NULL when no section of it covers the address | a core whose only section is `.vmdata` at 0x1000 of size 0x1000, and MAP-ADDRESS 0x5000 | the end of the list ends the run, and the request is not rejected | not executed | Sections.TrailingRunDereferencesNull | Sections.FindOverlap |
