/** `mmap_fileopen`: find the file to map, first as named, then along a search
    path, and report the canonical name of what was opened. The host is POSIX:
    '/' is the only directory separator and a drive spec is never present. */
module PathSearch {
  import opened Machine

  /** What the resolver asks of its surroundings. `openable` holds the names,
      as handed to `open (name, O_RDONLY)`, on which that call succeeds. */
  datatype FileSystem = FileSystem(
    cwd: string,                    // gdb's current_directory
    openable: set<string>,
    tildeExpand: string -> string,  // readline's tilde_expand
    realpath: string -> string      // gdb_realpath
  )

  /** What the resolver reports: the -1/ENOENT return for an empty name, the -1
      return after every candidate failed (the name comes back NULL), or the
      name that opened together with its canonical form. */
  datatype OpenResult = EmptyName | NotFound | Opened(file: string, canonical: string)

  const SLASH: string := "/"
  const CWD_TOKEN: string := "$cwd"
  const CDIR_TOKEN: string := "$cdir"

  predicate IsDirSeparator(c: char) { c == '/' }

  predicate IsAbsolutePath(s: string) { |s| > 0 && IsDirSeparator(s[0]) }

  predicate EndsWithSeparator(s: string) { |s| > 0 && IsDirSeparator(s[|s| - 1]) }

  predicate StartsWithDotSlash(s: string) { |s| >= 2 && s[0] == '.' && IsDirSeparator(s[1]) }

  /** `/foo => foo`: every leading separator goes. */
  function StripLeadingSeparators(s: string): (t: string)
    ensures |t| <= |s| && t == s[|s| - |t|..]
    ensures t == [] || !IsDirSeparator(t[0])
  {
    if |s| > 0 && IsDirSeparator(s[0]) then StripLeadingSeparators(s[1..]) else s
  }

  /** What StripLeadingSeparators removes is separators only. */
  lemma {:induction false} StripLeadingSeparatorsRemovesSeparators(s: string)
    ensures forall k :: 0 <= k < |s| - |StripLeadingSeparators(s)| ==> IsDirSeparator(s[k])
    decreases |s|
  {
    if |s| > 0 && IsDirSeparator(s[0]) {
      StripLeadingSeparatorsRemovesSeparators(s[1..]);
      assert forall k :: 1 <= k < |s| ==> s[k] == s[1..][k - 1];
    }
  }

  /** `p` is a run of "./" pairs. */
  predicate DotSlashRun(p: string)
    decreases |p|
  {
    p == [] || (StartsWithDotSlash(p) && DotSlashRun(p[2..]))
  }

  /** `./foo => foo`: leading "./" pairs go, as many as there are. */
  function StripDotSlashes(s: string): (t: string)
    ensures |t| <= |s| && t == s[|s| - |t|..]
    ensures !StartsWithDotSlash(t)
    decreases |s|
  {
    if StartsWithDotSlash(s) then StripDotSlashes(s[2..]) else s
  }

  /** What StripDotSlashes removes is a run of "./" pairs. */
  lemma {:induction false} StripDotSlashesRemovesPairs(s: string)
    ensures DotSlashRun(s[..|s| - |StripDotSlashes(s)|])
    decreases |s|
  {
    var t := StripDotSlashes(s);
    if StartsWithDotSlash(s) {
      StripDotSlashesRemovesPairs(s[2..]);
      assert s[..|s| - |t|][2..] == s[2..][..|s| - 2 - |t|];
    } else {
      assert s[..|s| - |t|] == [];
    }
  }

  /** The name the search path is tried with. */
  function NormalisedName(s: string): string
  {
    StripDotSlashes(StripLeadingSeparators(s))
  }

  /** A suffix of a suffix is a suffix. */
  lemma SuffixOfSuffix(s: string, u: string, t: string)
    requires |t| <= |u| <= |s|
    requires u == s[|s| - |u|..] && t == u[|u| - |t|..]
    ensures t == s[|s| - |t|..]
  {
    forall i | 0 <= i < |t| ensures t[i] == s[|s| - |t| + i] {
      assert t[i] == u[|u| - |t| + i];
    }
  }

  /** The normalised name is a suffix of the name and never starts with "./". */
  lemma NormalisedNameIsSuffix(s: string)
    ensures var t := NormalisedName(s);
      |t| <= |s| && t == s[|s| - |t|..] && !StartsWithDotSlash(t)
  {
    var u := StripLeadingSeparators(s);
    SuffixOfSuffix(s, u, StripDotSlashes(u));
  }

  /** It starts with a separator only when "./" pairs were removed after the
      leading separators. */
  lemma NormalisedNameLeadingSeparator(s: string)
    ensures var t := NormalisedName(s);
      t != [] && IsDirSeparator(t[0]) ==> StartsWithDotSlash(StripLeadingSeparators(s))
  {
    var u := StripLeadingSeparators(s);
    if !StartsWithDotSlash(u) {
      assert StripDotSlashes(u) == u;
    }
  }

  /** The stripping is done once: a name of the form "./" then "/" comes out
      starting with a separator. */
  lemma NormalisedNameMayStartWithSeparator()
    ensures NormalisedName(".//foo") == "/foo"
  {
    assert StripLeadingSeparators(".//foo") == ".//foo";
    assert StartsWithDotSlash(".//foo");
    assert ".//foo"[2..] == "/foo";
    assert !StartsWithDotSlash("/foo");
  }

  /** `/foo => foo`: the pointer steps over every leading separator. */
  method SkipSeparators(name: string) returns (s: string)
    ensures s == StripLeadingSeparators(name)
  {
    s := name;
    while |s| > 0 && IsDirSeparator(s[0])
      invariant StripLeadingSeparators(s) == StripLeadingSeparators(name)
    {
      s := s[1..];
    }
  }

  /** `./foo => foo`: the pointer steps over "./" pairs, two characters at a time. */
  method SkipDotSlashes(name: string) returns (s: string)
    ensures s == StripDotSlashes(name)
  {
    s := name;
    while StartsWithDotSlash(s)
      invariant StripDotSlashes(s) == StripDotSlashes(name)
      decreases |s|
    {
      s := s[2..];
    }
  }

  /** The two stripping loops in the source's order. */
  method NormaliseName(name: string) returns (s: string)
    ensures s == NormalisedName(name)
  {
    s := SkipSeparators(name);
    s := SkipDotSlashes(s);
  }

  /** The directory with its trailing separators removed. */
  function TrimTrailingSeparators(d: string): (t: string)
    ensures |t| <= |d| && t == d[..|t|]
    ensures !EndsWithSeparator(t)
  {
    if EndsWithSeparator(d) then TrimTrailingSeparators(d[..|d| - 1]) else d
  }

  /** What the trim removes is separators only. */
  lemma {:induction false} TrimRemovesSeparators(d: string)
    ensures forall k :: |TrimTrailingSeparators(d)| <= k < |d| ==> IsDirSeparator(d[k])
  {
    if EndsWithSeparator(d) {
      TrimRemovesSeparators(d[..|d| - 1]);
    }
  }

  /** Trimming twice is trimming once. */
  lemma TrimIdempotent(d: string)
    ensures TrimTrailingSeparators(TrimTrailingSeparators(d)) == TrimTrailingSeparators(d)
  {
  }

  /** The candidate path for directory `dir`: no separators at the end of
      `dir`, then exactly one, then the name. */
  function JoinPath(dir: string, name: string): string
  {
    TrimTrailingSeparators(dir) + SLASH + name
  }

  /** Building the candidate: trim the copied directory, then append "/" and the name. */
  method JoinCandidate(dir: string, name: string) returns (filename: string)
    ensures filename == JoinPath(dir, name)
  {
    var len := |dir|;
    assert dir[..len] == dir;
    while len > 0 && IsDirSeparator(dir[len - 1])
      invariant 0 <= len <= |dir|
      invariant TrimTrailingSeparators(dir[..len]) == TrimTrailingSeparators(dir)
    {
      assert dir[..len][..len - 1] == dir[..len - 1];
      len := len - 1;
    }
    filename := dir[..len] + SLASH + name;
  }

  /** The directory a search-path token stands for, or None for the token that
      is deliberately skipped. `$cwd` is tested first, then a `~` anywhere in
      the token, then `$cdir`. */
  function ExpandToken(fs: FileSystem, tok: string): Option<string>
  {
    if tok == CWD_TOKEN then Some(fs.cwd)
    else if '~' in tok then Some(fs.tildeExpand(tok))
    else if tok == CDIR_TOKEN then None
    else Some(tok)
  }

  /** Only `$cdir` is skipped; every other token yields a directory. */
  lemma OnlyCdirSkipped(fs: FileSystem, tok: string)
    ensures ExpandToken(fs, tok).None? <==> tok == CDIR_TOKEN
    ensures tok == CWD_TOKEN ==> ExpandToken(fs, tok) == Some(fs.cwd)
    ensures tok != CWD_TOKEN && '~' in tok ==> ExpandToken(fs, tok) == Some(fs.tildeExpand(tok))
    ensures tok != CWD_TOKEN && '~' !in tok && tok != CDIR_TOKEN ==> ExpandToken(fs, tok) == Some(tok)
  {
    assert '~' !in CDIR_TOKEN;
  }

  function Candidate(fs: FileSystem, tok: string, name: string): Option<string>
  {
    match ExpandToken(fs, tok)
    case None => None
    case Some(d) => Some(JoinPath(d, name))
  }

  /** The attempt for `tok` opens. */
  predicate Opens(fs: FileSystem, tok: string, name: string)
  {
    Candidate(fs, tok, name).Some? && Candidate(fs, tok, name).value in fs.openable
  }

  /** The candidate of the first token whose attempt opens. */
  function Search(fs: FileSystem, toks: seq<string>, name: string): Option<string>
  {
    if toks == [] then None
    else if Opens(fs, toks[0], name) then Candidate(fs, toks[0], name)
    else Search(fs, toks[1..], name)
  }

  /** First match, not best match: the search succeeds iff some token's
      attempt opens, and then it returns the attempt of the first such token. */
  lemma {:induction false} SearchIsFirstMatch(fs: FileSystem, toks: seq<string>, name: string)
    ensures Search(fs, toks, name).None? <==> forall i :: 0 <= i < |toks| ==> !Opens(fs, toks[i], name)
    ensures Search(fs, toks, name).Some? ==>
      exists i :: 0 <= i < |toks| && Opens(fs, toks[i], name)
        && Candidate(fs, toks[i], name) == Search(fs, toks, name)
        && forall j :: 0 <= j < i ==> !Opens(fs, toks[j], name)
  {
    if toks != [] && !Opens(fs, toks[0], name) {
      var rest := toks[1..];
      SearchIsFirstMatch(fs, rest, name);
      assert forall i :: 1 <= i < |toks| ==> toks[i] == rest[i - 1];
      if Search(fs, toks, name).Some? {
        var i :| 0 <= i < |rest| && Opens(fs, rest[i], name)
          && Candidate(fs, rest[i], name) == Search(fs, rest, name)
          && forall j :: 0 <= j < i ==> !Opens(fs, rest[j], name);
        assert forall j :: 0 <= j < i + 1 ==> !Opens(fs, toks[j], name) by {
          forall j | 0 <= j < i + 1 ensures !Opens(fs, toks[j], name) {
            if j > 0 {
              assert toks[j] == rest[j - 1];
            }
          }
        }
        assert toks[i + 1] == rest[i];
      } else {
        assert forall i :: 0 <= i < |toks| ==> !Opens(fs, toks[i], name) by {
          forall i | 0 <= i < |toks| ensures !Opens(fs, toks[i], name) {
            if i > 0 {
              assert toks[i] == rest[i - 1];
            }
          }
        }
      }
    }
  }

  /** A NULL search path is read as ".". */
  function SearchTokens(path: Option<seq<string>>): seq<string>
  {
    if path.None? then ["."] else path.value
  }

  /** The name handed to gdb_realpath: an absolute name as it is, a relative
      one behind the current directory, with a separator between the two only
      when the directory does not already end in one. */
  function RealpathArgument(cwd: string, f: string): string
  {
    if IsAbsolutePath(f) then f
    else cwd + (if EndsWithSeparator(cwd) then "" else SLASH) + f
  }

  /** The shape of that name: a relative `f` ends the result, preceded by a
      separator and by the current directory, and the two are never joined by
      a second separator. */
  lemma RealpathArgumentShape(cwd: string, f: string)
    ensures var p := RealpathArgument(cwd, f);
      && (IsAbsolutePath(f) ==> p == f)
      && (!IsAbsolutePath(f) ==>
            && |p| > |f| && p[|p| - |f|..] == f && IsDirSeparator(p[|p| - |f| - 1])
            && |cwd| + |f| <= |p| <= |cwd| + 1 + |f| && p[..|cwd|] == cwd
            && (|p| == |cwd| + |f| <==> EndsWithSeparator(cwd)))
      && (IsAbsolutePath(cwd) ==> IsAbsolutePath(p))
  {
  }

  function Canonicalise(fs: FileSystem, f: string): string
  {
    fs.realpath(RealpathArgument(fs.cwd, f))
  }

  /** What `mmap_fileopen (path, name, &filename_opened)` computes. */
  function Resolve(fs: FileSystem, path: Option<seq<string>>, name: string): OpenResult
  {
    if name == [] then EmptyName
    else if name in fs.openable then Opened(name, Canonicalise(fs, name))
    else match Search(fs, SearchTokens(path), NormalisedName(name))
      case None => NotFound
      case Some(f) => Opened(f, Canonicalise(fs, f))
  }

  /** The resolver's promises: an empty name fails at once; a name that opens
      as given is used as given and no token is consulted; otherwise the first
      token whose attempt with the normalised name opens wins, and the search
      fails only when no attempt opens. Whatever opened is canonicalised. */
  lemma ResolveMeaning(fs: FileSystem, path: Option<seq<string>>, name: string)
    ensures Resolve(fs, path, name).EmptyName? <==> name == []
    ensures name != [] && name in fs.openable ==> Resolve(fs, path, name) == Opened(name, Canonicalise(fs, name))
    ensures name != [] && name !in fs.openable ==>
      var toks, n := SearchTokens(path), NormalisedName(name);
      && (Resolve(fs, path, name).NotFound? <==> forall i :: 0 <= i < |toks| ==> !Opens(fs, toks[i], n))
      && (Resolve(fs, path, name).Opened? ==>
            exists i :: 0 <= i < |toks| && Candidate(fs, toks[i], n) == Some(Resolve(fs, path, name).file)
              && forall j :: 0 <= j < i ==> !Opens(fs, toks[j], n))
    ensures Resolve(fs, path, name).Opened? ==>
      && Resolve(fs, path, name).file in fs.openable
      && Resolve(fs, path, name).canonical == Canonicalise(fs, Resolve(fs, path, name).file)
  {
    SearchIsFirstMatch(fs, SearchTokens(path), NormalisedName(name));
  }

  /** A NULL search path makes one attempt: the name behind the current
      directory, `./`. */
  lemma NullPathSearch(fs: FileSystem, n: string)
    ensures Search(fs, SearchTokens(None), n) == if "./" + n in fs.openable then Some("./" + n) else None
  {
    assert '~' !in ".";
    assert ExpandToken(fs, ".") == Some(".");
    assert !EndsWithSeparator(".");
    assert TrimTrailingSeparators(".") == ".";
    assert "." + SLASH + n == "./" + n;
    assert Candidate(fs, ".", n) == Some("./" + n);
    assert ["."][1..] == [];
  }

  /** With no `PATH` at all, the only attempt is the normalised name behind
      `./`. */
  lemma NullPathTriesCurrentDirectory(fs: FileSystem, name: string)
    requires name != [] && name !in fs.openable
    ensures var f := "./" + NormalisedName(name);
      Resolve(fs, None, name) == if f in fs.openable then Opened(f, Canonicalise(fs, f)) else NotFound
  {
    NullPathSearch(fs, NormalisedName(name));
  }

  /** Of two tokens that both find the file, the earlier one is used. */
  lemma EarlierTokenWins(fs: FileSystem, a: string, b: string, name: string)
    requires name != [] && name !in fs.openable
    requires Opens(fs, a, NormalisedName(name)) && Opens(fs, b, NormalisedName(name))
    ensures Resolve(fs, Some([a, b]), name).Opened?
    ensures Resolve(fs, Some([a, b]), name).file == Candidate(fs, a, NormalisedName(name)).value
  {
  }

  /** The loop over the search-path tokens: one attempt per token, `$cdir`
      skipped, stopping at the first attempt that opens. */
  method SearchPath(fs: FileSystem, toks: seq<string>, s: string) returns (res: Option<string>)
    ensures res == Search(fs, toks, s)
  {
    var ix := 0;
    while ix < |toks|
      invariant 0 <= ix <= |toks|
      invariant Search(fs, toks[ix..], s) == Search(fs, toks, s)
    {
      assert toks[ix..][1..] == toks[ix + 1..];
      var dir := ExpandToken(fs, toks[ix]);
      if dir.None? {
        ix := ix + 1;
        continue;
      }
      var filename := JoinCandidate(dir.value, s);
      if filename in fs.openable {
        return Some(filename);
      }
      ix := ix + 1;
    }
    return None;
  }

  /** The resolver as the source runs it: the verbatim attempt, then the
      stripping loops, then the search-path loop. */
  method FileOpen(fs: FileSystem, path: Option<seq<string>>, name: string) returns (r: OpenResult)
    ensures r == Resolve(fs, path, name)
  {
    if name == [] {
      return EmptyName;
    }
    var filename := name;
    if filename !in fs.openable {
      var s := NormaliseName(name);
      var found := SearchPath(fs, SearchTokens(path), s);
      if found.None? {
        return NotFound;
      }
      filename := found.value;
    }
    r := Opened(filename, Canonicalise(fs, filename));
  }
}
