/** The core file's section list and the pre-check `mmap_command` runs on it
    before mapping: does the requested start address fall inside one of the
    contiguous run of `.vmdata` sections that begins at the first of them? */
module Sections {
  import opened Machine

  /** A bfd section as far as the command sees it. */
  datatype Section = Section(name: string, vma: u64, size: u64, alignment: nat)

  const VMDATA: string := ".vmdata"

  /** The source's test `addr >= vma && addr < vma + size`, the sum taken modulo 2^64. */
  predicate Covers(s: Section, addr: u64)
  {
    s.vma <= addr < AddU64(s.vma, s.size)
  }

  /** Without wrap-around Covers is the half-open interval [vma, vma+size). */
  lemma CoversIsHalfOpen(s: Section, addr: u64)
    requires s.vma + s.size < TWO_64
    ensures Covers(s, addr) <==> s.vma <= addr < s.vma + s.size
  {
  }

  /** A section whose end wraps past 2^64 covers no address at all. */
  lemma WrappedSectionCoversNothing(s: Section, addr: u64)
    requires s.vma + s.size >= TWO_64
    ensures !Covers(s, addr)
  {
  }

  /** `bfd_get_section_by_name`: the first section at or after `i` named
      `name`, or |secs| when there is none. */
  function FirstNamed(secs: seq<Section>, name: string, i: nat): (j: nat)
    requires i <= |secs|
    ensures i <= j <= |secs|
    ensures j < |secs| ==> secs[j].name == name
    ensures forall k :: i <= k < j ==> secs[k].name != name
    decreases |secs| - i
  {
    if i == |secs| || secs[i].name == name then i else FirstNamed(secs, name, i + 1)
  }

  /** Where the walk starts: the first `.vmdata` section. */
  function RunStart(secs: seq<Section>): nat
  {
    FirstNamed(secs, VMDATA, 0)
  }

  /** One past the last section of the run of `.vmdata` sections starting at `i`. */
  function RunEnd(secs: seq<Section>, i: nat): (j: nat)
    requires i <= |secs|
    ensures i <= j <= |secs|
    ensures forall k :: i <= k < j ==> secs[k].name == VMDATA
    ensures j < |secs| ==> secs[j].name != VMDATA
    decreases |secs| - i
  {
    if i < |secs| && secs[i].name == VMDATA then RunEnd(secs, i + 1) else i
  }

  /** FirstNamed is the index its three properties describe. */
  lemma FirstNamedIs(secs: seq<Section>, name: string, i: nat, j: nat)
    requires i <= j <= |secs|
    requires j < |secs| ==> secs[j].name == name
    requires forall k :: i <= k < j ==> secs[k].name != name
    ensures FirstNamed(secs, name, i) == j
  {
  }

  /** RunEnd is the index its three properties describe. */
  lemma RunEndIs(secs: seq<Section>, i: nat, j: nat)
    requires i <= j <= |secs|
    requires forall k :: i <= k < j ==> secs[k].name == VMDATA
    requires j < |secs| ==> secs[j].name != VMDATA
    ensures RunEnd(secs, i) == j
  {
  }

  /** The verdict of the pre-check: some section of the run covers `addr`. */
  predicate VmdataHit(secs: seq<Section>, addr: u64)
  {
    var start := RunStart(secs);
    exists k :: start <= k < RunEnd(secs, start) && Covers(secs[k], addr)
  }

  /** The walk of `mmap_command`, with the end of the section list read as the
      end of the run: `vmsec` steps to `next` while `next` is also `.vmdata`. */
  method FindOverlap(secs: seq<Section>, addr: u64) returns (hit: bool)
    ensures hit <==> exists k :: RunStart(secs) <= k < RunEnd(secs, RunStart(secs)) && Covers(secs[k], addr)
  {
    var start := FirstNamed(secs, VMDATA, 0);
    var vmsec: Option<nat> := if start < |secs| then Some(start) else None;
    while vmsec.Some?
      invariant vmsec.Some? ==> start <= vmsec.value < RunEnd(secs, start)
      invariant vmsec.Some? ==> forall k :: start <= k < vmsec.value ==> !Covers(secs[k], addr)
      invariant vmsec.None? ==> forall k :: start <= k < RunEnd(secs, start) ==> !Covers(secs[k], addr)
      decreases if vmsec.Some? then |secs| - vmsec.value else 0
    {
      var i := vmsec.value;
      if Covers(secs[i], addr) {
        return true;
      }
      if i + 1 < |secs| && secs[i + 1].name == VMDATA {
        vmsec := Some(i + 1);
      } else {
        vmsec := None;
      }
    }
    return false;
  }

  /** A section that is not named `.vmdata`, appended at the end of the list,
      changes nothing the pre-check sees. */
  lemma AppendedSectionInvisible(secs: seq<Section>, s: Section, addr: u64)
    requires s.name != VMDATA
    ensures VmdataHit(secs + [s], addr) <==> VmdataHit(secs, addr)
  {
    var ext := secs + [s];
    var start := RunStart(secs);
    var e := RunEnd(secs, start);
    assert forall k :: 0 <= k < |secs| ==> ext[k] == secs[k];
    assert ext[|secs|] == s;
    if start < |secs| {
      FirstNamedIs(ext, VMDATA, 0, start);
      RunEndIs(ext, start, e);
    } else {
      FirstNamedIs(ext, VMDATA, 0, |ext|);
    }
  }

  /** Lists that agree below `n` have the same first `.vmdata` section below `n`. */
  lemma PrefixSameStart(a: seq<Section>, b: seq<Section>, n: nat)
    requires RunStart(a) < n <= |a| && n <= |b|
    requires forall k :: 0 <= k < n ==> a[k] == b[k]
    ensures RunStart(b) == RunStart(a)
  {
    var start := RunStart(a);
    assert b[start] == a[start];
    FirstNamedIs(b, VMDATA, 0, start);
  }

  /** ... and the same end of a run that closes below `n`. */
  lemma PrefixSameEnd(a: seq<Section>, b: seq<Section>, n: nat, i: nat)
    requires i < n <= |a| && n <= |b| && RunEnd(a, i) < n
    requires forall k :: 0 <= k < n ==> a[k] == b[k]
    ensures RunEnd(b, i) == RunEnd(a, i)
  {
    var e := RunEnd(a, i);
    assert b[e] == a[e];
    RunEndIs(b, i, e);
  }

  /** Two lists that agree up to past the end of a run found in the first
      give the same verdict. */
  lemma HitDependsOnPrefix(a: seq<Section>, b: seq<Section>, n: nat, addr: u64)
    requires RunStart(a) < RunEnd(a, RunStart(a)) < n <= |a| && n <= |b|
    requires forall k :: 0 <= k < n ==> a[k] == b[k]
    ensures VmdataHit(b, addr) <==> VmdataHit(a, addr)
  {
    var start := RunStart(a);
    var e := RunEnd(a, start);
    PrefixSameStart(a, b, n);
    PrefixSameEnd(a, b, n, start);
    CoverAgrees(a, b, start, e, addr);
  }

  /** Lists that agree on [i, e) have a section covering `addr` there alike. */
  lemma CoverAgrees(a: seq<Section>, b: seq<Section>, i: nat, e: nat, addr: u64)
    requires i <= e <= |a| && e <= |b|
    requires forall k :: i <= k < e ==> a[k] == b[k]
    ensures (exists k :: i <= k < e && Covers(a[k], addr)) <==> (exists k :: i <= k < e && Covers(b[k], addr))
  {
  }

  /** Sections after the end of a run that is found and closed are never
      looked at: they can be replaced by anything. */
  lemma LaterSectionsIgnored(secs: seq<Section>, n: nat, rest: seq<Section>, addr: u64)
    requires RunStart(secs) < RunEnd(secs, RunStart(secs)) < n <= |secs|
    ensures VmdataHit(secs[..n] + rest, addr) <==> VmdataHit(secs, addr)
  {
    var ext := secs[..n] + rest;
    forall k | 0 <= k < n ensures secs[k] == ext[k] {
      assert ext[k] == secs[..n][k];
    }
    HitDependsOnPrefix(secs, ext, n, addr);
  }

  /** The check looks only at the start address: a request starting below a
      `.vmdata` section but reaching into it passes. */
  lemma EndAddressNotChecked()
    ensures !VmdataHit([Section(VMDATA, 0x2000, 0x1000, 0)], 0x1000)
  {
    var secs := [Section(VMDATA, 0x2000, 0x1000, 0)];
    assert RunStart(secs) == 0;
    assert RunEnd(secs, 0) == 1;
  }

  /** What the loop of the source does, step by step, including the read of
      `vmsec->next->name` when `vmsec` is the last section of the list. */
  datatype WalkOutcome = Clear | Overlapping | NullNext

  function WalkAsWritten(secs: seq<Section>, i: nat, addr: u64): WalkOutcome
    requires i < |secs|
    decreases |secs| - i
  {
    if Covers(secs[i], addr) then Overlapping
    else if i + 1 == |secs| then NullNext
    else if secs[i + 1].name == VMDATA then WalkAsWritten(secs, i + 1, addr)
    else Clear
  }

  function ScanAsWritten(secs: seq<Section>, addr: u64): WalkOutcome
  {
    var start := RunStart(secs);
    if start == |secs| then Clear else WalkAsWritten(secs, start, addr)
  }

  /** From a `.vmdata` section at `i`, the as-written walk finds a covering
      section of the run if there is one; otherwise it dereferences NULL exactly
      when the run reaches the end of the list. */
  lemma {:induction false} WalkAsWrittenMeaning(secs: seq<Section>, i: nat, addr: u64)
    requires i < |secs| && secs[i].name == VMDATA
    ensures var hit := exists k :: i <= k < RunEnd(secs, i) && Covers(secs[k], addr);
      && (WalkAsWritten(secs, i, addr) == Overlapping <==> hit)
      && (WalkAsWritten(secs, i, addr) == NullNext <==> !hit && RunEnd(secs, i) == |secs|)
    decreases |secs| - i
  {
    var e := RunEnd(secs, i);
    assert RunEnd(secs, i) == RunEnd(secs, i + 1);
    if !Covers(secs[i], addr) && i + 1 < |secs| && secs[i + 1].name == VMDATA {
      WalkAsWrittenMeaning(secs, i + 1, addr);
      assert forall k :: i <= k < e && Covers(secs[k], addr) ==> i + 1 <= k;
    }
  }

  /** Wherever the source's walk does not crash it agrees with FindOverlap. */
  lemma ScanAsWrittenAgrees(secs: seq<Section>, addr: u64)
    requires ScanAsWritten(secs, addr) != NullNext
    ensures ScanAsWritten(secs, addr) == Overlapping <==> VmdataHit(secs, addr)
  {
    if RunStart(secs) < |secs| {
      WalkAsWrittenMeaning(secs, RunStart(secs), addr);
    }
  }

  /** The source dereferences NULL whenever the run of `.vmdata` sections ends
      the section list and no section of it covers the address. */
  lemma TrailingRunDereferencesNull(secs: seq<Section>, addr: u64)
    requires RunStart(secs) < |secs| && RunEnd(secs, RunStart(secs)) == |secs|
    requires !VmdataHit(secs, addr)
    ensures ScanAsWritten(secs, addr) == NullNext
  {
    WalkAsWrittenMeaning(secs, RunStart(secs), addr);
  }

  /** A core whose only section is one `.vmdata` region, and an address outside it. */
  lemma NullNextExample()
    ensures ScanAsWritten([Section(VMDATA, 0x1000, 0x1000, 0)], 0x5000) == NullNext
    ensures !VmdataHit([Section(VMDATA, 0x1000, 0x1000, 0)], 0x5000)
  {
    var secs := [Section(VMDATA, 0x1000, 0x1000, 0)];
    assert RunStart(secs) == 0;
    assert RunEnd(secs, 0) == 1;
  }
}
