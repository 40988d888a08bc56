/**
 Preflight of a received manifest: which target every entry gets, whether the targets can coexist,
 how much free space the transfer needs at its worst moment, and the check that every entry arrived.
 What the filesystem answers while planning is part of each entry.
 */
module ReceivePlans {
  import opened Prelude
  import opened TargetKeys

  datatype Kind = FileKind | DirKind | SymlinkKind | UnknownKind

  datatype PlanAction = Write | Skip | Rename

  datatype Policy = Overwrite | SkipExisting | RenameNew

  /**
   A manifest entry and what the filesystem says about it: `existing` if the target exists,
   `blocked` if a filesystem rule refuses it, `renamed` the free name found for it, `resume` the
   size of its resumable part file, `oldSize` what replacing the old target gives back.
   */
  datatype Entry = Entry(path: string, kind: Kind, size: nat, link: string,
                         existing: bool, blocked: bool, target: Path, renamed: Path, resume: nat, oldSize: nat)

  /** 64-bit sizes, and a resumable part is never larger than the file. */
  predicate Sane(e: Entry) {
    e.size <= U64_MAX && e.oldSize <= U64_MAX && e.resume <= e.size
  }

  function ActionFor(e: Entry, policy: Policy): PlanAction {
    if e.kind == DirKind || !e.existing || policy == Overwrite then Write
    else if policy == SkipExisting then Skip
    else Rename
  }

  function TargetOf(e: Entry, policy: Policy): Path {
    if ActionFor(e, policy) == Rename then e.renamed else e.target
  }

  /** The checks that look at one entry alone. */
  predicate Refused(e: Entry) {
    || e.path == "" || e.blocked || e.kind == UnknownKind
    || (e.kind == SymlinkKind && e.size != 0)
    || (e.kind == DirKind && (e.path[|e.path| - 1] != '/' || e.size != 0))
    || (e.kind == FileKind && e.path[|e.path| - 1] == '/')
  }

  // ---------------------------------------------------------------- collisions

  datatype Target = Target(path: Path, directory: bool)

  datatype Reserved = Reserved(targets: set<string>, files: set<string>)

  function ReservedOf(targets: seq<Target>, fold: bool): Reserved {
    Reserved(set i | 0 <= i < |targets| :: TargetKey(targets[i].path, fold),
             set i | 0 <= i < |targets| && !targets[i].directory :: TargetKey(targets[i].path, fold))
  }

  /** Two planned targets cannot coexist: they are the same, or one is a file above the other. */
  predicate Clash(a: Target, b: Target, fold: bool) {
    var x, y := Norm(a.path, fold), Norm(b.path, fold);
    || x == y
    || (!a.directory && x < y)
    || (!b.directory && y < x)
  }

  predicate NoClash(targets: seq<Target>, fold: bool) {
    forall i, j :: 0 <= i < j < |targets| ==> !Clash(targets[i], targets[j], fold)
  }

  predicate Clear(target: Target, targets: seq<Target>, fold: bool) {
    forall i :: 0 <= i < |targets| ==> !Clash(targets[i], target, fold)
  }

  predicate HasFileAbove(path: Path, reserved: Reserved, fold: bool) {
    exists k :: 0 < k < |path| && TargetKey(path[..k], fold) in reserved.files
  }

  predicate HasTargetBelow(path: Path, reserved: Reserved, fold: bool) {
    exists key :: key in reserved.targets && KeyIsParentOf(TargetKey(path, fold), key)
  }

  predicate Free(target: Target, reserved: Reserved, fold: bool) {
    && TargetKey(target.path, fold) !in reserved.targets
    && !HasFileAbove(target.path, reserved, fold)
    && (target.directory || !HasTargetBelow(target.path, reserved, fold))
  }

  /** plan_collision_error */
  method PlanCollisionError(target: Target, reserved: Reserved, fold: bool) returns (error: Option<string>)
    ensures error.None? <==> Free(target, reserved, fold)
    ensures error == Some("target collision") <==> TargetKey(target.path, fold) in reserved.targets
  {
    var key := TargetKey(target.path, fold);
    if key in reserved.targets {
      return Some("target collision");
    }
    var parent := |target.path| - 1;
    while parent > 0
      invariant 0 <= parent < |target.path|
      invariant forall k :: parent < k < |target.path| ==> TargetKey(target.path[..k], fold) !in reserved.files
    {
      if TargetKey(target.path[..parent], fold) in reserved.files {
        return Some("parent is already a file");
      }
      parent := parent - 1;
    }
    if !target.directory {
      var child := LowerBound(reserved.targets, key + "/");
      LowerBoundSuffices(reserved.targets, key, child);
      if child.Some? && KeyIsParentOf(key, child.value) {
        return Some("target would replace a planned directory");
      }
    }
    return None;
  }

  lemma NormPrefix(path: Path, k: nat, fold: bool)
    requires 0 < k <= |path|
    ensures Norm(path[..k], fold) == Norm(path, fold)[..k]
  {
  }

  /** What the key comparison against one reserved target decides, in terms of the paths. */
  lemma ClashByKeys(a: Target, b: Target, fold: bool)
    ensures TargetKey(a.path, fold) == TargetKey(b.path, fold) <==> Norm(a.path, fold) == Norm(b.path, fold)
    ensures KeyIsParentOf(TargetKey(b.path, fold), TargetKey(a.path, fold)) <==> Norm(b.path, fold) < Norm(a.path, fold)
    ensures (exists k :: 0 < k < |b.path| && TargetKey(b.path[..k], fold) == TargetKey(a.path, fold))
            <==> Norm(a.path, fold) < Norm(b.path, fold)
  {
    var x, y := Norm(a.path, fold), Norm(b.path, fold);
    TargetKeyIsKey(a.path, fold);
    TargetKeyIsKey(b.path, fold);
    ParentKeys(y, x);
    if Key(x) == Key(y) {
      KeyInjective(x, y);
    }
    forall k | 0 < k < |b.path|
      ensures TargetKey(b.path[..k], fold) == TargetKey(a.path, fold) <==> y[..k] == x
    {
      NormPrefix(b.path, k, fold);
      TargetKeyIsKey(b.path[..k], fold);
      if Key(y[..k]) == Key(x) {
        KeyInjective(y[..k], x);
      }
    }
    if x < y {
      assert y[..|x|] == x;
      assert TargetKey(b.path[..|x|], fold) == TargetKey(a.path, fold);
    }
  }

  /** Looking the target up in the two sets of keys is comparing it with every reserved target. */
  lemma FreeMeansClear(target: Target, targets: seq<Target>, fold: bool)
    ensures Free(target, ReservedOf(targets, fold), fold) <==> Clear(target, targets, fold)
  {
    var reserved := ReservedOf(targets, fold);
    forall i | 0 <= i < |targets| && Clash(targets[i], target, fold) ensures !Free(target, reserved, fold) {
      var other := targets[i];
      ClashByKeys(other, target, fold);
      assert TargetKey(other.path, fold) in reserved.targets;
      assert !other.directory ==> TargetKey(other.path, fold) in reserved.files;
    }
    if !Free(target, reserved, fold) {
      if TargetKey(target.path, fold) in reserved.targets {
        var i :| 0 <= i < |targets| && TargetKey(targets[i].path, fold) == TargetKey(target.path, fold);
        ClashByKeys(targets[i], target, fold);
      } else if HasFileAbove(target.path, reserved, fold) {
        var k :| 0 < k < |target.path| && TargetKey(target.path[..k], fold) in reserved.files;
        var i :| 0 <= i < |targets| && !targets[i].directory
                 && TargetKey(targets[i].path, fold) == TargetKey(target.path[..k], fold);
        ClashByKeys(targets[i], target, fold);
        assert Clash(targets[i], target, fold);
      } else {
        var key :| key in reserved.targets && KeyIsParentOf(TargetKey(target.path, fold), key);
        var i :| 0 <= i < |targets| && TargetKey(targets[i].path, fold) == key;
        ClashByKeys(targets[i], target, fold);
        assert Clash(targets[i], target, fold);
      }
    }
  }

  lemma AppendClear(targets: seq<Target>, target: Target, fold: bool)
    ensures NoClash(targets + [target], fold) <==> NoClash(targets, fold) && Clear(target, targets, fold)
  {
    var all := targets + [target];
    assert forall i :: 0 <= i < |targets| ==> all[i] == targets[i];
    if NoClash(all, fold) {
      assert forall i, j :: 0 <= i < j < |targets| ==> !Clash(all[i], all[j], fold);
      assert forall i :: 0 <= i < |targets| ==> !Clash(all[i], all[|targets|], fold);
    }
  }

  /** Targets that are apart when case is ignored are apart anyway. */
  lemma FoldedIsStricter(targets: seq<Target>)
    requires NoClash(targets, true)
    ensures NoClash(targets, false)
  {
    forall i, j | 0 <= i < j < |targets| ensures !Clash(targets[i], targets[j], false) {
      var a, b := targets[i].path, targets[j].path;
      assert !Clash(targets[i], targets[j], true);
      if a < b {
        NormPrefix(b, |a|, true);
        assert b[..|a|] == a;
      } else if b < a {
        NormPrefix(a, |b|, true);
        assert a[..|b|] == b;
      }
    }
  }

  // ---------------------------------------------------------------- space

  /** One file to be written: it grows by `grow` bytes and then gives back `back`. */
  datatype Growth = Growth(grow: nat, back: nat)

  function Grown(files: seq<Growth>, n: nat): nat
    requires n <= |files|
  {
    if n == 0 then 0 else Grown(files, n - 1) + files[n - 1].grow
  }

  function Freed(files: seq<Growth>, n: nat): nat
    requires n <= |files|
  {
    if n == 0 then 0 else Freed(files, n - 1) + files[n - 1].back
  }

  /** Extra bytes on disk when `n` files are done and `written` bytes of the next one are there. */
  function Extra(files: seq<Growth>, n: nat, written: nat): int
    requires n <= |files|
  {
    Grown(files, n) + written - Freed(files, n)
  }

  /** The least free space, not below zero, that is enough at every moment of the transfer. */
  ghost predicate IsPeak(files: seq<Growth>, peak: nat) {
    && (forall n, written :: 0 <= n < |files| && 0 <= written <= files[n].grow ==> Extra(files, n, written) <= peak)
    && (peak == 0 || exists n :: 0 <= n < |files| && Extra(files, n, files[n].grow) == peak)
  }

  function SaturatingAdd(total: nat, value: nat): nat {
    Min(U64_MAX, total + value)
  }

  /** The running totals of the planning loop; `freed` saturates. */
  datatype Space = Space(grown: nat, freed: nat, peak: nat)

  function AddGrowth(space: Space, file: Growth): Space {
    var grown := space.grown + file.grow;
    Space(grown, SaturatingAdd(space.freed, file.back),
          Max(space.peak, if grown > space.freed then grown - space.freed else 0))
  }

  ghost predicate SpaceFits(space: Space, files: seq<Growth>) {
    && space.grown == Grown(files, |files|) <= U64_MAX
    && space.freed == Min(U64_MAX, Freed(files, |files|))
    && IsPeak(files, space.peak)
  }

  lemma {:induction false} TotalsPrefix(files: seq<Growth>, file: Growth, n: nat)
    requires n <= |files|
    ensures Grown(files + [file], n) == Grown(files, n) && Freed(files + [file], n) == Freed(files, n)
    decreases n
  {
    if n > 0 {
      TotalsPrefix(files, file, n - 1);
    }
  }

  /** One round keeps the totals exact: a saturated `freed` can only meet a `grown` it already covers. */
  lemma AddGrowthFits(space: Space, files: seq<Growth>, file: Growth)
    requires SpaceFits(space, files) && space.grown + file.grow <= U64_MAX
    ensures SpaceFits(AddGrowth(space, file), files + [file])
  {
    var all, next := files + [file], AddGrowth(space, file);
    forall n | 0 <= n <= |files| ensures Grown(all, n) == Grown(files, n) && Freed(all, n) == Freed(files, n) {
      TotalsPrefix(files, file, n);
    }
    var last := Extra(all, |files|, file.grow);
    assert next.peak == if last > space.peak then last else space.peak;
    forall n, written | 0 <= n < |all| && 0 <= written <= all[n].grow ensures Extra(all, n, written) <= next.peak {
      if n < |files| {
        assert Extra(files, n, written) <= space.peak;
      } else {
        assert written <= file.grow;
      }
    }
    if next.peak > space.peak {
      assert Extra(all, |files|, all[|files|].grow) == next.peak;
    } else if space.peak > 0 {
      var n :| 0 <= n < |files| && Extra(files, n, files[n].grow) == space.peak;
      assert Extra(all, n, all[n].grow) == next.peak;
    }
  }

  lemma PeakUnique(files: seq<Growth>, p: nat, q: nat)
    requires IsPeak(files, p) && IsPeak(files, q)
    ensures p == q
  {
  }

  // ---------------------------------------------------------------- the planning loop

  /** The targets reserved for the first `n` entries; a skipped entry reserves none. */
  function Planned(entries: seq<Entry>, policy: Policy, n: nat): seq<Target>
    requires n <= |entries|
  {
    if n == 0 then []
    else
      var e := entries[n - 1];
      Planned(entries, policy, n - 1)
      + if ActionFor(e, policy) == Skip then [] else [Target(TargetOf(e, policy), e.kind == DirKind)]
  }

  /** A file written in place resumes its part and frees the old target; a renamed one does neither. */
  function GrowthOf(e: Entry, policy: Policy): Growth
    requires Sane(e)
  {
    if ActionFor(e, policy) == Write then Growth(e.size - e.resume, if e.existing then e.oldSize else 0)
    else Growth(e.size, 0)
  }

  function Growths(entries: seq<Entry>, policy: Policy, n: nat): seq<Growth>
    requires n <= |entries| && forall i :: 0 <= i < |entries| ==> Sane(entries[i])
  {
    if n == 0 then []
    else
      var e := entries[n - 1];
      Growths(entries, policy, n - 1)
      + if e.kind == FileKind && ActionFor(e, policy) != Skip then [GrowthOf(e, policy)] else []
  }

  function FileBytes(entries: seq<Entry>, n: nat): nat
    requires n <= |entries|
  {
    if n == 0 then 0
    else FileBytes(entries, n - 1) + if entries[n - 1].kind == FileKind then entries[n - 1].size else 0
  }

  predicate DistinctPaths(entries: seq<Entry>, n: nat)
    requires n <= |entries|
  {
    forall i, j :: 0 <= i < j < n ==> entries[i].path != entries[j].path
  }

  /** What a manifest must satisfy to be accepted, apart from free space. */
  predicate Acceptable(entries: seq<Entry>, policy: Policy, total: nat, insensitive: bool) {
    && (forall i :: 0 <= i < |entries| ==> !Refused(entries[i]))
    && DistinctPaths(entries, |entries|)
    && FileBytes(entries, |entries|) == total <= U64_MAX
    && NoClash(Planned(entries, policy, |entries|), insensitive)
  }

  lemma {:induction false} PrefixFacts(entries: seq<Entry>, policy: Policy, n: nat, m: nat)
    requires n <= m <= |entries|
    ensures FileBytes(entries, n) <= FileBytes(entries, m)
    ensures Planned(entries, policy, n) <= Planned(entries, policy, m)
    decreases m - n
  {
    if n < m {
      PrefixFacts(entries, policy, n, m - 1);
    }
  }

  lemma ClashRefuses(entries: seq<Entry>, policy: Policy, n: nat, total: nat, insensitive: bool)
    requires n <= |entries| && !NoClash(Planned(entries, policy, n), insensitive)
    ensures !Acceptable(entries, policy, total, insensitive)
  {
    PrefixFacts(entries, policy, n, |entries|);
    var part, all := Planned(entries, policy, n), Planned(entries, policy, |entries|);
    var i, j :| 0 <= i < j < |part| && Clash(part[i], part[j], insensitive);
    assert all[i] == part[i] && all[j] == part[j];
  }

  datatype PlanEntry = PlanEntry(manifest: Entry, target: Path, action: PlanAction)

  datatype Plan = Plan(entries: map<string, PlanEntry>, peak: nat)

  /**
   The collision part of one round. The filesystem is asked whether it ignores case only when the
   folded keys collide, and at most once; that never changes the outcome.
   */
  method ReserveTarget(target: Target, ghost targets: seq<Target>, exact: Reserved, folded: Reserved,
                       probed: Option<bool>, insensitive: bool) returns (ok: bool, answer: Option<bool>)
    requires exact == ReservedOf(targets, false) && folded == ReservedOf(targets, true)
    requires probed == None || probed == Some(insensitive)
    requires NoClash(targets, false) && (probed == Some(false) || NoClash(targets, true))
    ensures answer == None || answer == Some(insensitive)
    ensures ok <==> NoClash(targets + [target], insensitive)
    ensures ok ==> NoClash(targets + [target], false)
                   && (answer == Some(false) || NoClash(targets + [target], true))
  {
    answer := probed;
    FreeMeansClear(target, targets, false);
    FreeMeansClear(target, targets, true);
    AppendClear(targets, target, false);
    AppendClear(targets, target, true);
    if NoClash(targets + [target], true) {
      FoldedIsStricter(targets + [target]);
    }
    var collision := PlanCollisionError(target, exact, false);
    if collision.Some? {
      return false, answer;
    }
    if answer.None? || answer.value {
      collision := PlanCollisionError(target, folded, true);
      if collision.Some? {
        if answer.None? {
          answer := Some(insensitive);
        }
        if answer.value {
          return false, answer;
        }
      }
    }
    return true, answer;
  }

  function ReserveKeys(reserved: Reserved, target: Target, fold: bool): Reserved {
    var key := TargetKey(target.path, fold);
    Reserved(reserved.targets + {key}, if target.directory then reserved.files else reserved.files + {key})
  }

  lemma ReserveNext(targets: seq<Target>, target: Target, fold: bool)
    ensures ReservedOf(targets + [target], fold) == ReserveKeys(ReservedOf(targets, fold), target, fold)
  {
    var all := targets + [target];
    assert all[|targets|] == target;
    assert forall i :: 0 <= i < |targets| ==> all[i] == targets[i];
  }

  /** The space totals after one more entry. */
  function SpaceAfter(space: Space, e: Entry, policy: Policy): Space
    requires Sane(e)
  {
    if e.kind == FileKind && ActionFor(e, policy) != Skip then AddGrowth(space, GrowthOf(e, policy)) else space
  }

  lemma SpaceStep(entries: seq<Entry>, policy: Policy, n: nat, space: Space)
    requires n < |entries| && forall i :: 0 <= i < |entries| ==> Sane(entries[i])
    requires SpaceFits(space, Growths(entries, policy, n)) && space.grown <= FileBytes(entries, n)
    requires FileBytes(entries, n + 1) <= U64_MAX
    ensures var next := SpaceAfter(space, entries[n], policy);
      SpaceFits(next, Growths(entries, policy, n + 1)) && next.grown <= FileBytes(entries, n + 1)
  {
    var e := entries[n];
    if e.kind == FileKind && ActionFor(e, policy) != Skip {
      AddGrowthFits(space, Growths(entries, policy, n), GrowthOf(e, policy));
    } else {
      assert Growths(entries, policy, n) + [] == Growths(entries, policy, n);
    }
  }

  function PlanFor(e: Entry, policy: Policy): PlanEntry {
    PlanEntry(e, TargetOf(e, policy), ActionFor(e, policy))
  }

  predicate PlanCovers(plan: map<string, PlanEntry>, entries: seq<Entry>, policy: Policy, n: nat)
    requires n <= |entries|
  {
    && (forall i :: 0 <= i < n ==> entries[i].path in plan && plan[entries[i].path] == PlanFor(entries[i], policy))
    && (forall path :: path in plan ==> exists i :: 0 <= i < n && entries[i].path == path)
  }

  ghost predicate PathsFit(plan: map<string, PlanEntry>, entries: seq<Entry>, policy: Policy, n: nat)
    requires n <= |entries|
  {
    && (forall i :: 0 <= i < n ==> !Refused(entries[i]))
    && DistinctPaths(entries, n)
    && PlanCovers(plan, entries, policy, n)
  }

  lemma CoversStep(plan: map<string, PlanEntry>, entries: seq<Entry>, policy: Policy, n: nat)
    requires n < |entries| && PlanCovers(plan, entries, policy, n) && entries[n].path !in plan
    ensures PlanCovers(plan[entries[n].path := PlanFor(entries[n], policy)], entries, policy, n + 1)
  {
    var next := plan[entries[n].path := PlanFor(entries[n], policy)];
    forall path | path in next ensures exists i :: 0 <= i < n + 1 && entries[i].path == path {
      if path != entries[n].path {
        assert path in plan;
        var i :| 0 <= i < n && entries[i].path == path;
      }
    }
  }

  lemma DistinctStep(plan: map<string, PlanEntry>, entries: seq<Entry>, policy: Policy, n: nat)
    requires n < |entries| && PlanCovers(plan, entries, policy, n) && entries[n].path !in plan
    requires DistinctPaths(entries, n)
    ensures DistinctPaths(entries, n + 1)
  {
    forall i | 0 <= i < n ensures entries[i].path != entries[n].path {
      assert entries[i].path in plan;
    }
  }

  lemma PathsStep(plan: map<string, PlanEntry>, entries: seq<Entry>, policy: Policy, n: nat)
    requires n < |entries| && PathsFit(plan, entries, policy, n)
    requires entries[n].path !in plan && !Refused(entries[n])
    ensures PathsFit(plan[entries[n].path := PlanFor(entries[n], policy)], entries, policy, n + 1)
  {
    CoversStep(plan, entries, policy, n);
    DistinctStep(plan, entries, policy, n);
  }

  /** The reserved keys, exact and folded, stand for the targets planned so far. */
  ghost predicate TargetsFit(exact: Reserved, folded: Reserved, probed: Option<bool>, targets: seq<Target>,
                             insensitive: bool)
  {
    && exact == ReservedOf(targets, false) && folded == ReservedOf(targets, true)
    && (probed == None || probed == Some(insensitive))
    && NoClash(targets, false) && (probed == Some(false) || NoClash(targets, true))
  }

  method ReserveEntry(e: Entry, policy: Policy, ghost entries: seq<Entry>, ghost n: nat,
                      exact: Reserved, folded: Reserved, probed: Option<bool>, insensitive: bool)
    returns (ok: bool, exactNext: Reserved, foldedNext: Reserved, answer: Option<bool>)
    requires n < |entries| && e == entries[n]
    requires TargetsFit(exact, folded, probed, Planned(entries, policy, n), insensitive)
    ensures ok ==> TargetsFit(exactNext, foldedNext, answer, Planned(entries, policy, n + 1), insensitive)
    ensures !ok ==> !NoClash(Planned(entries, policy, n + 1), insensitive)
  {
    ghost var targets := Planned(entries, policy, n);
    ok, exactNext, foldedNext, answer := true, exact, folded, probed;
    if ActionFor(e, policy) == Skip {
      assert targets + [] == targets;
      return;
    }
    var target := Target(TargetOf(e, policy), e.kind == DirKind);
    ok, answer := ReserveTarget(target, targets, exact, folded, probed, insensitive);
    ReserveNext(targets, target, false);
    ReserveNext(targets, target, true);
    exactNext, foldedNext := ReserveKeys(exact, target, false), ReserveKeys(folded, target, true);
  }

  /** The variables of the planning loop. */
  datatype Planning = Planning(plan: map<string, PlanEntry>, computed: nat, exact: Reserved, folded: Reserved,
                               probed: Option<bool>, space: Space)

  ghost predicate PlanningFits(p: Planning, entries: seq<Entry>, policy: Policy, n: nat, insensitive: bool)
    requires n <= |entries| && forall i :: 0 <= i < |entries| ==> Sane(entries[i])
  {
    && PathsFit(p.plan, entries, policy, n)
    && p.computed == FileBytes(entries, n) <= U64_MAX
    && TargetsFit(p.exact, p.folded, p.probed, Planned(entries, policy, n), insensitive)
    && SpaceFits(p.space, Growths(entries, policy, n)) && p.space.grown <= p.computed
  }

  /** The checks of one round that come before the collisions, and the running total. */
  method CountEntry(p: Planning, entries: seq<Entry>, policy: Policy, n: nat, ghost total: nat, insensitive: bool)
    returns (r: Result<nat>)
    requires n < |entries| && forall i :: 0 <= i < |entries| ==> Sane(entries[i])
    requires PathsFit(p.plan, entries, policy, n) && p.computed == FileBytes(entries, n) <= U64_MAX
    ensures r.Ok? ==>
      r.value == FileBytes(entries, n + 1) <= U64_MAX && !Refused(entries[n]) && entries[n].path !in p.plan
    ensures r.Err? ==> !Acceptable(entries, policy, total, insensitive)
  {
    var e := entries[n];
    PrefixFacts(entries, policy, n + 1, |entries|);
    if Refused(e) {
      return Err("manifest entry refused");
    }
    if e.path in p.plan {
      return Err("transfer manifest contains duplicate path");
    }
    if e.kind != FileKind {
      return Ok(p.computed);
    }
    if e.size > U64_MAX - p.computed {
      return Err("manifest total size overflow");
    }
    return Ok(p.computed + e.size);
  }

  /** One round of the planning loop. */
  method PlanNext(p: Planning, entries: seq<Entry>, policy: Policy, n: nat, ghost total: nat, insensitive: bool)
    returns (r: Result<Planning>)
    requires n < |entries| && forall i :: 0 <= i < |entries| ==> Sane(entries[i])
    requires PlanningFits(p, entries, policy, n, insensitive)
    ensures r.Ok? ==> PlanningFits(r.value, entries, policy, n + 1, insensitive)
    ensures r.Err? ==> !Acceptable(entries, policy, total, insensitive)
  {
    var counted := CountEntry(p, entries, policy, n, total, insensitive);
    if counted.Err? {
      return Err(counted.error);
    }
    var e := entries[n];
    var ok, exact, folded, probed := ReserveEntry(e, policy, entries, n, p.exact, p.folded, p.probed, insensitive);
    if !ok {
      ClashRefuses(entries, policy, n + 1, total, insensitive);
      return Err("receive plan collision");
    }
    SpaceStep(entries, policy, n, p.space);
    PathsStep(p.plan, entries, policy, n);
    return Ok(Planning(p.plan[e.path := PlanFor(e, policy)], counted.value, exact, folded, probed,
                       SpaceAfter(p.space, e, policy)));
  }

  // ---------------------------------------------------------------- what the policy promises

  /** The target of something other than a directory is taken. */
  predicate Conflicts(e: Entry) {
    e.existing && e.kind != DirKind
  }

  predicate Skips(e: Entry, policy: Policy) {
    Conflicts(e) && policy == SkipExisting
  }

  /** Where the entry goes. */
  function Goal(e: Entry, policy: Policy): Target {
    Target(if Conflicts(e) && policy == RenameNew then e.renamed else e.target, e.kind == DirKind)
  }

  /** No two entries that will be received have clashing targets. */
  ghost predicate KeptApart(entries: seq<Entry>, policy: Policy, n: nat, fold: bool)
    requires n <= |entries|
  {
    forall i, j :: 0 <= i < j < n && !Skips(entries[i], policy) && !Skips(entries[j], policy) ==>
      !Clash(Goal(entries[i], policy), Goal(entries[j], policy), fold)
  }

  /** The reserved targets are those of the entries that will be received. */
  lemma {:induction false} PlannedGoals(entries: seq<Entry>, policy: Policy, n: nat)
    requires n <= |entries|
    ensures forall i :: 0 <= i < n && !Skips(entries[i], policy) ==> Goal(entries[i], policy) in Planned(entries, policy, n)
    ensures forall t :: t in Planned(entries, policy, n) ==>
              exists i :: 0 <= i < n && !Skips(entries[i], policy) && t == Goal(entries[i], policy)
  {
    if n > 0 {
      PlannedGoals(entries, policy, n - 1);
    }
  }

  ghost predicate ClearOfReceived(entries: seq<Entry>, policy: Policy, n: nat, target: Target, fold: bool)
    requires n <= |entries|
  {
    forall i :: 0 <= i < n && !Skips(entries[i], policy) ==> !Clash(Goal(entries[i], policy), target, fold)
  }

  lemma ClearOfGoals(entries: seq<Entry>, policy: Policy, n: nat, target: Target, fold: bool)
    requires n <= |entries|
    ensures Clear(target, Planned(entries, policy, n), fold)
            <==> ClearOfReceived(entries, policy, n, target, fold)
  {
    var planned := Planned(entries, policy, n);
    PlannedGoals(entries, policy, n);
    forall i | 0 <= i < |planned| && Clash(planned[i], target, fold)
      ensures exists k :: 0 <= k < n && !Skips(entries[k], policy) && Clash(Goal(entries[k], policy), target, fold)
    {
      assert planned[i] in planned;
    }
  }

  lemma KeptApartStep(entries: seq<Entry>, policy: Policy, n: nat, fold: bool)
    requires n < |entries|
    ensures KeptApart(entries, policy, n + 1, fold) <==>
      && KeptApart(entries, policy, n, fold)
      && (Skips(entries[n], policy) || ClearOfReceived(entries, policy, n, Goal(entries[n], policy), fold))
  {
  }

  lemma PlannedStep(entries: seq<Entry>, policy: Policy, n: nat)
    requires n < |entries|
    ensures Planned(entries, policy, n + 1)
         == Planned(entries, policy, n) + if Skips(entries[n], policy) then [] else [Goal(entries[n], policy)]
  {
  }

  lemma NoClashStep(entries: seq<Entry>, policy: Policy, n: nat, fold: bool)
    requires n < |entries|
    ensures NoClash(Planned(entries, policy, n + 1), fold) <==>
      && NoClash(Planned(entries, policy, n), fold)
      && (Skips(entries[n], policy) || ClearOfReceived(entries, policy, n, Goal(entries[n], policy), fold))
  {
    var before, goal := Planned(entries, policy, n), Goal(entries[n], policy);
    PlannedStep(entries, policy, n);
    if Skips(entries[n], policy) {
      assert before + [] == before;
    } else {
      AppendClear(before, goal, fold);
      ClearOfGoals(entries, policy, n, goal, fold);
    }
  }

  /** The collision check of the plan is the comparison of the received entries' targets with each other. */
  lemma PlannedApart(entries: seq<Entry>, policy: Policy, n: nat, fold: bool)
    requires n <= |entries|
    ensures NoClash(Planned(entries, policy, n), fold) <==> KeptApart(entries, policy, n, fold)
  {
    if NoClash(Planned(entries, policy, n), fold) {
      NoClashMeansApart(entries, policy, n, fold);
    }
    if KeptApart(entries, policy, n, fold) {
      ApartMeansNoClash(entries, policy, n, fold);
    }
  }

  lemma {:induction false} ApartMeansNoClash(entries: seq<Entry>, policy: Policy, n: nat, fold: bool)
    requires n <= |entries| && KeptApart(entries, policy, n, fold)
    ensures NoClash(Planned(entries, policy, n), fold)
  {
    if n > 0 {
      KeptApartStep(entries, policy, n - 1, fold);
      ApartMeansNoClash(entries, policy, n - 1, fold);
      NoClashStep(entries, policy, n - 1, fold);
    }
  }

  lemma ClearInPrefix(all: seq<Target>, part: seq<Target>, target: Target, fold: bool)
    requires NoClash(all, fold) && part + [target] <= all
    ensures Clear(target, part, fold)
  {
    assert all[|part|] == (part + [target])[|part|];
    assert forall i :: 0 <= i < |part| ==> all[i] == part[i];
  }

  lemma NoClashMeansApart(entries: seq<Entry>, policy: Policy, n: nat, fold: bool)
    requires n <= |entries| && NoClash(Planned(entries, policy, n), fold)
    ensures KeptApart(entries, policy, n, fold)
  {
    forall i, j | 0 <= i < j < n && !Skips(entries[i], policy) && !Skips(entries[j], policy)
      ensures !Clash(Goal(entries[i], policy), Goal(entries[j], policy), fold)
    {
      PlannedBefore(entries, policy, j, n, fold);
    }
  }

  lemma PlannedBefore(entries: seq<Entry>, policy: Policy, j: nat, n: nat, fold: bool)
    requires j < n <= |entries| && NoClash(Planned(entries, policy, n), fold) && !Skips(entries[j], policy)
    ensures ClearOfReceived(entries, policy, j, Goal(entries[j], policy), fold)
  {
    PlannedStep(entries, policy, j);
    PrefixFacts(entries, policy, j + 1, n);
    ClearInPrefix(Planned(entries, policy, n), Planned(entries, policy, j), Goal(entries[j], policy), fold);
    ClearOfGoals(entries, policy, j, Goal(entries[j], policy), fold);
  }

  /** What the policy promises about one planned entry. */
  predicate FollowsPolicy(e: Entry, policy: Policy, planned: PlanEntry) {
    && planned.manifest == e
    && (planned.action == Skip <==> Conflicts(e) && policy == SkipExisting)
    && (planned.action == Rename <==> Conflicts(e) && policy == RenameNew)
    && planned.target == Goal(e, policy).path
  }

  /** One planned entry for each manifest entry, and no others. */
  ghost predicate PlanFollows(plan: map<string, PlanEntry>, entries: seq<Entry>, policy: Policy) {
    && (forall i :: 0 <= i < |entries| ==>
          entries[i].path in plan && FollowsPolicy(entries[i], policy, plan[entries[i].path]))
    && (forall path :: path in plan ==> exists i :: 0 <= i < |entries| && entries[i].path == path)
  }

  lemma CoveringFollows(plan: map<string, PlanEntry>, entries: seq<Entry>, policy: Policy)
    requires PlanCovers(plan, entries, policy, |entries|)
    ensures PlanFollows(plan, entries, policy)
  {
  }

  /** What the filesystem answered was true of the disk, and the free names it found are free. */
  ghost predicate TrueOfDisk(entries: seq<Entry>, disk: set<Path>) {
    forall i :: 0 <= i < |entries| ==>
      && (entries[i].existing <==> entries[i].target in disk)
      && entries[i].renamed !in disk
  }

  /**
   Nothing on disk is lost unless the policy is to overwrite: no file or link that will be received
   has a target that exists. Under any policy what is not on disk yet is received at its own target.
   */
  lemma NothingOverwritten(plan: map<string, PlanEntry>, entries: seq<Entry>, policy: Policy, disk: set<Path>, path: string)
    requires PlanFollows(plan, entries, policy) && TrueOfDisk(entries, disk) && path in plan
    ensures var planned := plan[path];
      && (policy != Overwrite && planned.manifest.kind != DirKind && planned.action != Skip ==> planned.target !in disk)
      && (planned.manifest.target !in disk ==> planned.action == Write && planned.target == planned.manifest.target)
      && (policy == Overwrite ==> planned.action == Write && planned.target == planned.manifest.target)
  {
    var i :| 0 <= i < |entries| && entries[i].path == path;
    assert FollowsPolicy(entries[i], policy, plan[path]);
  }

  // ---------------------------------------------------------------- what the peak says about the disk

  /** The file will be received: it is not skipped. */
  predicate Received(e: Entry, policy: Policy) {
    e.kind == FileKind && !(e.existing && policy == SkipExisting)
  }

  /** Bytes the file adds to its part before the part becomes the target. */
  function StillToWrite(e: Entry, policy: Policy): nat
    requires Sane(e)
  {
    if e.existing && policy == RenameNew then e.size else e.size - e.resume
  }

  /** Bytes on disk that belong to the file: its part and its old target. */
  function HeldBefore(e: Entry): nat {
    e.resume + if e.existing then e.oldSize else 0
  }

  /** A renamed file leaves both as they are; otherwise the part, complete, has become the target. */
  function HeldAfter(e: Entry, policy: Policy): nat {
    if e.existing && policy == RenameNew then HeldBefore(e) + e.size else e.size
  }

  /** By how much the bytes on disk have changed once the first `n` entries are done. */
  function DiskChange(entries: seq<Entry>, policy: Policy, n: nat): int
    requires n <= |entries|
  {
    if n == 0 then 0
    else
      DiskChange(entries, policy, n - 1)
      + if Received(entries[n - 1], policy) then HeldAfter(entries[n - 1], policy) - HeldBefore(entries[n - 1]) else 0
  }

  /** By how much they have changed when the next entry has written some of its bytes. */
  function ChangeAt(entries: seq<Entry>, policy: Policy, n: nat, written: nat): int
    requires n <= |entries|
  {
    DiskChange(entries, policy, n) + written
  }

  /** The most the transfer ever takes above what was on disk before it, or 0. */
  ghost predicate IsDiskPeak(entries: seq<Entry>, policy: Policy, peak: nat)
    requires forall i :: 0 <= i < |entries| ==> Sane(entries[i])
  {
    && (forall n, written :: 0 <= n < |entries| && Received(entries[n], policy)
                             && 0 <= written <= StillToWrite(entries[n], policy) ==>
          ChangeAt(entries, policy, n, written) <= peak)
    && (peak == 0 || exists n :: 0 <= n < |entries| && Received(entries[n], policy)
                              && ChangeAt(entries, policy, n, StillToWrite(entries[n], policy)) == peak)
  }

  /** The part of the growths that a prefix of the entries contributes. */
  lemma {:induction false} GrowthsPrefix(entries: seq<Entry>, policy: Policy, n: nat, m: nat)
    requires n <= m <= |entries| && forall i :: 0 <= i < |entries| ==> Sane(entries[i])
    ensures Growths(entries, policy, n) <= Growths(entries, policy, m)
    decreases m - n
  {
    if n < m {
      GrowthsPrefix(entries, policy, n, m - 1);
    }
  }

  lemma {:induction false} ExtraIsChange(entries: seq<Entry>, policy: Policy, n: nat)
    requires n <= |entries| && forall i :: 0 <= i < |entries| ==> Sane(entries[i])
    ensures var files := Growths(entries, policy, n); Extra(files, |files|, 0) == DiskChange(entries, policy, n)
  {
    if n > 0 {
      var e, files := entries[n - 1], Growths(entries, policy, n - 1);
      ExtraIsChange(entries, policy, n - 1);
      if Received(e, policy) {
        assert Growths(entries, policy, n) == files + [GrowthOf(e, policy)];
        TotalsPrefix(files, GrowthOf(e, policy), |files|);
      } else {
        assert Growths(entries, policy, n) == files;
      }
    }
  }

  lemma {:induction false} ExtraOfPrefix(part: seq<Growth>, all: seq<Growth>, n: nat)
    requires part <= all && n <= |part|
    ensures Grown(all, n) == Grown(part, n) && Freed(all, n) == Freed(part, n)
    decreases n
  {
    if n > 0 {
      ExtraOfPrefix(part, all, n - 1);
    }
  }

  /** The moment entry `n` is written is a moment of the growths. */
  lemma MomentOf(entries: seq<Entry>, policy: Policy, n: nat)
    requires n < |entries| && Received(entries[n], policy)
    requires forall i :: 0 <= i < |entries| ==> Sane(entries[i])
    ensures var all, k := Growths(entries, policy, |entries|), |Growths(entries, policy, n)|;
      && k < |all| && all[k].grow == StillToWrite(entries[n], policy)
      && Extra(all, k, 0) == DiskChange(entries, policy, n)
  {
    var part, all := Growths(entries, policy, n), Growths(entries, policy, |entries|);
    assert Growths(entries, policy, n + 1) == part + [GrowthOf(entries[n], policy)];
    GrowthsPrefix(entries, policy, n + 1, |entries|);
    ExtraIsChange(entries, policy, n);
    ExtraOfPrefix(part, all, |part|);
    assert all[|part|] == Growths(entries, policy, n + 1)[|part|];
  }

  /** Each growth belongs to a received entry. */
  lemma {:induction false} EntryOf(entries: seq<Entry>, policy: Policy, m: nat, k: nat) returns (n: nat)
    requires m <= |entries| && forall i :: 0 <= i < |entries| ==> Sane(entries[i])
    requires k < |Growths(entries, policy, m)|
    ensures n < m && Received(entries[n], policy) && |Growths(entries, policy, n)| == k
    decreases m
  {
    if k < |Growths(entries, policy, m - 1)| {
      n := EntryOf(entries, policy, m - 1, k);
    } else {
      n := m - 1;
    }
  }

  /** The planned peak is exactly the most the transfer ever takes on disk. */
  lemma PeakOnDisk(entries: seq<Entry>, policy: Policy, peak: nat)
    requires forall i :: 0 <= i < |entries| ==> Sane(entries[i])
    requires IsPeak(Growths(entries, policy, |entries|), peak)
    ensures IsDiskPeak(entries, policy, peak)
  {
    var all := Growths(entries, policy, |entries|);
    forall n, written | 0 <= n < |entries| && Received(entries[n], policy)
                        && 0 <= written <= StillToWrite(entries[n], policy)
      ensures ChangeAt(entries, policy, n, written) <= peak
    {
      MomentOf(entries, policy, n);
      assert Extra(all, |Growths(entries, policy, n)|, written) <= peak;
    }
    if peak > 0 {
      var k :| 0 <= k < |all| && Extra(all, k, all[k].grow) == peak;
      var n := EntryOf(entries, policy, |entries|, k);
      MomentOf(entries, policy, n);
    }
  }

  /** The planning loop. */
  method PlanEntries(entries: seq<Entry>, policy: Policy, ghost total: nat, insensitive: bool)
    returns (r: Result<Planning>)
    requires forall i :: 0 <= i < |entries| ==> Sane(entries[i])
    ensures r.Ok? ==> PlanningFits(r.value, entries, policy, |entries|, insensitive)
    ensures r.Err? ==> !Acceptable(entries, policy, total, insensitive)
  {
    var p := Planning(map[], 0, Reserved({}, {}), Reserved({}, {}), None, Space(0, 0, 0));
    for n := 0 to |entries|
      invariant PlanningFits(p, entries, policy, n, insensitive)
    {
      var next := PlanNext(p, entries, policy, n, total, insensitive);
      if next.Err? {
        return next;
      }
      p := next.value;
    }
    return Ok(p);
  }

  lemma FinishedMeansAcceptable(p: Planning, entries: seq<Entry>, policy: Policy, insensitive: bool)
    requires forall i :: 0 <= i < |entries| ==> Sane(entries[i])
    requires PlanningFits(p, entries, policy, |entries|, insensitive)
    ensures Acceptable(entries, policy, p.computed, insensitive)
    ensures PlanCovers(p.plan, entries, policy, |entries|)
    ensures IsPeak(Growths(entries, policy, |entries|), p.space.peak)
    ensures PlanFollows(p.plan, entries, policy) && IsDiskPeak(entries, policy, p.space.peak)
  {
    CoveringFollows(p.plan, entries, policy);
    PeakOnDisk(entries, policy, p.space.peak);
  }

  /**
   preflight_transfer_manifest accepts exactly the manifests whose entries are well formed and
   distinct, whose sizes add up without overflow to the declared total, whose targets can coexist
   on this filesystem, and whose worst moment fits the usable free space. The plan treats every
   entry as the policy promises.
   */
  method PreflightTransferManifest(entries: seq<Entry>, policy: Policy, total: nat, insensitive: bool, usable: nat)
    returns (r: Result<Plan>)
    requires forall i :: 0 <= i < |entries| ==> Sane(entries[i])
    ensures r.Ok? ==>
      && Acceptable(entries, policy, total, insensitive)
      && IsPeak(Growths(entries, policy, |entries|), r.value.peak) && r.value.peak <= usable
      && PlanCovers(r.value.entries, entries, policy, |entries|)
      && PlanFollows(r.value.entries, entries, policy) && IsDiskPeak(entries, policy, r.value.peak)
    ensures r.Err? ==>
      || !Acceptable(entries, policy, total, insensitive)
      || exists peak :: peak > usable && IsDiskPeak(entries, policy, peak)
  {
    var planned := PlanEntries(entries, policy, total, insensitive);
    if planned.Err? {
      return Err(planned.error);
    }
    var p := planned.value;
    FinishedMeansAcceptable(p, entries, policy, insensitive);
    if p.computed != total {
      return Err("transfer manifest total size changed during preflight");
    }
    if p.space.peak > usable {
      return Err("not enough free space to receive files");
    }
    return Ok(Plan(p.plan, p.space.peak));
  }
}
