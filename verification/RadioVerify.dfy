/** The verification script decides whether the install script can succeed. */
module RadioVerify {
  import opened Bytes
  import opened Text
  import opened Edify
  import opened RadioScript
  import opened RadioInstall
  import opened RadioPhases
  import opened RadioPlan

  ghost predicate AllReady(store: Store, us: seq<Unit>) {
    forall u :: u in us ==> Ready(store, u)
  }

  /** A patch check passes exactly on a place that is ready to be patched. */
  lemma CheckRuns(t: Tools, st: State, u: Unit)
    requires !st.skipping && CollisionFree(t.sha) && Addressed(u, st.mounted)
    ensures Run(t, st, CheckCmds(u, t.sha)) == if Ready(st.store, u) then Some(st) else None
  {
    match u.patch
    case Some(patch) => RunOne(t, st, PatchCheck(u.at, t.sha(patch.target), t.sha(patch.source)));
    case None =>
  }

  lemma AllReadySnoc(store: Store, us: seq<Unit>, u: Unit)
    ensures AllReady(store, us + [u]) <==> AllReady(store, us) && Ready(store, u)
  {
    if AllReady(store, us + [u]) {
      assert u in us + [u];
      forall v | v in us ensures Ready(store, v) {
        assert v in us + [u];
      }
    }
  }

  lemma {:induction false} ChecksRun(t: Tools, st: State, us: seq<Unit>)
    requires !st.skipping && CollisionFree(t.sha) && MountFree(us)
    ensures Run(t, st, ChecksCmds(us, t.sha)) == if AllReady(st.store, us) then Some(st) else None
  {
    if us != [] {
      var front, u := us[..|us| - 1], us[|us| - 1];
      assert us == front + [u];
      ChecksRun(t, st, front);
      AllReadySnoc(st.store, front, u);
      CheckRuns(t, st, u);
      RunConcat(t, st, ChecksCmds(front, t.sha), CheckCmds(u, t.sha));
    }
  }

  lemma FwCheckStep(t: Tools, st: State, f: string, e: Entry, last: string, initial: Option<string>)
    requires !st.skipping && CollisionFree(t.sha) && LoopState(last, st.mounted, initial)
    requires !OnDevice(e.dest) ==> !StartsWith(FwUnit(f, e).path, FIRMWARE)
    ensures Run(t, st, MountFor(e.dest, last) + CheckCmds(FwUnit(f, e), t.sha)) ==
            if Ready(st.store, FwUnit(f, e)) then Some(st.(mounted := Mounted(e.dest, st.mounted))) else None
    ensures LoopState(LastFor(e.dest, last), Mounted(e.dest, st.mounted), initial)
  {
    MountRuns(t, st, e.dest, last, initial);
    var at := st.(mounted := Mounted(e.dest, st.mounted));
    FwIsAddressed(f, e, at.mounted);
    CheckRuns(t, at, FwUnit(f, e));
    RunConcat(t, st, MountFor(e.dest, last), CheckCmds(FwUnit(f, e), t.sha));
  }

  /** The checks of the firmware files, each made while its own partition is mounted. */
  lemma {:induction false} FwChecksRun(t: Tools, st: State, order: seq<string>, files: Files)
    requires (forall f :: f in order ==> f in files) && FwPathsOk(order, files)
    requires !st.skipping && CollisionFree(t.sha)
    ensures var loop := FwChecks(order, files, t.sha);
            var r := Run(t, st, loop.cmds);
            && (r.Some? <==> AllReady(st.store, FwUnits(order, files)))
            && (r.Some? ==> r.value == st.(mounted := r.value.mounted)
                            && LoopState(loop.last, r.value.mounted, st.mounted))
  {
    if order != [] {
      var front, f := order[..|order| - 1], order[|order| - 1];
      FwUnitsSnoc(order, files);
      FwPathsParts(order, front, f, files);
      FwChecksRun(t, st, front, files);
      var loop, u := FwChecks(front, files, t.sha), FwUnit(f, files[f]);
      AllReadySnoc(st.store, FwUnits(front, files), u);
      RunConcat(t, st, loop.cmds, MountFor(files[f].dest, loop.last) + CheckCmds(u, t.sha));
      hide FwUnit;
      var mid := Run(t, st, loop.cmds);
      if mid.Some? && files[f].patch.Some? {
        FwCheckStep(t, mid.value, f, files[f], loop.last, st.mounted);
      } else if files[f].patch.None? {
        NoPatchNoCheck(f, files[f], st.store);
      }
    }
  }

  lemma {:induction false} ChecksMountOnlyDevices(order: seq<string>, files: Files, sha: Blob -> string)
    requires forall f :: f in order ==> f in files
    ensures FwChecks(order, files, sha).last != "" ==> exists f :: f in files && OnDevice(files[f].dest)
  {
    if order != [] {
      var front, f := order[..|order| - 1], order[|order| - 1];
      assert order == front + [f];
      ChecksMountOnlyDevices(front, files, sha);
      assert f in files;
    }
  }

  lemma NoPatchNoCheck(f: string, e: Entry, store: Store)
    requires e.patch.None?
    ensures Ready(store, FwUnit(f, e))
  {
  }

  lemma {:induction false} BootChecksMembers(order: seq<string>, files: Files, u: Unit)
    requires forall f :: f in order ==> f in files
    ensures u in BootCheckUnits(order, files) <==> u in MainUnits(order, files) || u in BackupUnits(order, files)
  {
    if order != [] {
      var front, f := order[..|order| - 1], order[|order| - 1];
      BootChecksMembers(front, files, u);
      assert MainUnits(order, files) == MainUnits(front, files) + [RawUnit(MainCopy, f, files[f], files[f].dest)];
    }
  }

  /** What must hold of a plan whatever the device holds. */
  ghost predicate WellMade(t: Tools, p: Plan) {
    && p.Valid() && CollisionFree(t.sha) && Separate(p)
    && forall u :: Planned(p, u) ==> Shipped(t, u) && TmpFree(u.loc) && OutsideMount(u)
  }

  ghost predicate DeviceReady(p: Plan, store: Store) {
    forall u :: Planned(p, u) ==> Ready(store, u)
  }

  lemma ReadyByClass(t: Tools, p: Plan, store: Store)
    requires p.Valid()
    ensures DeviceReady(p, store) <==>
            && AllReady(store, BootCheckUnits(p.bootOrder, p.boot))
            && AllReady(store, BinUnits(p.binOrder, p.bin))
            && AllReady(store, FwUnits(p.fwOrder, p.fw))
  {
    forall u
      ensures Planned(p, u) <==> u in BootCheckUnits(p.bootOrder, p.boot) || u in BinUnits(p.binOrder, p.bin)
                                 || u in FwUnits(p.fwOrder, p.fw)
    {
      MembersOf(p, u);
      BootChecksMembers(p.bootOrder, p.boot, u);
    }
    hide BootCheckUnits;
    hide BinUnits;
    hide FwUnits;
    hide Planned;
    hide Ready;
  }

  /**
   * The verification script runs through exactly when every place to be patched holds its source or its target
   * and the cache has room for the largest source; it changes nothing but what is mounted.
   */
  lemma VerifyDecides(t: Tools, p: Plan, st: State, largest: nat)
    requires WellMade(t, p) && !st.skipping && largest > 0
    ensures var r := Run(t, st, VerifyScript(p, largest, t.sha));
            && (r.Some? <==> DeviceReady(p, st.store) && largest <= t.cacheFree)
            && (r.Some? ==> r.value == st.(mounted := r.value.mounted))
            && (r.Some? && !MountsSomething(p) ==> r.value == st)
  {
    ChecksMountOnlyDevices(p.fwOrder, p.fw, t.sha);
    var a := ChecksCmds(BootCheckUnits(p.bootOrder, p.boot), t.sha);
    var b := ChecksCmds(BinUnits(p.binOrder, p.bin), t.sha);
    var c := FwChecks(p.fwOrder, p.fw, t.sha).cmds;
    RawUnitsAreMountFree(p);
    BootChecksAreMountFree(p);
    FwPathsFromPlan(p);
    ReadyByClass(t, p, st.store);
    ChecksRun(t, st, BootCheckUnits(p.bootOrder, p.boot));
    ChecksRun(t, st, BinUnits(p.binOrder, p.bin));
    FwChecksRun(t, st, p.fwOrder, p.fw);
    assert VerifyScript(p, largest, t.sha) == a + b + c + [CacheFreeSpaceCheck(largest)];
    assert FwChecks(p.fwOrder, p.fw, t.sha).last != "" ==> MountsSomething(p);
    var loop := Run(t, st, c);
    assert loop.Some? && !MountsSomething(p) ==> loop.value == st;
    hide *;
    RunConcat(t, st, a, b);
    RunConcat(t, st, a + b, c);
    RunConcat(t, st, a + b + c, [CacheFreeSpaceCheck(largest)]);
    if Run(t, st, a + b + c).Some? {
      CacheCheckRuns(t, Run(t, st, a + b + c).value, largest);
    }
  }

  lemma CacheCheckRuns(t: Tools, st: State, largest: nat)
    requires !st.skipping
    ensures Run(t, st, [CacheFreeSpaceCheck(largest)]) == if largest <= t.cacheFree then Some(st) else None
  {
    RunOne(t, st, CacheFreeSpaceCheck(largest));
  }

  lemma BootChecksAreMountFree(p: Plan)
    requires p.Valid()
    requires MountFree(MainUnits(p.bootOrder, p.boot)) && MountFree(BackupUnits(p.bootOrder, p.boot))
    ensures MountFree(BootCheckUnits(p.bootOrder, p.boot))
  {
    forall u {
      BootChecksMembers(p.bootOrder, p.boot, u);
    }
    hide MainUnits;
    hide BackupUnits;
    hide BootCheckUnits;
    hide Addressed;
  }

  lemma FwPathsFromPlan(p: Plan)
    requires p.Valid() && forall u :: Planned(p, u) ==> OutsideMount(u)
    ensures FwPathsOk(p.fwOrder, p.fw)
  {
    forall f | f in p.fwOrder && !OnDevice(p.fw[f].dest) ensures !StartsWith(FwUnit(f, p.fw[f]).path, FIRMWARE) {
      assert Planned(p, FwUnit(f, p.fw[f]));
    }
  }

  // ----- verification writes nothing

  /** A command that reads the device, or changes what is mounted. */
  predicate OnlyLooks(c: Cmd) {
    c.PatchCheck? || c.CacheFreeSpaceCheck? || c.Unmount? || c.Mount?
  }

  predicate AllLook(cmds: seq<Cmd>) {
    forall i :: 0 <= i < |cmds| ==> OnlyLooks(cmds[i])
  }

  lemma {:induction false} LookingKeeps(t: Tools, st: State, cmds: seq<Cmd>)
    requires AllLook(cmds)
    ensures var r := Run(t, st, cmds); r.Some? ==> r.value == st.(mounted := r.value.mounted)
    decreases |cmds|
  {
    if cmds != [] {
      var next := Step(t, st, cmds[0]);
      if next.Some? {
        LookingKeeps(t, next.value, cmds[1..]);
      }
    }
  }

  lemma {:induction false} ChecksLook(us: seq<Unit>, sha: Blob -> string)
    ensures AllLook(ChecksCmds(us, sha))
  {
    if us != [] {
      ChecksLook(us[..|us| - 1], sha);
    }
  }

  lemma {:induction false} FwChecksLook(order: seq<string>, files: Files, sha: Blob -> string)
    requires forall f :: f in order ==> f in files
    ensures AllLook(FwChecks(order, files, sha).cmds)
  {
    if order != [] {
      FwChecksLook(order[..|order| - 1], files, sha);
    }
  }

  lemma VerifyLooks(p: Plan, largest: nat, sha: Blob -> string)
    requires p.Valid()
    ensures AllLook(VerifyScript(p, largest, sha))
  {
    ChecksLook(BootCheckUnits(p.bootOrder, p.boot), sha);
    ChecksLook(BinUnits(p.binOrder, p.bin), sha);
    FwChecksLook(p.fwOrder, p.fw, sha);
    var a := ChecksCmds(BootCheckUnits(p.bootOrder, p.boot), sha);
    var b := ChecksCmds(BinUnits(p.binOrder, p.bin), sha);
    var c := FwChecks(p.fwOrder, p.fw, sha).cmds;
    assert VerifyScript(p, largest, sha) == if largest == 0 then [] else a + b + c + [CacheFreeSpaceCheck(largest)];
    LookLast(largest);
    hide *;
    BothLook(a, b);
    BothLook(a + b, c);
    BothLook(a + b + c, [CacheFreeSpaceCheck(largest)]);
  }

  lemma BothLook(a: seq<Cmd>, b: seq<Cmd>)
    requires AllLook(a) && AllLook(b)
    ensures AllLook(a + b)
  {
  }

  lemma LookLast(largest: nat)
    ensures AllLook([]) && AllLook([CacheFreeSpaceCheck(largest)])
  {
  }

  /** At every point that a run of the commands gets to, the store is what it was. */
  ghost predicate NothingWritten(t: Tools, st: State, cmds: seq<Cmd>) {
    forall k :: 0 <= k <= |cmds| && Run(t, st, cmds[..k]).Some? ==> Run(t, st, cmds[..k]).value.store == st.store
  }

  /** A script whose looking part aborts writes nothing, whatever follows. */
  lemma AbortsBeforeWriting(t: Tools, st: State, look: seq<Cmd>, rest: seq<Cmd>)
    requires AllLook(look) && Run(t, st, look).None?
    ensures NothingWritten(t, st, look + rest)
  {
    forall k | 0 <= k <= |look + rest| && Run(t, st, (look + rest)[..k]).Some?
      ensures Run(t, st, (look + rest)[..k]).value.store == st.store
    {
      PrefixOfConcat(look, rest, k);
      if k <= |look| {
        LookingKeeps(t, st, look[..k]);
      } else {
        RunConcat(t, st, look, rest[..k - |look|]);
      }
    }
  }

  // ----- the update as a whole

  ghost function UpdateScript(p: Plan, largest: nat, sha: Blob -> string): seq<Cmd>
    requires p.Valid()
  {
    VerifyScript(p, largest, sha) + InstallScript(p, sha)
  }

  lemma UpdateIs(p: Plan, largest: nat, sha: Blob -> string)
    requires p.Valid()
    ensures UpdateScript(p, largest, sha) == VerifyScript(p, largest, sha) + InstallScript(p, sha)
  {
    hide VerifyScript;
    hide InstallScript;
  }

  /** The size of the largest source is recorded whenever a plan patches something. */
  ghost predicate SizeRecorded(p: Plan, largest: nat) {
    largest == 0 ==> forall u :: Planned(p, u) ==> u.patch.None?
  }

  lemma Verified(t: Tools, p: Plan, st: State, largest: nat)
    requires WellMade(t, p) && !st.skipping && SizeRecorded(p, largest)
    ensures var r := Run(t, st, VerifyScript(p, largest, t.sha));
            && (r.Some? <==> DeviceReady(p, st.store) && (largest > 0 ==> largest <= t.cacheFree))
            && (r.Some? ==> r.value == st.(mounted := r.value.mounted))
            && (r.Some? && !MountsSomething(p) ==> r.value == st)
  {
    if largest > 0 {
      VerifyDecides(t, p, st, largest);
    } else {
      assert VerifyScript(p, largest, t.sha) == [];
    }
  }

  /**
   * Verification followed by installation aborts exactly when verification does, so never half-way through
   * installing; when it aborts nothing has been written, and when it does not, every image is in place.
   */
  lemma UpdateIsAllOrNothing(t: Tools, p: Plan, st: State, largest: nat) returns (r: Option<State>)
    requires WellMade(t, p) && !st.skipping && SizeRecorded(p, largest)
    ensures r == Run(t, st, UpdateScript(p, largest, t.sha))
    ensures r.Some? <==> DeviceReady(p, st.store) && (largest > 0 ==> largest <= t.cacheFree)
    ensures r.None? ==> Run(t, st, VerifyScript(p, largest, t.sha)).None?
    ensures r.None? ==> NothingWritten(t, st, UpdateScript(p, largest, t.sha))
    ensures r.Some? ==>
              && (forall u :: Planned(p, u) ==>
                    if Goes(t, u) then Has(r.value.store, u.loc, Goal(t, u))
                    else Agree(r.value.store, st.store, u.loc))
              && r.value.mounted == (if MountsSomething(p) then None else st.mounted)
  {
    RunConcat(t, st, VerifyScript(p, largest, t.sha), InstallScript(p, t.sha));
    Verified(t, p, st, largest);
    var verified := Run(t, st, VerifyScript(p, largest, t.sha));
    if verified.Some? {
      var done := InstallReachesTargets(t, p, verified.value);
    } else {
      VerifyLooks(p, largest, t.sha);
      AbortsBeforeWriting(t, st, VerifyScript(p, largest, t.sha), InstallScript(p, t.sha));
    }
    r := Run(t, st, UpdateScript(p, largest, t.sha));
  }

  /** Where the installation is cut, every place to be patched still holds source or target. */
  lemma InstallStaysReady(t: Tools, p: Plan, st: State, k: nat)
    requires WellMade(t, p) && !st.skipping && DeviceReady(p, st.store) && k <= |InstallScript(p, t.sha)|
    requires Run(t, st, InstallScript(p, t.sha)[..k]).Some?
    ensures DeviceReady(p, Run(t, st, InstallScript(p, t.sha)[..k]).value.store)
  {
    hide Planned;
    hide InstallScript;
    hide Run;
    var again := Run(t, st, InstallScript(p, t.sha)[..k]).value.(skipping := false);
    var cut, r := InstallCanRestart(t, t, p, st, k, again);
  }

  /** A cut in the second of two scripts is a cut of that script alone, from where the first one ends. */
  lemma CutInSecond(t: Tools, st: State, a: seq<Cmd>, b: seq<Cmd>, k: nat)
    requires |a| <= k <= |a + b| && Run(t, st, (a + b)[..k]).Some?
    ensures Run(t, st, a).Some? && Run(t, st, (a + b)[..k]) == Run(t, Run(t, st, a).value, b[..k - |a|])
  {
    assert (a + b)[..k] == a + b[..k - |a|];
    RunConcat(t, st, a, b[..k - |a|]);
  }

  lemma WellMadeIsValid(t: Tools, p: Plan)
    requires WellMade(t, p)
    ensures p.Valid() && CollisionFree(t.sha)
  {
  }

  lemma CutInVerify(t: Tools, p: Plan, st: State, largest: nat, k: nat)
    requires p.Valid() && k <= |VerifyScript(p, largest, t.sha)|
    ensures var r := Run(t, st, UpdateScript(p, largest, t.sha)[..k]); r.Some? ==> r.value.store == st.store
  {
    hide *;
    var v := VerifyScript(p, largest, t.sha);
    UpdateIs(p, largest, t.sha);
    PrefixOfConcat(v, InstallScript(p, t.sha), k);
    VerifyLooks(p, largest, t.sha);
    PartLooks(v, k);
    LookingKeeps(t, st, v[..k]);
  }

  lemma CutInInstall(t: Tools, p: Plan, st: State, largest: nat, k: nat)
    requires WellMade(t, p) && !st.skipping && SizeRecorded(p, largest)
    requires |VerifyScript(p, largest, t.sha)| <= k <= |UpdateScript(p, largest, t.sha)|
    requires Run(t, st, UpdateScript(p, largest, t.sha)[..k]).Some?
    ensures DeviceReady(p, st.store)
    ensures DeviceReady(p, Run(t, st, UpdateScript(p, largest, t.sha)[..k]).value.store)
  {
    hide *;
    WellMadeIsValid(t, p);
    UpdateIs(p, largest, t.sha);
    var v := VerifyScript(p, largest, t.sha);
    CutInSecond(t, st, v, InstallScript(p, t.sha), k);
    Verified(t, p, st, largest);
    InstallStaysReady(t, p, Run(t, st, v).value, k - |v|);
  }

  /** Where the update is cut, the device is ready exactly if it was ready before. */
  lemma CutKeepsReady(t: Tools, p: Plan, st: State, largest: nat, k: nat)
    requires WellMade(t, p) && !st.skipping && SizeRecorded(p, largest)
    requires k <= |UpdateScript(p, largest, t.sha)| && Run(t, st, UpdateScript(p, largest, t.sha)[..k]).Some?
    ensures DeviceReady(p, Run(t, st, UpdateScript(p, largest, t.sha)[..k]).value.store) <==> DeviceReady(p, st.store)
  {
    hide *;
    WellMadeIsValid(t, p);
    if k <= |VerifyScript(p, largest, t.sha)| {
      CutInVerify(t, p, st, largest, k);
    } else {
      CutInInstall(t, p, st, largest, k);
    }
  }

  lemma PartLooks(cmds: seq<Cmd>, k: nat)
    requires k <= |cmds| && AllLook(cmds)
    ensures AllLook(cmds[..k])
  {
  }

  // ----- every patch is checked first

  lemma {:induction false} PatchesOfUnits(us: seq<Unit>, sha: Blob -> string, c: Cmd) returns (u: Unit)
    requires c in UnitsCmds(us, sha) && c.ApplyPatch?
    ensures u in us && u.patch.Some? && PatchOf(u, sha) == c
  {
    var last := us[|us| - 1];
    if c in UnitCmds(last, sha) {
      u := last;
    } else {
      u := PatchesOfUnits(us[..|us| - 1], sha, c);
    }
  }

  function PatchOf(u: Unit, sha: Blob -> string): Cmd
    requires u.patch.Some?
  {
    ApplyPatch(u.at, sha(u.patch.value.target), sha(u.patch.value.source), u.file)
  }

  function CheckOf(u: Unit, sha: Blob -> string): Cmd
    requires u.patch.Some?
  {
    PatchCheck(u.at, sha(u.patch.value.target), sha(u.patch.value.source))
  }

  lemma {:induction false} ChecksOfUnits(us: seq<Unit>, sha: Blob -> string, u: Unit)
    requires u in us && u.patch.Some?
    ensures CheckOf(u, sha) in ChecksCmds(us, sha)
  {
    if u != us[|us| - 1] {
      ChecksOfUnits(us[..|us| - 1], sha, u);
    }
  }

  lemma {:induction false} PatchesOfFw(order: seq<string>, files: Files, sha: Blob -> string, c: Cmd)
    requires (forall f :: f in order ==> f in files) && c in FwInstall(order, files, sha).cmds && c.ApplyPatch?
    ensures exists u :: u in FwUnits(order, files) && u.patch.Some? && PatchOf(u, sha) == c
                        && CheckOf(u, sha) in FwChecks(order, files, sha).cmds
  {
    hide FwUnit;
    hide MountFor;
    hide LastFor;
    hide UnitCmds;
    hide PatchOf;
    hide CheckOf;
    var front, f := order[..|order| - 1], order[|order| - 1];
    assert order == front + [f];
    FwUnitsSnoc(order, files);
    var u := FwUnit(f, files[f]);
    FwUnitFile(f, files[f]);
    NoPatchInMount(files[f].dest, FwInstall(front, files, sha).last, c);
    UnitPatch(u, sha, c);
    if c !in UnitCmds(u, sha) {
      PatchesOfFw(front, files, sha, c);
    }
  }

  lemma NoPatchInMount(dest: string, last: string, c: Cmd)
    ensures c in MountFor(dest, last) ==> !c.ApplyPatch?
  {
  }

  lemma UnitPatch(u: Unit, sha: Blob -> string, c: Cmd)
    ensures c in UnitCmds(u, sha) && c.ApplyPatch? ==>
              u.patch.Some? && PatchOf(u, sha) == c && CheckOf(u, sha) in CheckCmds(u, sha)
  {
    hide LastSegment;
  }

  lemma FwUnitFile(f: string, e: Entry)
    ensures FwUnit(f, e).file == f && FwUnit(f, e).patch == e.patch
  {
    hide PlainName;
    hide FwDir;
  }

  /** Whatever the install script patches, the verification script has checked for the same place and contents. */
  lemma EveryPatchIsChecked(p: Plan, largest: nat, sha: Blob -> string, c: Cmd)
    requires p.Valid() && largest > 0 && c in InstallScript(p, sha) && c.ApplyPatch?
    ensures PatchCheck(c.at, c.tgtSha, c.srcSha) in VerifyScript(p, largest, sha)
  {
    hide UnitsCmds;
    hide ChecksCmds;
    hide FwChecks;
    hide FwInstall;
    hide MainUnits;
    hide BackupUnits;
    hide BootCheckUnits;
    hide BinUnits;
    hide FwUnits;
    ScriptIsParts(p, sha);
    if c in BootPart(p, sha) {
      var us := if c in UnitsCmds(MainUnits(p.bootOrder, p.boot), sha) then MainUnits(p.bootOrder, p.boot)
                else BackupUnits(p.bootOrder, p.boot);
      var u := PatchesOfUnits(us, sha, c);
      BootChecksMembers(p.bootOrder, p.boot, u);
      ChecksOfUnits(BootCheckUnits(p.bootOrder, p.boot), sha, u);
    } else if c in BinPart(p, sha) {
      var u := PatchesOfUnits(BinUnits(p.binOrder, p.bin), sha, c);
      ChecksOfUnits(BinUnits(p.binOrder, p.bin), sha, u);
    } else {
      PatchesOfFw(p.fwOrder, p.fw, sha, c);
    }
  }

  /**
   * Power loss at any command of the whole update, and the package run again from its verification: it is decided
   * as before, and if it runs, every image arrives whose boot stage now proceeds.
   */
  lemma UpdateCanRestart(t: Tools, t2: Tools, p: Plan, st: State, largest: nat, k: nat, again: State)
    returns (r: Option<State>)
    requires WellMade(t, p) && !st.skipping && SizeRecorded(p, largest) && SamePackage(t, t2)
    requires k <= |UpdateScript(p, largest, t.sha)| && Run(t, st, UpdateScript(p, largest, t.sha)[..k]).Some?
    requires again.store == Run(t, st, UpdateScript(p, largest, t.sha)[..k]).value.store && !again.skipping
    ensures r == Run(t2, again, UpdateScript(p, largest, t.sha))
    ensures r.Some? <==> DeviceReady(p, st.store) && (largest > 0 ==> largest <= t2.cacheFree)
    ensures forall u :: Planned(p, u) ==> Shipped(t2, u) && Shipped(t, u) && Goal(t2, u) == Goal(t, u)
    ensures r.Some? ==> forall u :: Planned(p, u) ==>
              if Goes(t2, u) then Has(r.value.store, u.loc, Goal(t2, u)) else Agree(r.value.store, again.store, u.loc)
  {
    CutKeepsReady(t, p, st, largest, k);
    forall u {
      SamePackageMeans(t, t2, u);
    }
    r := UpdateIsAllOrNothing(t2, p, again, largest);
  }
}
