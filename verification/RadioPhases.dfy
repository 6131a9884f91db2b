/** The three phases of the install script: boot images in guarded blocks, bin images, firmware files. */
module RadioPhases {
  import opened Bytes
  import opened Text
  import opened Edify
  import opened RadioScript
  import opened RadioInstall

  /** Boot images are only written when boot_update lets their stage proceed. */
  predicate Goes(t: Tools, u: Unit) {
    match u.role
    case MainCopy => t.proceeds(Main)
    case BackupCopy => t.proceeds(Backup)
    case _ => true
  }

  ghost predicate AllSound(t: Tools, us: seq<Unit>) {
    forall u :: u in us ==> Shipped(t, u) && TmpFree(u.loc)
  }

  /** Every unit is in place, except those whose stage does not proceed: these are as before. */
  ghost predicate Reached(t: Tools, before: Store, after: Store, us: seq<Unit>)
    requires AllSound(t, us)
  {
    forall u :: u in us ==> if Goes(t, u) then Has(after, u.loc, Goal(t, u)) else Agree(after, before, u.loc)
  }

  ghost predicate Same(before: Store, after: Store, us: seq<Unit>) {
    forall u :: u in us ==> Agree(after, before, u.loc)
  }

  lemma ReachedBoth(t: Tools, a: Store, b: Store, c: Store, us: seq<Unit>, vs: seq<Unit>)
    requires AllSound(t, us) && AllSound(t, vs) && Apart(us + vs)
    requires Reached(t, a, b, us) && Untouched(b, a, us) && Reached(t, b, c, vs) && Untouched(c, b, vs)
    ensures AllSound(t, us + vs) && Reached(t, a, c, us + vs) && Untouched(c, a, us + vs)
  {
    UntouchedTwice(a, b, c, us, vs);
    forall u | u in us + vs
      ensures if Goes(t, u) then Has(c, u.loc, Goal(t, u)) else Agree(c, a, u.loc) {
      if u in us {
        ApartSplitBack(us, vs, u);
        assert Agree(c, b, u.loc);
      } else {
        ApartSplit(us, vs, u);
        assert Agree(b, a, u.loc);
      }
    }
  }

  lemma ReachedIsOldOrNew(t: Tools, a: Store, b: Store, us: seq<Unit>)
    requires AllSound(t, us) && Reached(t, a, b, us)
    ensures AllOldOrNew(t, a, b, us)
  {
  }

  lemma SoundParts(t: Tools, store: Store, us: seq<Unit>)
    requires AllInstallable(t, store, us)
    ensures AllSound(t, us)
  {
  }

  // ----- guarded blocks

  function Block(stage: Stage, us: seq<Unit>, sha: Blob -> string): seq<Cmd> {
    [IfBootUpdate(stage)] + UnitsCmds(us, sha) + [EndIf]
  }

  ghost predicate OfStage(us: seq<Unit>, stage: Stage) {
    forall u :: u in us ==> u.role == if stage == Main then MainCopy else BackupCopy
  }

  lemma {:induction false} NoEndInside(us: seq<Unit>, sha: Blob -> string)
    ensures forall i :: 0 <= i < |UnitsCmds(us, sha)| ==> !UnitsCmds(us, sha)[i].EndIf?
  {
    if us != [] {
      hide LastSegment;
      NoEndInside(us[..|us| - 1], sha);
    }
  }

  function Entered(t: Tools, st: State, stage: Stage): State {
    st.(skipping := !t.proceeds(stage), stages := st.stages + [stage])
  }

  lemma EnterBlock(t: Tools, st: State, stage: Stage)
    requires !st.skipping
    ensures Run(t, st, [IfBootUpdate(stage)]) == Some(Entered(t, st, stage))
  {
    RunOne(t, st, IfBootUpdate(stage));
  }

  lemma LeaveBlock(t: Tools, st: State)
    ensures Run(t, st, [EndIf]) == Some(st.(skipping := false))
  {
    RunOne(t, st, EndIf);
  }

  /** The inside of a block: everything is installed, or nothing happens. */
  lemma InsideBlock(t: Tools, st: State, stage: Stage, us: seq<Unit>) returns (r: State)
    requires !st.skipping && CollisionFree(t.sha) && stage != Finalize
    requires AllInstallable(t, st.store, us) && MountFree(us) && Apart(us) && OfStage(us, stage)
    ensures AllSound(t, us)
    ensures Run(t, Entered(t, st, stage), UnitsCmds(us, t.sha)) == Some(r)
    ensures r == Entered(t, st, stage).(store := r.store)
    ensures Reached(t, st.store, r.store, us) && Untouched(r.store, st.store, us)
  {
    SoundParts(t, st.store, us);
    if t.proceeds(stage) {
      r := UnitsInstall(t, Entered(t, st, stage), us);
    } else {
      r := Entered(t, st, stage);
      NoEndInside(us, t.sha);
      RunSkipped(t, r, UnitsCmds(us, t.sha));
    }
  }

  lemma BlockRuns(t: Tools, st: State, stage: Stage, us: seq<Unit>) returns (r: State)
    requires !st.skipping && CollisionFree(t.sha) && stage != Finalize
    requires AllInstallable(t, st.store, us) && MountFree(us) && Apart(us) && OfStage(us, stage)
    ensures AllSound(t, us)
    ensures Run(t, st, Block(stage, us, t.sha)) == Some(r)
    ensures r == st.(store := r.store, stages := st.stages + [stage])
    ensures Reached(t, st.store, r.store, us) && Untouched(r.store, st.store, us)
  {
    var inside := InsideBlock(t, st, stage, us);
    r := inside.(skipping := false);
    hide *;
    var cmds := UnitsCmds(us, t.sha);
    BlockIs(stage, us, t.sha);
    EnterBlock(t, st, stage);
    RunConcat(t, st, [IfBootUpdate(stage)], cmds);
    RunConcat(t, st, [IfBootUpdate(stage)] + cmds, [EndIf]);
    LeaveBlock(t, inside);
    EnteredIs(t, st, stage);
  }

  lemma BlockIs(stage: Stage, us: seq<Unit>, sha: Blob -> string)
    ensures Block(stage, us, sha) == [IfBootUpdate(stage)] + UnitsCmds(us, sha) + [EndIf]
  {
  }

  lemma EnteredIs(t: Tools, st: State, stage: Stage)
    ensures var e := Entered(t, st, stage);
            && e.store == st.store && e.mounted == st.mounted && e.stages == st.stages + [stage]
            && e.skipping == !t.proceeds(stage)
  {
  }

  lemma BlockPrefix(stage: Stage, us: seq<Unit>, sha: Blob -> string, k: nat)
    requires k <= |Block(stage, us, sha)|
    ensures |Block(stage, us, sha)| == |UnitsCmds(us, sha)| + 2
    ensures Block(stage, us, sha)[..k] ==
            if k == 0 then []
            else if k == |Block(stage, us, sha)| then Block(stage, us, sha)
            else [IfBootUpdate(stage)] + UnitsCmds(us, sha)[..k - 1]
  {
    hide UnitsCmds;
  }

  lemma SoundMeans(t: Tools, us: seq<Unit>)
    requires AllSound(t, us)
    ensures forall u :: u in us ==> Shipped(t, u) && TmpFree(u.loc)
  {
  }

  lemma NothingYet(t: Tools, st: State, us: seq<Unit>)
    requires AllSound(t, us)
    ensures Run(t, st, []) == Some(st)
    ensures AllOldOrNew(t, st.store, st.store, us) && Untouched(st.store, st.store, us)
  {
  }

  /** A block cut short: its places are old or new, and everything else is as before. */
  lemma BlockCutShort(t: Tools, st: State, stage: Stage, us: seq<Unit>, k: nat) returns (r: State)
    requires !st.skipping && CollisionFree(t.sha) && stage != Finalize
    requires AllInstallable(t, st.store, us) && MountFree(us) && Apart(us) && OfStage(us, stage)
    requires k <= |Block(stage, us, t.sha)|
    ensures AllSound(t, us)
    ensures Run(t, st, Block(stage, us, t.sha)[..k]) == Some(r)
    ensures AllOldOrNew(t, st.store, r.store, us) && Untouched(r.store, st.store, us)
  {
    hide *;
    SoundParts(t, st.store, us);
    SoundMeans(t, us);
    var cmds := UnitsCmds(us, t.sha);
    BlockPrefix(stage, us, t.sha, k);
    if k == 0 {
      r := st;
      NothingYet(t, st, us);
    } else if k == |Block(stage, us, t.sha)| {
      r := BlockRuns(t, st, stage, us);
      ReachedIsOldOrNew(t, st.store, r.store, us);
    } else {
      r := InsideCutShort(t, st, stage, us, k - 1);
      EnterBlock(t, st, stage);
      RunConcat(t, st, [IfBootUpdate(stage)], cmds[..k - 1]);
    }
  }

  lemma InsideCutShort(t: Tools, st: State, stage: Stage, us: seq<Unit>, k: nat) returns (r: State)
    requires !st.skipping && CollisionFree(t.sha) && stage != Finalize
    requires AllInstallable(t, st.store, us) && MountFree(us) && Apart(us) && OfStage(us, stage)
    requires k <= |UnitsCmds(us, t.sha)| && AllSound(t, us)
    ensures Run(t, Entered(t, st, stage), UnitsCmds(us, t.sha)[..k]) == Some(r)
    ensures AllOldOrNew(t, st.store, r.store, us) && Untouched(r.store, st.store, us)
  {
    if t.proceeds(stage) {
      r := UnitsCutShort(t, Entered(t, st, stage), us, k);
    } else {
      r := Entered(t, st, stage);
      NoEndInside(us, t.sha);
      RunSkipped(t, r, UnitsCmds(us, t.sha)[..k]);
    }
  }

  // ----- the boot phase

  function SecondStage(baks: seq<Unit>, sha: Blob -> string): seq<Cmd> {
    if baks != [] then Block(Backup, baks, sha) else [BootUpdate(Backup)]
  }

  function BootCmds(mains: seq<Unit>, baks: seq<Unit>, sha: Blob -> string): seq<Cmd> {
    Block(Main, mains, sha) + SecondStage(baks, sha) + [BootUpdate(Finalize)]
  }

  ghost predicate BootReady(t: Tools, st: State, mains: seq<Unit>, baks: seq<Unit>) {
    && !st.skipping && CollisionFree(t.sha) && Apart(mains + baks)
    && AllInstallable(t, st.store, mains) && MountFree(mains) && OfStage(mains, Main)
    && AllInstallable(t, st.store, baks) && MountFree(baks) && OfStage(baks, Backup)
  }

  lemma SecondStageRuns(t: Tools, st: State, baks: seq<Unit>) returns (r: State)
    requires !st.skipping && CollisionFree(t.sha) && Apart(baks)
    requires AllInstallable(t, st.store, baks) && MountFree(baks) && OfStage(baks, Backup)
    ensures AllSound(t, baks)
    ensures Run(t, st, SecondStage(baks, t.sha)) == Some(r)
    ensures r == st.(store := r.store, stages := st.stages + [Backup])
    ensures Reached(t, st.store, r.store, baks) && Untouched(r.store, st.store, baks)
  {
    if baks != [] {
      r := BlockRuns(t, st, Backup, baks);
    } else {
      RunOne(t, st, BootUpdate(Backup));
      r := st.(stages := st.stages + [Backup]);
    }
  }

  lemma SecondStageCutShort(t: Tools, st: State, baks: seq<Unit>, k: nat) returns (r: State)
    requires !st.skipping && CollisionFree(t.sha) && Apart(baks)
    requires AllInstallable(t, st.store, baks) && MountFree(baks) && OfStage(baks, Backup)
    requires k <= |SecondStage(baks, t.sha)|
    ensures AllSound(t, baks)
    ensures Run(t, st, SecondStage(baks, t.sha)[..k]) == Some(r)
    ensures AllOldOrNew(t, st.store, r.store, baks) && Untouched(r.store, st.store, baks)
  {
    if baks != [] {
      r := BlockCutShort(t, st, Backup, baks, k);
    } else if k == 0 {
      r := st;
      assert SecondStage(baks, t.sha)[..0] == [];
    } else {
      assert SecondStage(baks, t.sha)[..k] == [BootUpdate(Backup)];
      RunOne(t, st, BootUpdate(Backup));
      r := st.(stages := st.stages + [Backup]);
    }
  }

  lemma BootRuns(t: Tools, st: State, mains: seq<Unit>, baks: seq<Unit>) returns (mid: State, late: State, r: State)
    requires BootReady(t, st, mains, baks)
    ensures AllSound(t, mains) && AllSound(t, baks) && AllSound(t, mains + baks)
    ensures Run(t, st, Block(Main, mains, t.sha)) == Some(mid) && !mid.skipping
    ensures Reached(t, st.store, mid.store, mains) && Untouched(mid.store, st.store, mains)
    ensures Run(t, st, Block(Main, mains, t.sha) + SecondStage(baks, t.sha)) == Some(late)
    ensures Run(t, st, BootCmds(mains, baks, t.sha)) == Some(r)
    ensures late.store == r.store && r == st.(store := r.store, stages := st.stages + [Main, Backup, Finalize])
    ensures Reached(t, st.store, r.store, mains + baks) && Untouched(r.store, st.store, mains + baks)
  {
    ApartParts(mains, baks);
    mid := BlockRuns(t, st, Main, mains);
    StillInstallable(t, st.store, mid.store, mains, baks);
    late := SecondStageRuns(t, mid, baks);
    ReachedBoth(t, st.store, mid.store, late.store, mains, baks);
    r := late.(stages := late.stages + [Finalize]);
    hide *;
    RunConcat(t, st, Block(Main, mains, t.sha), SecondStage(baks, t.sha));
    BootUpdateRuns(t, late, Finalize);
    RunConcat(t, st, Block(Main, mains, t.sha) + SecondStage(baks, t.sha), [BootUpdate(Finalize)]);
    BootCmdsAre(mains, baks, t.sha);
    assert st.stages + [Main] + [Backup] + [Finalize] == st.stages + [Main, Backup, Finalize];
  }

  lemma BootUpdateRuns(t: Tools, st: State, stage: Stage)
    requires !st.skipping
    ensures Run(t, st, [BootUpdate(stage)]) == Some(st.(stages := st.stages + [stage]))
  {
    RunOne(t, st, BootUpdate(stage));
  }

  lemma BootCmdsAre(mains: seq<Unit>, baks: seq<Unit>, sha: Blob -> string)
    ensures BootCmds(mains, baks, sha) ==
            Block(Main, mains, sha) + SecondStage(baks, sha) + [BootUpdate(Finalize)]
  {
  }

  /**
   * The boot phase cut short anywhere: every partition is old or new, and at least one of the two copies is
   * whole: either no backup has been touched, or every main partition is in its final state.
   */
  lemma BootCutShort(t: Tools, st: State, mains: seq<Unit>, baks: seq<Unit>, k: nat) returns (r: State)
    requires BootReady(t, st, mains, baks) && k <= |BootCmds(mains, baks, t.sha)|
    ensures AllSound(t, mains) && AllSound(t, mains + baks)
    ensures Run(t, st, BootCmds(mains, baks, t.sha)[..k]) == Some(r)
    ensures AllOldOrNew(t, st.store, r.store, mains + baks) && Untouched(r.store, st.store, mains + baks)
    ensures Same(st.store, r.store, baks) || Reached(t, st.store, r.store, mains)
  {
    var first, second := Block(Main, mains, t.sha), SecondStage(baks, t.sha);
    ApartParts(mains, baks);
    var mid, late, end := BootRuns(t, st, mains, baks);
    BootCmdsAre(mains, baks, t.sha);
    PrefixOfConcat(first + second, [BootUpdate(Finalize)], k);
    if k <= |first| {
      PrefixOfConcat(first, second, k);
      r := BlockCutShort(t, st, Main, mains, k);
      OldOrNewMore(t, st.store, r.store, mains, baks);
      StillInstallable(t, st.store, r.store, mains, baks);
    } else if k <= |first + second| {
      PrefixOfConcat(first, second, k);
      StillInstallable(t, st.store, mid.store, mains, baks);
      r := SecondStageCutShort(t, mid, baks, k - |first|);
      ReachedIsOldOrNew(t, st.store, mid.store, mains);
      NewThenOldOrNew(t, st.store, mid.store, r.store, mains, baks);
      RunConcat(t, st, first, second[..k - |first|]);
      StillReached(t, st.store, mid.store, r.store, mains, baks);
    } else {
      assert BootCmds(mains, baks, t.sha)[..k] == BootCmds(mains, baks, t.sha);
      r := end;
      ReachedIsOldOrNew(t, st.store, r.store, mains + baks);
      ReachedPart(t, st.store, r.store, mains, baks);
    }
  }

  lemma ReachedPart(t: Tools, a: Store, b: Store, us: seq<Unit>, vs: seq<Unit>)
    requires AllSound(t, us) && AllSound(t, us + vs) && Reached(t, a, b, us + vs)
    ensures Reached(t, a, b, us)
  {
    forall u | u in us
      ensures if Goes(t, u) then Has(b, u.loc, Goal(t, u)) else Agree(b, a, u.loc) {
      assert u in us + vs;
    }
  }

  lemma StillReached(t: Tools, a: Store, b: Store, c: Store, us: seq<Unit>, vs: seq<Unit>)
    requires AllSound(t, us) && Apart(us + vs) && Reached(t, a, b, us) && Untouched(c, b, vs)
    ensures Reached(t, a, c, us)
  {
    forall u | u in us
      ensures if Goes(t, u) then Has(c, u.loc, Goal(t, u)) else Agree(c, a, u.loc) {
      ApartSplitBack(us, vs, u);
      assert Agree(c, b, u.loc);
    }
  }

  // ----- the firmware phase

  ghost predicate FwPathsOk(order: seq<string>, files: Files)
    requires forall f :: f in order ==> f in files
  {
    forall f :: f in order && !OnDevice(files[f].dest) ==> !StartsWith(FwUnit(f, files[f]).path, FIRMWARE)
  }

  /** The partition that a firmware file needs is the mounted one when its commands run. */
  lemma FwIsAddressed(f: string, e: Entry, mounted: Option<string>)
    requires OnDevice(e.dest) ==> mounted == Some(e.dest)
    requires !OnDevice(e.dest) ==> !StartsWith(FwUnit(f, e).path, FIRMWARE)
    ensures Addressed(FwUnit(f, e), mounted)
  {
    hide PlainName;
    if OnDevice(e.dest) {
      var path := "/firmware/image/" + PlainName(f);
      assert path[..|FIRMWARE|] == FIRMWARE;
    }
  }

  function Mounted(dest: string, mounted: Option<string>): Option<string> {
    if OnDevice(dest) then Some(dest) else mounted
  }

  ghost predicate LoopState(last: string, mounted: Option<string>, initial: Option<string>) {
    mounted == if last != "" then Some(last) else initial
  }

  lemma MountRuns(t: Tools, st: State, dest: string, last: string, initial: Option<string>)
    requires !st.skipping && LoopState(last, st.mounted, initial)
    ensures Run(t, st, MountFor(dest, last)) == Some(st.(mounted := Mounted(dest, st.mounted)))
    ensures LoopState(LastFor(dest, last), Mounted(dest, st.mounted), initial)
  {
    if OnDevice(dest) && last != dest {
      RunTwo(t, st, Unmount, Mount(dest));
    }
    if OnDevice(dest) {
      assert dest != "";
    }
  }

  lemma MountCutShort(t: Tools, st: State, dest: string, last: string, k: nat) returns (r: State)
    requires !st.skipping && k < |MountFor(dest, last)|
    ensures Run(t, st, MountFor(dest, last)[..k]) == Some(r) && r.store == st.store
  {
    if k == 0 {
      assert MountFor(dest, last)[..0] == [];
      r := st;
    } else {
      assert MountFor(dest, last)[..k] == [Unmount];
      RunOne(t, st, Unmount);
      r := st.(mounted := None);
    }
  }

  lemma FwUnitsSnoc(order: seq<string>, files: Files)
    requires order != [] && forall f :: f in order ==> f in files
    ensures var front, f := order[..|order| - 1], order[|order| - 1];
            && order == front + [f] && f in files && (forall f :: f in front ==> f in files)
            && FwUnits(order, files) == FwUnits(front, files) + [FwUnit(f, files[f])]
  {
    hide FwUnit;
  }

  ghost predicate FwReady(t: Tools, st: State, order: seq<string>, files: Files)
    requires forall f :: f in order ==> f in files
  {
    && !st.skipping && CollisionFree(t.sha) && Apart(FwUnits(order, files))
    && AllInstallable(t, st.store, FwUnits(order, files)) && FwPathsOk(order, files)
  }

  lemma FwReadyFront(t: Tools, st: State, order: seq<string>, files: Files)
    requires order != [] && (forall f :: f in order ==> f in files) && FwReady(t, st, order, files)
    ensures var front, f := order[..|order| - 1], order[|order| - 1];
            && f in files && (forall f :: f in front ==> f in files)
            && FwReady(t, st, front, files)
            && FwUnits(order, files) == FwUnits(front, files) + [FwUnit(f, files[f])]
            && Apart(FwUnits(front, files) + [FwUnit(f, files[f])])
            && Installable(t, st.store, FwUnit(f, files[f]))
            && AllInstallable(t, st.store, [FwUnit(f, files[f])])
            && (!OnDevice(files[f].dest) ==> !StartsWith(FwUnit(f, files[f]).path, FIRMWARE))
  {
    FwUnitsSnoc(order, files);
    var front, f := order[..|order| - 1], order[|order| - 1];
    FwPathsParts(order, front, f, files);
    hide FwUnits;
    hide FwUnit;
    hide FwPathsOk;
    hide Apart;
    hide Installable;
    ApartParts(FwUnits(front, files), [FwUnit(f, files[f])]);
    assert FwUnit(f, files[f]) in FwUnits(order, files);
  }

  lemma FwPathsParts(order: seq<string>, front: seq<string>, f: string, files: Files)
    requires (forall f :: f in order ==> f in files) && FwPathsOk(order, files) && order == front + [f]
    ensures forall g :: g in front ==> g in files
    ensures FwPathsOk(front, files)
    ensures !OnDevice(files[f].dest) ==> !StartsWith(FwUnit(f, files[f]).path, FIRMWARE)
  {
    hide FwUnit;
    hide OnDevice;
    hide StartsWith;
    assert f in order;
    forall g | g in front ensures g in files && g in order {
    }
  }

  /** One firmware file with the mount it needs. */
  lemma FwFileInstalls(t: Tools, st: State, f: string, e: Entry, last: string, initial: Option<string>)
    returns (r: State)
    requires !st.skipping && CollisionFree(t.sha) && Installable(t, st.store, FwUnit(f, e))
    requires LoopState(last, st.mounted, initial)
    requires !OnDevice(e.dest) ==> !StartsWith(FwUnit(f, e).path, FIRMWARE)
    ensures Run(t, st, MountFor(e.dest, last) + UnitCmds(FwUnit(f, e), t.sha)) == Some(r)
    ensures r == st.(store := r.store, mounted := Mounted(e.dest, st.mounted))
    ensures LoopState(LastFor(e.dest, last), r.mounted, initial)
    ensures Has(r.store, FwUnit(f, e).loc, Goal(t, FwUnit(f, e))) && Untouched(r.store, st.store, [FwUnit(f, e)])
  {
    MountRuns(t, st, e.dest, last, initial);
    var at := st.(mounted := Mounted(e.dest, st.mounted));
    FwIsAddressed(f, e, at.mounted);
    r := UnitInstalls(t, at, FwUnit(f, e));
    RunConcat(t, st, MountFor(e.dest, last), UnitCmds(FwUnit(f, e), t.sha));
  }

  lemma FwFileCutShort(t: Tools, st: State, f: string, e: Entry, last: string, initial: Option<string>, k: nat)
    returns (r: State)
    requires !st.skipping && CollisionFree(t.sha) && Installable(t, st.store, FwUnit(f, e))
    requires LoopState(last, st.mounted, initial)
    requires !OnDevice(e.dest) ==> !StartsWith(FwUnit(f, e).path, FIRMWARE)
    requires k <= |MountFor(e.dest, last) + UnitCmds(FwUnit(f, e), t.sha)|
    ensures Run(t, st, (MountFor(e.dest, last) + UnitCmds(FwUnit(f, e), t.sha))[..k]) == Some(r)
    ensures Agree(r.store, st.store, FwUnit(f, e).loc) || Has(r.store, FwUnit(f, e).loc, Goal(t, FwUnit(f, e)))
    ensures Untouched(r.store, st.store, [FwUnit(f, e)])
  {
    var mount, cmds := MountFor(e.dest, last), UnitCmds(FwUnit(f, e), t.sha);
    PrefixOfConcat(mount, cmds, k);
    if k < |mount| {
      r := MountCutShort(t, st, e.dest, last, k);
    } else {
      assert k == |mount| ==> mount[..k] == mount + cmds[..0];
      MountRuns(t, st, e.dest, last, initial);
      var at := st.(mounted := Mounted(e.dest, st.mounted));
      FwIsAddressed(f, e, at.mounted);
      r := UnitCutShort(t, at, FwUnit(f, e), k - |mount|);
      RunConcat(t, st, mount, cmds[..k - |mount|]);
    }
  }

  lemma {:induction false} FwLoopRuns(t: Tools, st: State, order: seq<string>, files: Files) returns (r: State)
    requires (forall f :: f in order ==> f in files) && FwReady(t, st, order, files)
    ensures var loop := FwInstall(order, files, t.sha);
            && Run(t, st, loop.cmds) == Some(r) && r == st.(store := r.store, mounted := r.mounted)
            && LoopState(loop.last, r.mounted, st.mounted)
    ensures AllNew(t, r.store, FwUnits(order, files)) && Untouched(r.store, st.store, FwUnits(order, files))
  {
    if order == [] {
      r := st;
    } else {
      var front, f := order[..|order| - 1], order[|order| - 1];
      FwReadyFront(t, st, order, files);
      var us, u := FwUnits(front, files), FwUnit(f, files[f]);
      var mid := FwLoopRuns(t, st, front, files);
      var loop := FwInstall(front, files, t.sha);
      StillInstallable(t, st.store, mid.store, us, [u]);
      r := FwFileInstalls(t, mid, f, files[f], loop.last, st.mounted);
      RunConcat(t, st, loop.cmds, MountFor(files[f].dest, loop.last) + UnitCmds(u, t.sha));
      StillNew(t, mid.store, r.store, us, [u]);
      UntouchedTwice(st.store, mid.store, r.store, us, [u]);
    }
  }

  lemma {:induction false} FwLoopCutShort(t: Tools, st: State, order: seq<string>, files: Files, k: nat)
    returns (r: State)
    requires (forall f :: f in order ==> f in files) && FwReady(t, st, order, files)
    requires k <= |FwInstall(order, files, t.sha).cmds|
    ensures Run(t, st, FwInstall(order, files, t.sha).cmds[..k]) == Some(r)
    ensures AllOldOrNew(t, st.store, r.store, FwUnits(order, files))
    ensures Untouched(r.store, st.store, FwUnits(order, files))
  {
    if order == [] {
      r := st;
    } else {
      var front, f := order[..|order| - 1], order[|order| - 1];
      FwReadyFront(t, st, order, files);
      var us, u := FwUnits(front, files), FwUnit(f, files[f]);
      var loop := FwInstall(front, files, t.sha);
      var last := MountFor(files[f].dest, loop.last) + UnitCmds(u, t.sha);
      PrefixOfConcat(loop.cmds, last, k);
      if k <= |loop.cmds| {
        r := FwLoopCutShort(t, st, front, files, k);
        OldOrNewMore(t, st.store, r.store, us, [u]);
      } else {
        r := FwCutInLast(t, st, order, files, k - |loop.cmds|);
      }
    }
  }

  /** Cut short in the commands of the last file. */
  lemma FwCutInLast(t: Tools, st: State, order: seq<string>, files: Files, k: nat) returns (r: State)
    requires (forall f :: f in order ==> f in files) && FwReady(t, st, order, files) && order != []
    requires var loop, f := FwInstall(order[..|order| - 1], files, t.sha), order[|order| - 1];
             k <= |MountFor(files[f].dest, loop.last) + UnitCmds(FwUnit(f, files[f]), t.sha)|
    ensures var loop, f := FwInstall(order[..|order| - 1], files, t.sha), order[|order| - 1];
            var last := MountFor(files[f].dest, loop.last) + UnitCmds(FwUnit(f, files[f]), t.sha);
            Run(t, st, loop.cmds + last[..k]) == Some(r)
    ensures AllOldOrNew(t, st.store, r.store, FwUnits(order, files))
    ensures Untouched(r.store, st.store, FwUnits(order, files))
  {
    var front, f := order[..|order| - 1], order[|order| - 1];
    FwReadyFront(t, st, order, files);
    var us, u := FwUnits(front, files), FwUnit(f, files[f]);
    var loop := FwInstall(front, files, t.sha);
    var last := MountFor(files[f].dest, loop.last) + UnitCmds(u, t.sha);
    var mid := FwLoopRuns(t, st, front, files);
    StillInstallable(t, st.store, mid.store, us, [u]);
    r := FwFileCutShort(t, mid, f, files[f], loop.last, st.mounted, k);
    RunConcat(t, st, loop.cmds, last[..k]);
    NewThenOldOrNew(t, st.store, mid.store, r.store, us, [u]);
  }
}
