/** The whole install script, for every order in which Python may walk its dictionaries. */
module RadioPlan {
  import opened Bytes
  import opened Text
  import opened Edify
  import opened RadioScript
  import opened RadioInstall
  import opened RadioPhases

  /** The images of a plan and the places they go to; the dictionary orders play no part. */
  predicate Planned(p: Plan, u: Unit) {
    var f := u.file;
    match u.role
    case MainCopy => f in p.boot && u == RawUnit(MainCopy, f, p.boot[f], p.boot[f].dest)
    case BackupCopy => f in p.boot && p.boot[f].bak.Some? && u == RawUnit(BackupCopy, f, p.boot[f], p.boot[f].bak.value)
    case BinImage => f in p.bin && u == RawUnit(BinImage, f, p.bin[f], p.bin[f].dest)
    case FwFile => f in p.fw && u == FwUnit(f, p.fw[f])
  }

  /** Partitions and plain destination directories lie outside the mount point. */
  predicate OutsideMount(u: Unit) {
    u.loc.Raw? ==> !StartsWith(u.path, FIRMWARE)
  }

  /** Different images go to different places, and no image goes into a partition that another one overwrites. */
  ghost predicate Separate(p: Plan) {
    forall u, v :: Planned(p, u) && Planned(p, v) && u != v ==> !Clash(u.loc, v.loc)
  }

  ghost predicate Sound(t: Tools, p: Plan, store: Store) {
    && p.Valid() && CollisionFree(t.sha) && Separate(p)
    && forall u :: Planned(p, u) ==> Installable(t, store, u) && OutsideMount(u)
  }

  ghost predicate Distinct(us: seq<Unit>) {
    forall i, j :: 0 <= i < j < |us| ==> us[i] != us[j]
  }

  ghost function BootUnits(p: Plan): seq<Unit>
    requires p.Valid()
  {
    MainUnits(p.bootOrder, p.boot) + BackupUnits(p.bootOrder, p.boot)
  }

  ghost function AllUnits(p: Plan): seq<Unit>
    requires p.Valid()
  {
    BootUnits(p) + BinUnits(p.binOrder, p.bin) + FwUnits(p.fwOrder, p.fw)
  }

  /** Which image goes where, by the entries of the three dictionaries. */
  lemma PlannedPlaces(p: Plan, u: Unit)
    requires Planned(p, u)
    ensures match u.role
            case MainCopy => u.file in p.boot && u.patch == p.boot[u.file].patch && u.loc == Raw(p.boot[u.file].dest)
            case BackupCopy =>
              u.file in p.boot && u.patch == p.boot[u.file].patch && p.boot[u.file].bak.Some?
              && u.loc == Raw(p.boot[u.file].bak.value)
            case BinImage => u.file in p.bin && u.patch == p.bin[u.file].patch && u.loc == Raw(p.bin[u.file].dest)
            case FwFile => u.file in p.fw && u.patch == p.fw[u.file].patch && u == FwUnit(u.file, p.fw[u.file])
  {
    hide PlainName;
    hide FwDir;
  }

  /** Every entry has its image in the plan; a boot entry with a backup destination has a second one. */
  lemma EntriesArePlanned(p: Plan, f: string) returns (main: Unit, bak: Unit, bin: Unit, fw: Unit)
    ensures f in p.boot ==> Planned(p, main) && main.role == MainCopy && main.file == f
    ensures f in p.boot && p.boot[f].bak.Some? ==> Planned(p, bak) && bak.role == BackupCopy && bak.file == f
    ensures f in p.bin ==> Planned(p, bin) && bin.role == BinImage && bin.file == f
    ensures f in p.fw ==> Planned(p, fw) && fw.role == FwFile && fw.file == f
  {
    hide PlainName;
    hide FwDir;
    main := Unit(MainCopy, f, None, Emmc(""), "", Raw(""));
    bak, bin, fw := main, main, main;
    if f in p.boot {
      main := RawUnit(MainCopy, f, p.boot[f], p.boot[f].dest);
      if p.boot[f].bak.Some? {
        bak := RawUnit(BackupCopy, f, p.boot[f], p.boot[f].bak.value);
      }
    }
    if f in p.bin {
      bin := RawUnit(BinImage, f, p.bin[f], p.bin[f].dest);
    }
    if f in p.fw {
      fw := FwUnit(f, p.fw[f]);
    }
  }

  /**
   * A firmware file keeps its name without directory and without `.p` or `.enc`: in `/firmware/image` of a partition
   * below `/dev`, or in the directory that is its destination.
   */
  lemma FwPlace(f: string, e: Entry, dir: string, name: string, wrap: string)
    requires f == dir + "/" + (name + wrap) && '/' !in name
    requires wrap == ".p" || wrap == ".enc" || (wrap == "" && !EndsWith(f, ".p") && !EndsWith(f, ".enc"))
    ensures FwUnit(f, e).loc ==
            if "/dev/" <= e.dest then InPart(e.dest, "/firmware/image/" + name) else Raw(e.dest + "/" + name)
  {
    hide LastSegment;
    hide EndsWith;
    LastSegmentAfter(dir, name + wrap);
    var fn := LastSegment(f);
    assert fn == name + wrap;
    SuffixOfLastSegment(f, ".p");
    SuffixOfLastSegment(f, ".enc");
    EndsInWrap(name, wrap);
    assert fn[..|name|] == name;
  }

  lemma EndsInWrap(name: string, wrap: string)
    ensures wrap == ".p" ==> EndsWith(name + wrap, ".p") && !EndsWith(name + wrap, ".enc")
    ensures wrap == ".enc" ==> EndsWith(name + wrap, ".enc") && !EndsWith(name + wrap, ".p")
  {
    var s := name + wrap;
    if wrap == ".p" {
      assert s[|s| - 1] == 'p';
    }
    if wrap == ".enc" {
      assert s[|s| - 1] == 'c';
    }
  }

  lemma OrdersAreKeys(p: Plan)
    requires p.Valid()
    ensures forall f :: f in p.bootOrder ==> f in p.boot
    ensures forall f :: f in p.binOrder ==> f in p.bin
    ensures forall f :: f in p.fwOrder ==> f in p.fw
  {
  }

  // ----- the units of a plan

  lemma {:induction false} BackupMembers(order: seq<string>, files: Files, u: Unit)
    requires forall f :: f in order ==> f in files
    ensures u in BackupUnits(order, files) <==>
            u.file in order && files[u.file].bak.Some?
            && u == RawUnit(BackupCopy, u.file, files[u.file], files[u.file].bak.value)
  {
    if order != [] {
      var front, f := order[..|order| - 1], order[|order| - 1];
      BackupMembers(front, files, u);
      assert order == front + [f];
    }
  }

  lemma {:induction false} BackupsDistinct(order: seq<string>, files: Files)
    requires forall f :: f in order ==> f in files
    requires forall i, j :: 0 <= i < j < |order| ==> order[i] != order[j]
    ensures Distinct(BackupUnits(order, files))
  {
    if order != [] {
      var front, f := order[..|order| - 1], order[|order| - 1];
      BackupsDistinct(front, files);
      forall u | u in BackupUnits(front, files) ensures u.file != f {
        BackupMembers(front, files, u);
      }
    }
  }

  lemma MembersOf(p: Plan, u: Unit)
    requires p.Valid()
    ensures u in MainUnits(p.bootOrder, p.boot) <==> u.role == MainCopy && Planned(p, u)
    ensures u in BackupUnits(p.bootOrder, p.boot) <==> u.role == BackupCopy && Planned(p, u)
    ensures u in BinUnits(p.binOrder, p.bin) <==> u.role == BinImage && Planned(p, u)
    ensures u in FwUnits(p.fwOrder, p.fw) <==> u.role == FwFile && Planned(p, u)
  {
    BackupMembers(p.bootOrder, p.boot, u);
    hide PlainName;
    hide FwDir;
    hide BackupUnits;
    if u.role == MainCopy && Planned(p, u) {
      var i :| 0 <= i < |p.bootOrder| && p.bootOrder[i] == u.file;
      assert MainUnits(p.bootOrder, p.boot)[i] == u;
    }
    if u.role == BinImage && Planned(p, u) {
      var i :| 0 <= i < |p.binOrder| && p.binOrder[i] == u.file;
      assert BinUnits(p.binOrder, p.bin)[i] == u;
    }
    if u.role == FwFile && Planned(p, u) {
      var i :| 0 <= i < |p.fwOrder| && p.fwOrder[i] == u.file;
      assert FwUnits(p.fwOrder, p.fw)[i] == u;
    }
  }

  lemma DistinctConcat(us: seq<Unit>, vs: seq<Unit>)
    requires Distinct(us) && Distinct(vs) && forall u, v :: u in us && v in vs ==> u != v
    ensures Distinct(us + vs)
  {
    forall i, j | 0 <= i < j < |us + vs| ensures (us + vs)[i] != (us + vs)[j] {
      if i < |us| && j >= |us| {
        assert us[i] in us && vs[j - |us|] in vs;
      }
    }
  }

  lemma AllUnitsArePlanned(p: Plan)
    requires p.Valid()
    ensures Distinct(AllUnits(p))
    ensures forall u :: u in AllUnits(p) <==> Planned(p, u)
  {
    var a, b := MainUnits(p.bootOrder, p.boot), BackupUnits(p.bootOrder, p.boot);
    var c, d := BinUnits(p.binOrder, p.bin), FwUnits(p.fwOrder, p.fw);
    BackupsDistinct(p.bootOrder, p.boot);
    assert Distinct(a) && Distinct(c) && Distinct(d);
    forall u
      ensures u in a <==> u.role == MainCopy && Planned(p, u)
      ensures u in b <==> u.role == BackupCopy && Planned(p, u)
      ensures u in c <==> u.role == BinImage && Planned(p, u)
      ensures u in d <==> u.role == FwFile && Planned(p, u)
    {
      MembersOf(p, u);
    }
    hide MainUnits;
    hide BackupUnits;
    hide BinUnits;
    hide FwUnits;
    hide Planned;
    hide Distinct;
    DistinctConcat(a, b);
    DistinctConcat(a + b, c);
    DistinctConcat(a + b + c, d);
  }

  /** What the phases need follows from what is asked of the plan. */
  lemma PhasesAreReady(t: Tools, p: Plan, st: State)
    requires Sound(t, p, st.store) && !st.skipping
    ensures Apart(AllUnits(p)) && AllInstallable(t, st.store, AllUnits(p))
    ensures BootReady(t, st, MainUnits(p.bootOrder, p.boot), BackupUnits(p.bootOrder, p.boot))
    ensures MountFree(BinUnits(p.binOrder, p.bin)) && FwPathsOk(p.fwOrder, p.fw)
  {
    var a, b := MainUnits(p.bootOrder, p.boot), BackupUnits(p.bootOrder, p.boot);
    var c, d := BinUnits(p.binOrder, p.bin), FwUnits(p.fwOrder, p.fw);
    AllUnitsArePlanned(p);
    assert Apart(AllUnits(p));
    ApartParts(a + b + c, d);
    ApartParts(a + b, c);
    RawUnitsAreMountFree(p);
    forall f | f in p.fwOrder && !OnDevice(p.fw[f].dest) ensures !StartsWith(FwUnit(f, p.fw[f]).path, FIRMWARE) {
      assert Planned(p, FwUnit(f, p.fw[f]));
    }
    forall u | u in a + b ensures u in AllUnits(p) {
    }
  }

  lemma RawUnitsAreMountFree(p: Plan)
    requires p.Valid() && forall u :: Planned(p, u) ==> OutsideMount(u)
    ensures MountFree(MainUnits(p.bootOrder, p.boot)) && OfStage(MainUnits(p.bootOrder, p.boot), Main)
    ensures MountFree(BackupUnits(p.bootOrder, p.boot)) && OfStage(BackupUnits(p.bootOrder, p.boot), Backup)
    ensures MountFree(BinUnits(p.binOrder, p.bin))
  {
    forall u {
      MembersOf(p, u);
    }
    hide MainUnits;
    hide BackupUnits;
    hide BinUnits;
    hide FwUnits;
    hide StartsWith;
  }

  // ----- the whole script

  ghost predicate MountsSomething(p: Plan) {
    exists f :: f in p.fw && OnDevice(p.fw[f].dest)
  }

  lemma {:induction false} LastMounted(order: seq<string>, files: Files, sha: Blob -> string)
    requires forall f :: f in order ==> f in files
    ensures FwInstall(order, files, sha).last != "" <==> exists f :: f in order && OnDevice(files[f].dest)
  {
    if order != [] {
      var front, f := order[..|order| - 1], order[|order| - 1];
      assert order == front + [f];
      LastMounted(front, files, sha);
      if OnDevice(files[f].dest) {
        assert f in order;
        assert files[f].dest != "";
      } else if exists g :: g in front && OnDevice(files[g].dest) {
        var g :| g in front && OnDevice(files[g].dest);
        assert g in order;
      }
    }
  }

  function BootPart(p: Plan, sha: Blob -> string): seq<Cmd>
    requires forall f :: f in p.bootOrder ==> f in p.boot
  {
    if p.boot != map[] then BootScript(p.bootOrder, p.boot, sha) else []
  }

  function BinPart(p: Plan, sha: Blob -> string): seq<Cmd>
    requires forall f :: f in p.binOrder ==> f in p.bin
  {
    if p.bin != map[] then UnitsCmds(BinUnits(p.binOrder, p.bin), sha) else []
  }

  function FwPart(p: Plan, sha: Blob -> string): seq<Cmd>
    requires forall f :: f in p.fwOrder ==> f in p.fw
  {
    if p.fw != map[] then FwScript(p.fwOrder, p.fw, sha) else []
  }

  lemma NothingOrdered(order: seq<string>, files: Files)
    requires Enumerates(order, files)
    ensures files == map[] <==> order == []
  {
    if order != [] {
      assert order[0] in files;
    } else {
      assert forall f :: f in files ==> f in order;
      assert files.Keys == {};
    }
  }

  lemma BootPartRuns(t: Tools, p: Plan, st: State) returns (r: State)
    requires Sound(t, p, st.store) && !st.skipping
    ensures AllSound(t, BootUnits(p)) && Run(t, st, BootPart(p, t.sha)) == Some(r)
    ensures r == st.(store := r.store, stages := r.stages)
    ensures r.stages == st.stages + if p.boot != map[] then [Main, Backup, Finalize] else []
    ensures Reached(t, st.store, r.store, BootUnits(p)) && Untouched(r.store, st.store, BootUnits(p))
  {
    PhasesAreReady(t, p, st);
    NothingOrdered(p.bootOrder, p.boot);
    var mains, baks := MainUnits(p.bootOrder, p.boot), BackupUnits(p.bootOrder, p.boot);
    var mid, late, end := BootRuns(t, st, mains, baks);
    if p.boot != map[] {
      assert BootScript(p.bootOrder, p.boot, t.sha) == BootCmds(mains, baks, t.sha);
      r := end;
    } else {
      assert mains == [] && baks == [];
      r := st;
      assert st.stages + [] == st.stages;
    }
  }

  lemma BinPartRuns(t: Tools, p: Plan, st: State) returns (r: State)
    requires p.Valid() && CollisionFree(t.sha) && !st.skipping
    requires AllInstallable(t, st.store, BinUnits(p.binOrder, p.bin))
    requires MountFree(BinUnits(p.binOrder, p.bin)) && Apart(BinUnits(p.binOrder, p.bin))
    ensures Run(t, st, BinPart(p, t.sha)) == Some(r) && r == st.(store := r.store)
    ensures AllNew(t, r.store, BinUnits(p.binOrder, p.bin))
    ensures Untouched(r.store, st.store, BinUnits(p.binOrder, p.bin))
  {
    NothingOrdered(p.binOrder, p.bin);
    r := UnitsInstall(t, st, BinUnits(p.binOrder, p.bin));
  }

  lemma FwPartRuns(t: Tools, p: Plan, st: State) returns (r: State)
    requires p.Valid() && FwReady(t, st, p.fwOrder, p.fw)
    ensures Run(t, st, FwPart(p, t.sha)) == Some(r) && r == st.(store := r.store, mounted := r.mounted)
    ensures r.mounted == if MountsSomething(p) then None else st.mounted
    ensures AllNew(t, r.store, FwUnits(p.fwOrder, p.fw))
    ensures Untouched(r.store, st.store, FwUnits(p.fwOrder, p.fw))
  {
    hide FwInstall;
    hide AllNew;
    hide Untouched;
    hide AllInstallable;
    hide Apart;
    hide FwUnits;
    hide FwPathsOk;
    hide PatchesMatchNames;
    hide CollisionFree;
    hide OnDevice;
    NothingOrdered(p.fwOrder, p.fw);
    LastMounted(p.fwOrder, p.fw, t.sha);
    EmptyFw(t, st.store, p);
    var loop := FwInstall(p.fwOrder, p.fw, t.sha);
    var end := FwLoopRuns(t, st, p.fwOrder, p.fw);
    assert (exists f :: f in p.fwOrder && OnDevice(p.fw[f].dest)) <==> MountsSomething(p);
    if loop.last != "" {
      RunOne(t, end, Unmount);
      RunConcat(t, st, loop.cmds, [Unmount]);
      r := end.(mounted := None);
    } else {
      assert loop.cmds + [] == loop.cmds;
      r := end;
    }
  }

  lemma EmptyFw(t: Tools, store: Store, p: Plan)
    requires p.Valid()
    ensures p.fwOrder == [] ==> FwInstall(p.fwOrder, p.fw, t.sha).cmds == []
  {
  }

  lemma GoesEverywhere(t: Tools, us: seq<Unit>, a: Store, b: Store)
    requires AllSound(t, us) && AllNew(t, b, us) && forall u :: u in us ==> Goes(t, u)
    ensures Reached(t, a, b, us)
  {
  }

  lemma AlwaysGoing(t: Tools, p: Plan)
    requires p.Valid()
    ensures forall u :: u in BinUnits(p.binOrder, p.bin) ==> Goes(t, u)
    ensures forall u :: u in FwUnits(p.fwOrder, p.fw) ==> Goes(t, u)
  {
    hide PlainName;
    hide FwDir;
  }

  /** The states between the phases. */
  lemma PhasesRun(t: Tools, p: Plan, st: State) returns (s1: State, s2: State, r: State)
    requires Sound(t, p, st.store) && !st.skipping
    ensures AllSound(t, AllUnits(p)) && AllSound(t, BootUnits(p))
    ensures AllSound(t, BootUnits(p) + BinUnits(p.binOrder, p.bin))
    ensures Run(t, st, BootPart(p, t.sha)) == Some(s1) && !s1.skipping
    ensures Reached(t, st.store, s1.store, BootUnits(p)) && Untouched(s1.store, st.store, BootUnits(p))
    ensures Run(t, st, BootPart(p, t.sha) + BinPart(p, t.sha)) == Some(s2) && !s2.skipping
    ensures var us := BootUnits(p) + BinUnits(p.binOrder, p.bin);
            Reached(t, st.store, s2.store, us) && Untouched(s2.store, st.store, us)
    ensures Run(t, st, InstallScript(p, t.sha)) == Some(r) && !r.skipping
    ensures r.mounted == if MountsSomething(p) then None else st.mounted
    ensures r.stages == st.stages + if p.boot != map[] then [Main, Backup, Finalize] else []
    ensures Reached(t, st.store, r.store, AllUnits(p)) && Untouched(r.store, st.store, AllUnits(p))
  {
    PhasesAreReady(t, p, st);
    AlwaysGoing(t, p);
    var boot, bin, fw := BootUnits(p), BinUnits(p.binOrder, p.bin), FwUnits(p.fwOrder, p.fw);
    SplitInstallable(t, st.store, boot, bin, fw);
    ApartParts(boot + bin, fw);
    ApartParts(boot, bin);
    s1 := BootPartRuns(t, p, st);
    StillInstallable(t, st.store, s1.store, boot, bin);
    s2 := BinPartRuns(t, p, s1);
    GoesEverywhere(t, bin, s1.store, s2.store);
    ReachedBoth(t, st.store, s1.store, s2.store, boot, bin);
    StillInstallable(t, st.store, s2.store, boot + bin, fw);
    r := FwPartRuns(t, p, s2);
    GoesEverywhere(t, fw, s2.store, r.store);
    ReachedBoth(t, st.store, s2.store, r.store, boot + bin, fw);
    RunConcat(t, st, BootPart(p, t.sha), BinPart(p, t.sha));
    RunConcat(t, st, BootPart(p, t.sha) + BinPart(p, t.sha), FwPart(p, t.sha));
  }

  lemma SplitInstallable(t: Tools, store: Store, a: seq<Unit>, b: seq<Unit>, c: seq<Unit>)
    requires AllInstallable(t, store, a + b + c)
    ensures AllInstallable(t, store, a) && AllInstallable(t, store, b) && AllInstallable(t, store, c)
    ensures AllSound(t, a) && AllSound(t, b) && AllSound(t, c) && AllSound(t, a + b) && AllSound(t, a + b + c)
  {
    forall u | u in a || u in b || u in c ensures Installable(t, store, u) {
      assert u in a + b + c;
    }
  }

  /**
   * From a device whose patched places hold the source (or already the target), the install script runs to its
   * end, puts every image in place, calls the boot stages in order, leaves nothing mounted if it mounted
   * anything, and touches nothing else. A boot image whose stage does not proceed stays as it was.
   */
  lemma InstallReachesTargets(t: Tools, p: Plan, st: State) returns (r: State)
    requires Sound(t, p, st.store) && !st.skipping
    ensures Run(t, st, InstallScript(p, t.sha)) == Some(r)
    ensures forall u :: Planned(p, u) ==>
              if Goes(t, u) then Has(r.store, u.loc, Goal(t, u)) else Agree(r.store, st.store, u.loc)
    ensures forall l :: TmpFree(l) && (forall u :: Planned(p, u) ==> !Clash(l, u.loc)) ==> Agree(r.store, st.store, l)
    ensures r.mounted == if MountsSomething(p) then None else st.mounted
    ensures r.stages == st.stages + if p.boot != map[] then [Main, Backup, Finalize] else []
  {
    var s1, s2;
    s1, s2, r := PhasesRun(t, p, st);
    AllUnitsArePlanned(p);
    var us := AllUnits(p);
    hide AllUnits;
    hide Planned;
    assert forall l :: TmpFree(l) && (forall u :: Planned(p, u) ==> !Clash(l, u.loc)) ==> Elsewhere(l, us);
  }

  // ----- interruption

  lemma FwPartCutShort(t: Tools, p: Plan, st: State, k: nat) returns (r: State)
    requires p.Valid() && FwReady(t, st, p.fwOrder, p.fw) && k <= |FwPart(p, t.sha)|
    ensures Run(t, st, FwPart(p, t.sha)[..k]) == Some(r)
    ensures AllSound(t, FwUnits(p.fwOrder, p.fw))
    ensures AllOldOrNew(t, st.store, r.store, FwUnits(p.fwOrder, p.fw))
    ensures Untouched(r.store, st.store, FwUnits(p.fwOrder, p.fw))
  {
    hide *;
    OrdersAreKeys(p);
    FwReadyIsSound(t, st, p);
    FwPartPrefix(p, t.sha, k);
    if p.fw == map[] {
      r := st;
      NothingYet(t, st, FwUnits(p.fwOrder, p.fw));
    } else if k <= |FwInstall(p.fwOrder, p.fw, t.sha).cmds| {
      r := FwLoopCutShort(t, st, p.fwOrder, p.fw, k);
    } else {
      r := FwPartRuns(t, p, st);
      NewIsOldOrNew(t, st.store, r.store, FwUnits(p.fwOrder, p.fw));
    }
  }

  lemma FwReadyIsSound(t: Tools, st: State, p: Plan)
    requires p.Valid() && FwReady(t, st, p.fwOrder, p.fw)
    ensures AllSound(t, FwUnits(p.fwOrder, p.fw))
    ensures forall u :: u in FwUnits(p.fwOrder, p.fw) ==> Shipped(t, u)
  {
    SoundParts(t, st.store, FwUnits(p.fwOrder, p.fw));
    hide FwUnits;
    hide Shipped;
  }

  lemma NewIsOldOrNew(t: Tools, a: Store, b: Store, us: seq<Unit>)
    requires (forall u :: u in us ==> Shipped(t, u)) && AllNew(t, b, us)
    ensures AllOldOrNew(t, a, b, us)
  {
  }

  lemma FwPartPrefix(p: Plan, sha: Blob -> string, k: nat)
    requires p.Valid() && k <= |FwPart(p, sha)|
    ensures var cmds := FwInstall(p.fwOrder, p.fw, sha).cmds;
            FwPart(p, sha)[..k] ==
            if p.fw == map[] then [] else if k <= |cmds| then cmds[..k] else FwPart(p, sha)
  {
    hide FwInstall;
  }

  lemma BootPartCutShort(t: Tools, p: Plan, st: State, k: nat) returns (r: State)
    requires Sound(t, p, st.store) && !st.skipping && k <= |BootPart(p, t.sha)|
    ensures AllSound(t, BootUnits(p)) && AllSound(t, MainUnits(p.bootOrder, p.boot))
    ensures Run(t, st, BootPart(p, t.sha)[..k]) == Some(r)
    ensures AllOldOrNew(t, st.store, r.store, BootUnits(p)) && Untouched(r.store, st.store, BootUnits(p))
    ensures Same(st.store, r.store, BackupUnits(p.bootOrder, p.boot))
            || Reached(t, st.store, r.store, MainUnits(p.bootOrder, p.boot))
  {
    PhasesAreReady(t, p, st);
    NothingOrdered(p.bootOrder, p.boot);
    var mains, baks := MainUnits(p.bootOrder, p.boot), BackupUnits(p.bootOrder, p.boot);
    var mid, late, end := BootRuns(t, st, mains, baks);
    if p.boot != map[] {
      assert BootScript(p.bootOrder, p.boot, t.sha) == BootCmds(mains, baks, t.sha);
      r := BootCutShort(t, st, mains, baks, k);
    } else {
      r := st;
      assert BootPart(p, t.sha)[..k] == [];
    }
  }

  /** Every place of the plan is as before or as it should be, and one copy of the boot images is whole. */
  ghost predicate SafeState(t: Tools, p: Plan, before: Store, now: Store)
    requires p.Valid() && AllSound(t, AllUnits(p)) && AllSound(t, MainUnits(p.bootOrder, p.boot))
  {
    && AllOldOrNew(t, before, now, AllUnits(p))
    && (|| Same(before, now, BackupUnits(p.bootOrder, p.boot))
        || Reached(t, before, now, MainUnits(p.bootOrder, p.boot)))
  }

  lemma StillSafe(t: Tools, p: Plan, a: Store, b: Store, c: Store, vs: seq<Unit>)
    requires p.Valid() && AllSound(t, BootUnits(p)) && Apart(BootUnits(p) + vs)
    requires Reached(t, a, b, BootUnits(p)) && Untouched(c, b, vs)
    ensures AllSound(t, MainUnits(p.bootOrder, p.boot)) && Reached(t, a, c, MainUnits(p.bootOrder, p.boot))
  {
    StillReached(t, a, b, c, BootUnits(p), vs);
    var mains, baks := MainUnits(p.bootOrder, p.boot), BackupUnits(p.bootOrder, p.boot);
    forall u | u in mains ensures u in mains + baks {
    }
    ReachedPart(t, a, c, mains, baks);
  }

  lemma SplitSound(t: Tools, p: Plan)
    requires p.Valid() && AllSound(t, AllUnits(p))
    ensures AllSound(t, BootUnits(p)) && AllSound(t, MainUnits(p.bootOrder, p.boot))
  {
    forall u | u in BootUnits(p) || u in MainUnits(p.bootOrder, p.boot) ensures u in AllUnits(p) {
    }
  }

  /** Cut short in the firmware phase. */
  lemma CutInFw(t: Tools, p: Plan, st: State, k: nat) returns (r: State)
    requires Sound(t, p, st.store) && !st.skipping && k <= |FwPart(p, t.sha)|
    ensures AllSound(t, AllUnits(p)) && AllSound(t, MainUnits(p.bootOrder, p.boot))
    ensures Run(t, st, BootPart(p, t.sha) + BinPart(p, t.sha) + FwPart(p, t.sha)[..k]) == Some(r)
    ensures SafeState(t, p, st.store, r.store)
  {
    PhasesAreReady(t, p, st);
    var boot, bin, fw := BootUnits(p), BinUnits(p.binOrder, p.bin), FwUnits(p.fwOrder, p.fw);
    SplitInstallable(t, st.store, boot, bin, fw);
    ApartParts(boot + bin, fw);
    var s1, s2, end := PhasesRun(t, p, st);
    SplitSound(t, p);
    StillInstallable(t, st.store, s2.store, boot + bin, fw);
    r := FwPartCutShort(t, p, s2, k);
    RunConcat(t, st, BootPart(p, t.sha) + BinPart(p, t.sha), FwPart(p, t.sha)[..k]);
    ReachedIsOldOrNew(t, st.store, s2.store, boot + bin);
    NewThenOldOrNew(t, st.store, s2.store, r.store, boot + bin, fw);
    StillReached(t, st.store, s2.store, r.store, boot + bin, fw);
    ReachedPart(t, st.store, r.store, boot, bin);
    ReachedPart(t, st.store, r.store, MainUnits(p.bootOrder, p.boot), BackupUnits(p.bootOrder, p.boot));
  }

  lemma CutInBin(t: Tools, p: Plan, st: State, k: nat) returns (r: State)
    requires Sound(t, p, st.store) && !st.skipping && k <= |BinPart(p, t.sha)|
    ensures AllSound(t, AllUnits(p)) && AllSound(t, MainUnits(p.bootOrder, p.boot))
    ensures Run(t, st, BootPart(p, t.sha) + BinPart(p, t.sha)[..k]) == Some(r)
    ensures SafeState(t, p, st.store, r.store)
  {
    PhasesAreReady(t, p, st);
    var boot, bin, fw := BootUnits(p), BinUnits(p.binOrder, p.bin), FwUnits(p.fwOrder, p.fw);
    SplitInstallable(t, st.store, boot, bin, fw);
    ApartParts(boot + bin, fw);
    ApartParts(boot, bin);
    var s1, s2, end := PhasesRun(t, p, st);
    SplitSound(t, p);
    StillInstallable(t, st.store, s1.store, boot, bin);
    NothingOrdered(p.binOrder, p.bin);
    r := UnitsCutShort(t, s1, bin, k);
    RunConcat(t, st, BootPart(p, t.sha), BinPart(p, t.sha)[..k]);
    ReachedIsOldOrNew(t, st.store, s1.store, boot);
    NewThenOldOrNew(t, st.store, s1.store, r.store, boot, bin);
    OldOrNewMore(t, st.store, r.store, boot + bin, fw);
    StillSafe(t, p, st.store, s1.store, r.store, bin);
  }

  lemma CutInBoot(t: Tools, p: Plan, st: State, k: nat) returns (r: State)
    requires Sound(t, p, st.store) && !st.skipping && k <= |BootPart(p, t.sha)|
    ensures AllSound(t, AllUnits(p)) && AllSound(t, MainUnits(p.bootOrder, p.boot))
    ensures Run(t, st, BootPart(p, t.sha)[..k]) == Some(r)
    ensures SafeState(t, p, st.store, r.store)
  {
    PhasesAreReady(t, p, st);
    var boot, bin, fw := BootUnits(p), BinUnits(p.binOrder, p.bin), FwUnits(p.fwOrder, p.fw);
    SplitInstallable(t, st.store, boot, bin, fw);
    r := BootPartCutShort(t, p, st, k);
    OldOrNewOfRest(t, p, st.store, r.store);
    hide AllUnits;
    hide BootUnits;
    hide Shipped;
  }

  lemma OldOrNewOfRest(t: Tools, p: Plan, a: Store, b: Store)
    requires p.Valid() && AllSound(t, AllUnits(p)) && AllSound(t, BootUnits(p)) && Apart(AllUnits(p))
    requires AllOldOrNew(t, a, b, BootUnits(p)) && Untouched(b, a, BootUnits(p))
    ensures AllOldOrNew(t, a, b, AllUnits(p))
  {
    hide *;
    OrdersAreKeys(p);
    UnitsAreBootAndRest(p);
    SoundMeans(t, AllUnits(p));
    OldOrNewMore(t, a, b, BootUnits(p), BinUnits(p.binOrder, p.bin) + FwUnits(p.fwOrder, p.fw));
  }

  lemma UnitsAreBootAndRest(p: Plan)
    requires p.Valid()
    ensures AllUnits(p) == BootUnits(p) + (BinUnits(p.binOrder, p.bin) + FwUnits(p.fwOrder, p.fw))
  {
    hide BootUnits;
    hide BinUnits;
    hide FwUnits;
  }

  lemma SoundIsValid(t: Tools, p: Plan, store: Store)
    requires Sound(t, p, store)
    ensures p.Valid()
  {
  }

  lemma ScriptIsParts(p: Plan, sha: Blob -> string)
    requires p.Valid()
    ensures InstallScript(p, sha) == BootPart(p, sha) + BinPart(p, sha) + FwPart(p, sha)
  {
    hide BootScript;
    hide FwScript;
    hide UnitsCmds;
  }

  /**
   * Power loss: after any number of commands every place holds its old or its new content, and the boot images
   * have one whole copy: no backup has been touched, or all main partitions are final.
   */
  lemma InstallCutShort(t: Tools, p: Plan, st: State, k: nat) returns (r: State)
    requires Sound(t, p, st.store) && !st.skipping && k <= |InstallScript(p, t.sha)|
    ensures AllSound(t, AllUnits(p)) && AllSound(t, MainUnits(p.bootOrder, p.boot))
    ensures Run(t, st, InstallScript(p, t.sha)[..k]) == Some(r)
    ensures SafeState(t, p, st.store, r.store)
  {
    hide *;
    SoundIsValid(t, p, st.store);
    OrdersAreKeys(p);
    ScriptIsParts(p, t.sha);
    var a, b, c := BootPart(p, t.sha), BinPart(p, t.sha), FwPart(p, t.sha);
    PrefixOfConcat(a + b, c, k);
    if k <= |a + b| {
      PrefixOfConcat(a, b, k);
      if k <= |a| {
        r := CutInBoot(t, p, st, k);
      } else {
        r := CutInBin(t, p, st, k - |a|);
      }
    } else {
      r := CutInFw(t, p, st, k - |a + b|);
    }
  }

  /** The same package on the same device, where boot_update and the free cache may answer otherwise. */
  ghost predicate SamePackage(t: Tools, t2: Tools) {
    t2 == t.(proceeds := t2.proceeds, cacheFree := t2.cacheFree)
  }

  lemma SamePackageMeans(t: Tools, t2: Tools, u: Unit)
    requires SamePackage(t, t2)
    ensures t2.sha == t.sha && (Shipped(t2, u) <==> Shipped(t, u)) && (Shipped(t, u) ==> Goal(t2, u) == Goal(t, u))
  {
  }

  /** Old and new content alike can be installed over. */
  lemma OldOrNewIsSound(t: Tools, t2: Tools, p: Plan, before: Store, now: Store)
    requires Sound(t, p, before) && SamePackage(t, t2) && AllSound(t, AllUnits(p))
    requires AllOldOrNew(t, before, now, AllUnits(p))
    ensures Sound(t2, p, now)
  {
    AllUnitsArePlanned(p);
    hide AllUnits;
    hide Planned;
    hide Separate;
    hide CollisionFree;
    forall u | Planned(p, u) ensures Installable(t2, now, u) {
      assert Installable(t, before, u);
      SamePackageMeans(t, t2, u);
      assert Agree(now, before, u.loc) || Has(now, u.loc, Goal(t, u));
    }
  }

  /** After power loss at any point, running the install script from the start still reaches every target. */
  lemma InstallCanRestart(t: Tools, t2: Tools, p: Plan, st: State, k: nat, again: State)
    returns (cut: State, r: State)
    requires Sound(t, p, st.store) && !st.skipping && k <= |InstallScript(p, t.sha)| && SamePackage(t, t2)
    requires Run(t, st, InstallScript(p, t.sha)[..k]).Some? && !again.skipping
    requires again.store == Run(t, st, InstallScript(p, t.sha)[..k]).value.store
    ensures Sound(t2, p, again.store)
    ensures Run(t2, again, InstallScript(p, t.sha)) == Some(r)
    ensures forall u :: Planned(p, u) ==>
              if Goes(t2, u) then Has(r.store, u.loc, Goal(t2, u)) else Agree(r.store, again.store, u.loc)
  {
    cut := InstallCutShort(t, p, st, k);
    OldOrNewIsSound(t, t2, p, st.store, again.store);
    hide Sound;
    hide InstallScript;
    hide Run;
    r := InstallReachesTargets(t2, p, again);
  }
}
