/** The script generators of releasetools.py: verification and installation of boot, bin and firmware images. */
module RadioScript {
  import opened Bytes
  import opened Text
  import opened Edify

  /** A file shipped as a patch knows its target and its source content. */
  datatype Patch = Patch(target: Blob, source: Blob)

  /** The tuple (dest, destBak, tf, sf) of the update list. */
  datatype Entry = Entry(dest: string, bak: Option<string>, patch: Option<Patch>)

  type Files = map<string, Entry>

  /** How Python walks a dictionary: every key once, in any order. */
  ghost predicate Enumerates(order: seq<string>, files: Files) {
    && (forall i, j :: 0 <= i < j < |order| ==> order[i] != order[j])
    && (forall f :: f in order <==> f in files)
  }

  predicate IsPatch(f: string) { EndsWith(f, ".p") }
  predicate IsEncrypted(f: string) { EndsWith(f, ".enc") }

  /** Exactly the files named `.p` carry a patch; without this the generator raises an exception. */
  predicate PatchesMatchNames(files: Files) {
    forall f :: f in files ==> (IsPatch(f) <==> files[f].patch.Some?)
  }

  // ----- units: one image going to one place

  datatype Role = MainCopy | BackupCopy | BinImage | FwFile

  /** `path` is where the image ends up; `at` is how apply_patch addresses that place. */
  datatype Unit = Unit(role: Role, file: string, patch: Option<Patch>, at: Target, path: string, loc: Loc)

  function RawUnit(role: Role, f: string, e: Entry, dest: string): Unit {
    Unit(role, f, e.patch, Emmc(dest), dest, Raw(dest))
  }

  predicate OnDevice(dest: string) {
    StartsWith(dest, "/dev/")
  }

  /** The file name that is installed: the last path segment without `.p` or `.enc`. */
  function PlainName(f: string): string {
    var fn := LastSegment(f);
    SuffixOfLastSegment(f, ".p");
    SuffixOfLastSegment(f, ".enc");
    if IsPatch(f) then fn[..|fn| - 2] else if IsEncrypted(f) then fn[..|fn| - 4] else fn
  }

  function FwDir(dest: string): string {
    if OnDevice(dest) then "/firmware/image/" else dest + "/"
  }

  function FwUnit(f: string, e: Entry): Unit {
    var path := FwDir(e.dest) + PlainName(f);
    Unit(FwFile, f, e.patch, Path(path), path, if OnDevice(e.dest) then InPart(e.dest, path) else Raw(path))
  }

  function TmpOf(f: string): string {
    TMP + LastSegment(f)
  }

  /** The commands that install one unit. */
  function UnitCmds(u: Unit, sha: Blob -> string): seq<Cmd> {
    if u.patch.Some? then [ApplyPatch(u.at, sha(u.patch.value.target), sha(u.patch.value.source), u.file)]
    else if IsEncrypted(u.file) then [Extract(u.file, TmpOf(u.file)), Decrypt(TmpOf(u.file), u.path)]
    else [Extract(u.file, u.path)]
  }

  /** A patch is one command, an encrypted image goes through `/tmp` under its own name, any other is extracted. */
  lemma UnitCommands(u: Unit, dir: string, name: string, sha: Blob -> string)
    requires u.file == dir + "/" + name && '/' !in name
    ensures UnitCmds(u, sha) ==
            match u.patch
            case Some(patch) => [ApplyPatch(u.at, sha(patch.target), sha(patch.source), u.file)]
            case None =>
              if EndsWith(u.file, ".enc") then [Extract(u.file, "/tmp/" + name), Decrypt("/tmp/" + name, u.path)]
              else [Extract(u.file, u.path)]
  {
    hide EndsWith;
    LastSegmentAfter(dir, name);
    hide LastSegment;
  }

  function UnitsCmds(us: seq<Unit>, sha: Blob -> string): seq<Cmd> {
    if us == [] then [] else UnitsCmds(us[..|us| - 1], sha) + UnitCmds(us[|us| - 1], sha)
  }

  function CheckCmds(u: Unit, sha: Blob -> string): seq<Cmd> {
    if u.patch.Some? then [PatchCheck(u.at, sha(u.patch.value.target), sha(u.patch.value.source))] else []
  }

  function ChecksCmds(us: seq<Unit>, sha: Blob -> string): seq<Cmd> {
    if us == [] then [] else ChecksCmds(us[..|us| - 1], sha) + CheckCmds(us[|us| - 1], sha)
  }

  function MainUnits(order: seq<string>, files: Files): seq<Unit>
    requires forall f :: f in order ==> f in files
  {
    seq(|order|, i requires 0 <= i < |order| => RawUnit(MainCopy, order[i], files[order[i]], files[order[i]].dest))
  }

  function BinUnits(order: seq<string>, files: Files): seq<Unit>
    requires forall f :: f in order ==> f in files
  {
    seq(|order|, i requires 0 <= i < |order| => RawUnit(BinImage, order[i], files[order[i]], files[order[i]].dest))
  }

  function FwUnits(order: seq<string>, files: Files): seq<Unit>
    requires forall f :: f in order ==> f in files
  {
    seq(|order|, i requires 0 <= i < |order| => FwUnit(order[i], files[order[i]]))
  }

  /** The units of one file for its backup partition, if it has one. */
  function BackupOf(f: string, e: Entry): seq<Unit> {
    if e.bak.Some? then [RawUnit(BackupCopy, f, e, e.bak.value)] else []
  }

  function BackupUnits(order: seq<string>, files: Files): seq<Unit>
    requires forall f :: f in order ==> f in files
  {
    if order == [] then []
    else
      var f := order[|order| - 1];
      BackupUnits(order[..|order| - 1], files) + BackupOf(f, files[f])
  }

  /** The checks of the boot images: main and backup of one file follow each other. */
  function BootCheckUnits(order: seq<string>, files: Files): seq<Unit>
    requires forall f :: f in order ==> f in files
  {
    if order == [] then []
    else
      var f := order[|order| - 1];
      BootCheckUnits(order[..|order| - 1], files)
      + [RawUnit(MainCopy, f, files[f], files[f].dest)] + BackupOf(f, files[f])
  }

  /** The firmware loops: commands so far, and the partition mounted last ("" for none). */
  datatype FwLoop = FwLoop(cmds: seq<Cmd>, last: string)

  function MountFor(dest: string, last: string): seq<Cmd> {
    if OnDevice(dest) && last != dest then [Unmount, Mount(dest)] else []
  }

  function LastFor(dest: string, last: string): string {
    if OnDevice(dest) then dest else last
  }

  function FwInstall(order: seq<string>, files: Files, sha: Blob -> string): FwLoop
    requires forall f :: f in order ==> f in files
  {
    if order == [] then FwLoop([], "")
    else
      var front, f := FwInstall(order[..|order| - 1], files, sha), order[|order| - 1];
      var dest := files[f].dest;
      FwLoop(front.cmds + (MountFor(dest, front.last) + UnitCmds(FwUnit(f, files[f]), sha)),
             LastFor(dest, front.last))
  }

  function FwChecks(order: seq<string>, files: Files, sha: Blob -> string): FwLoop
    requires forall f :: f in order ==> f in files
  {
    if order == [] then FwLoop([], "")
    else
      var front, f := FwChecks(order[..|order| - 1], files, sha), order[|order| - 1];
      var dest := files[f].dest;
      if files[f].patch.None? then front
      else
        FwLoop(front.cmds + (MountFor(dest, front.last) + CheckCmds(FwUnit(f, files[f]), sha)),
               LastFor(dest, front.last))
  }

  function BootScript(order: seq<string>, files: Files, sha: Blob -> string): seq<Cmd>
    requires forall f :: f in order ==> f in files
  {
    [IfBootUpdate(Main)] + UnitsCmds(MainUnits(order, files), sha) + [EndIf]
    + (if BackupUnits(order, files) != []
       then [IfBootUpdate(Backup)] + UnitsCmds(BackupUnits(order, files), sha) + [EndIf]
       else [BootUpdate(Backup)])
    + [BootUpdate(Finalize)]
  }

  function FwScript(order: seq<string>, files: Files, sha: Blob -> string): seq<Cmd>
    requires forall f :: f in order ==> f in files
  {
    var loop := FwInstall(order, files, sha);
    loop.cmds + if loop.last != "" then [Unmount] else []
  }

  /** The three classes of images together with the order in which Python walks each of them. */
  datatype Plan = Plan(boot: Files, bin: Files, fw: Files,
                       bootOrder: seq<string>, binOrder: seq<string>, fwOrder: seq<string>)
  {
    ghost predicate Valid() {
      && Enumerates(bootOrder, boot) && Enumerates(binOrder, bin) && Enumerates(fwOrder, fw)
      && PatchesMatchNames(boot) && PatchesMatchNames(bin) && PatchesMatchNames(fw)
    }
  }

  ghost function InstallScript(p: Plan, sha: Blob -> string): seq<Cmd>
    requires p.Valid()
  {
    (if p.boot != map[] then BootScript(p.bootOrder, p.boot, sha) else [])
    + (if p.bin != map[] then UnitsCmds(BinUnits(p.binOrder, p.bin), sha) else [])
    + (if p.fw != map[] then FwScript(p.fwOrder, p.fw, sha) else [])
  }

  ghost function VerifyScript(p: Plan, largest: nat, sha: Blob -> string): seq<Cmd>
    requires p.Valid()
  {
    if largest == 0 then []
    else
      ChecksCmds(BootCheckUnits(p.bootOrder, p.boot), sha) + ChecksCmds(BinUnits(p.binOrder, p.bin), sha)
      + FwChecks(p.fwOrder, p.fw, sha).cmds + [CacheFreeSpaceCheck(largest)]
  }

  // ----- the generators as Python writes them

  class Script {
    var cmds: seq<Cmd>

    constructor ()
      ensures cmds == []
    {
      cmds := [];
    }

    method Append(c: Cmd)
      modifies this
      ensures cmds == old(cmds) + [c]
    {
      cmds := cmds + [c];
    }

    /** InstallRawImage */
    method InstallRawImage(f: string, dest: string, patch: Option<Patch>, sha: Blob -> string, ghost role: Role)
      requires IsPatch(f) <==> patch.Some?
      modifies this
      ensures cmds == old(cmds) + UnitCmds(Unit(role, f, patch, Emmc(dest), dest, Raw(dest)), sha)
    {
      hide LastSegment;
      hide EndsWith;
      ghost var start := cmds;
      if IsPatch(f) {
        Append(ApplyPatch(Emmc(dest), sha(patch.value.target), sha(patch.value.source), f));
      } else if IsEncrypted(f) {
        Append(Extract(f, TMP + LastSegment(f)));
        Append(Decrypt(TMP + LastSegment(f), dest));
        Assoc(start, [Extract(f, TMP + LastSegment(f))], [Decrypt(TMP + LastSegment(f), dest)]);
      } else {
        Append(Extract(f, dest));
      }
    }

    /** InstallBootImages */
    method InstallBootImages(order: seq<string>, files: Files, sha: Blob -> string)
      requires Enumerates(order, files) && PatchesMatchNames(files)
      modifies this
      ensures cmds == old(cmds) + BootScript(order, files, sha)
    {
      ghost var start := cmds;
      Append(IfBootUpdate(Main));
      var bakExists := InstallMain(order, files, sha);
      Append(EndIf);
      ghost var main := [IfBootUpdate(Main)] + UnitsCmds(MainUnits(order, files), sha) + [EndIf];
      assert cmds == start + main by {
        hide *;
        Assoc(start, [IfBootUpdate(Main)], UnitsCmds(MainUnits(order, files), sha));
        Assoc(start, [IfBootUpdate(Main)] + UnitsCmds(MainUnits(order, files), sha), [EndIf]);
      }
      ghost var bak := [BootUpdate(Backup)];
      if bakExists {
        Append(IfBootUpdate(Backup));
        InstallBackups(order, files, sha);
        Append(EndIf);
        bak := [IfBootUpdate(Backup)] + UnitsCmds(BackupUnits(order, files), sha) + [EndIf];
        assert cmds == start + main + bak by {
          hide *;
          Assoc(start + main, [IfBootUpdate(Backup)], UnitsCmds(BackupUnits(order, files), sha));
          Assoc(start + main, [IfBootUpdate(Backup)] + UnitsCmds(BackupUnits(order, files), sha), [EndIf]);
        }
      } else {
        Append(BootUpdate(Backup));
      }
      Append(BootUpdate(Finalize));
      assert cmds == start + (main + bak + [BootUpdate(Finalize)]) by {
        hide *;
        Assoc(start, main, bak);
        Assoc(start, main + bak, [BootUpdate(Finalize)]);
      }
    }

    method InstallMain(order: seq<string>, files: Files, sha: Blob -> string) returns (bakExists: bool)
      requires Enumerates(order, files) && PatchesMatchNames(files)
      modifies this
      ensures cmds == old(cmds) + UnitsCmds(MainUnits(order, files), sha)
      ensures bakExists <==> BackupUnits(order, files) != []
    {
      hide UnitsCmds;
      hide UnitCmds;
      hide MainUnits;
      hide BackupUnits;
      hide IsPatch;
      hide IsEncrypted;
      bakExists := false;
      NoUnits(files, sha);
      assert cmds + [] == cmds;
      for i := 0 to |order|
        invariant cmds == old(cmds) + UnitsCmds(MainUnits(order[..i], files), sha)
        invariant bakExists <==> BackupUnits(order[..i], files) != []
      {
        OrderSnoc(order, files, i);
        var e := files[order[i]];
        UnitsSnoc(MainUnits(order[..i], files), RawUnit(MainCopy, order[i], e, e.dest), sha);
        if e.bak.Some? {
          bakExists := true;
        }
        ghost var u := RawUnit(MainCopy, order[i], e, e.dest);
        InstallRawImage(order[i], e.dest, e.patch, sha, MainCopy);
        Assoc(old(cmds), UnitsCmds(MainUnits(order[..i], files), sha), UnitCmds(u, sha));
      }
      assert order[..|order|] == order;
    }

    method InstallBackups(order: seq<string>, files: Files, sha: Blob -> string)
      requires Enumerates(order, files) && PatchesMatchNames(files)
      modifies this
      ensures cmds == old(cmds) + UnitsCmds(BackupUnits(order, files), sha)
    {
      hide UnitsCmds;
      hide UnitCmds;
      hide BackupUnits;
      hide IsPatch;
      hide IsEncrypted;
      NoUnits(files, sha);
      assert cmds + [] == cmds;
      for i := 0 to |order|
        invariant cmds == old(cmds) + UnitsCmds(BackupUnits(order[..i], files), sha)
      {
        OrderSnoc(order, files, i);
        var e := files[order[i]];
        if e.bak.Some? {
          UnitsSnoc(BackupUnits(order[..i], files), RawUnit(BackupCopy, order[i], e, e.bak.value), sha);
          ghost var u := RawUnit(BackupCopy, order[i], e, e.bak.value);
          InstallRawImage(order[i], e.bak.value, e.patch, sha, BackupCopy);
          Assoc(old(cmds), UnitsCmds(BackupUnits(order[..i], files), sha), UnitCmds(u, sha));
        } else {
          assert BackupUnits(order[..i], files) + [] == BackupUnits(order[..i], files);
        }
      }
      assert order[..|order|] == order;
    }

    /** InstallBinImages */
    method InstallBinImages(order: seq<string>, files: Files, sha: Blob -> string)
      requires Enumerates(order, files) && PatchesMatchNames(files)
      modifies this
      ensures cmds == old(cmds) + UnitsCmds(BinUnits(order, files), sha)
    {
      hide UnitsCmds;
      hide UnitCmds;
      hide BinUnits;
      hide IsPatch;
      hide IsEncrypted;
      NoUnits(files, sha);
      assert cmds + [] == cmds;
      for i := 0 to |order|
        invariant cmds == old(cmds) + UnitsCmds(BinUnits(order[..i], files), sha)
      {
        OrderSnoc(order, files, i);
        var e := files[order[i]];
        UnitsSnoc(BinUnits(order[..i], files), RawUnit(BinImage, order[i], e, e.dest), sha);
        ghost var u := RawUnit(BinImage, order[i], e, e.dest);
        InstallRawImage(order[i], e.dest, e.patch, sha, BinImage);
        Assoc(old(cmds), UnitsCmds(BinUnits(order[..i], files), sha), UnitCmds(u, sha));
      }
      assert order[..|order|] == order;
    }

    /** The unmount and mount that precede a file in another partition. */
    method MountIfNeeded(dest: string, last: string) returns (now: string)
      modifies this
      ensures cmds == old(cmds) + MountFor(dest, last) && now == LastFor(dest, last)
    {
      now := last;
      if OnDevice(dest) {
        if last != dest {
          Append(Unmount);
          Append(Mount(dest));
          now := dest;
        }
      }
    }

    /** InstallFwImages */
    method InstallFwImages(order: seq<string>, files: Files, sha: Blob -> string)
      requires Enumerates(order, files) && PatchesMatchNames(files)
      modifies this
      ensures cmds == old(cmds) + FwScript(order, files, sha)
    {
      hide UnitCmds;
      hide FwUnit;
      hide FwInstall;
      hide MountFor;
      hide LastFor;
      NoUnits(files, sha);
      assert cmds + [] == cmds;
      var last := "";
      for i := 0 to |order|
        invariant cmds == old(cmds) + FwInstall(order[..i], files, sha).cmds
        invariant last == FwInstall(order[..i], files, sha).last
      {
        FwSnoc(order, files, i, sha);
        var f := order[i];
        var e := files[f];
        ghost var before := FwInstall(order[..i], files, sha).cmds;
        ghost var mount := MountFor(e.dest, last);
        last := MountIfNeeded(e.dest, last);
        InstallFwFile(f, e, sha);
        Assoc(old(cmds), before, mount);
        Assoc(old(cmds), before + mount, UnitCmds(FwUnit(f, e), sha));
        Assoc(before, mount, UnitCmds(FwUnit(f, e), sha));
      }
      assert order[..|order|] == order;
      if last != "" {
        Append(Unmount);
        Assoc(old(cmds), FwInstall(order, files, sha).cmds, [Unmount]);
      } else {
        assert FwInstall(order, files, sha).cmds + [] == FwInstall(order, files, sha).cmds;
      }
    }

    method InstallFwFile(f: string, e: Entry, sha: Blob -> string)
      requires IsPatch(f) <==> e.patch.Some?
      modifies this
      ensures cmds == old(cmds) + UnitCmds(FwUnit(f, e), sha)
    {
      ghost var start := cmds;
      var fn := LastSegment(f);
      var dest := (if OnDevice(e.dest) then "/firmware/image/" else e.dest + "/") + fn;
      FwPathIsCut(f, e);
      hide LastSegment;
      hide EndsWith;
      hide PlainName;
      hide FwDir;
      if IsPatch(f) {
        Append(ApplyPatch(Path(dest[..|dest| - 2]), sha(e.patch.value.target), sha(e.patch.value.source), f));
      } else if IsEncrypted(f) {
        Append(Extract(f, TMP + fn));
        Append(Decrypt(TMP + fn, dest[..|dest| - 4]));
        Assoc(start, [Extract(f, TMP + fn)], [Decrypt(TMP + fn, dest[..|dest| - 4])]);
      } else {
        Append(Extract(f, dest));
      }
    }

    /** OTA_InstallEnd */
    method InstallEnd(p: Plan, sha: Blob -> string)
      requires p.Valid()
      modifies this
      ensures cmds == old(cmds) + InstallScript(p, sha)
    {
      hide BootScript;
      hide FwScript;
      hide UnitsCmds;
      hide PatchesMatchNames;
      ghost var a := if p.boot != map[] then BootScript(p.bootOrder, p.boot, sha) else [];
      ghost var b := if p.bin != map[] then UnitsCmds(BinUnits(p.binOrder, p.bin), sha) else [];
      ghost var c := if p.fw != map[] then FwScript(p.fwOrder, p.fw, sha) else [];
      if p.boot != map[] {
        InstallBootImages(p.bootOrder, p.boot, sha);
      }
      assert cmds == old(cmds) + a;
      if p.bin != map[] {
        InstallBinImages(p.binOrder, p.bin, sha);
      }
      assert cmds == old(cmds) + a + b;
      if p.fw != map[] {
        InstallFwImages(p.fwOrder, p.fw, sha);
      }
      assert cmds == old(cmds) + a + b + c;
      Assoc(old(cmds), a, b);
      Assoc(old(cmds), a + b, c);
    }

    method CheckUnit(u: Unit, sha: Blob -> string)
      modifies this
      ensures cmds == old(cmds) + CheckCmds(u, sha)
    {
      if u.patch.Some? {
        Append(PatchCheck(u.at, sha(u.patch.value.target), sha(u.patch.value.source)));
      }
    }

    /** The verification part of OTA_VerifyEnd. */
    method VerifyEnd(p: Plan, largest: nat, sha: Blob -> string)
      requires p.Valid()
      modifies this
      ensures cmds == old(cmds) + VerifyScript(p, largest, sha)
    {
      if largest == 0 {
        return;
      }
      hide ChecksCmds;
      hide FwChecks;
      hide Enumerates;
      hide PatchesMatchNames;
      ghost var a := ChecksCmds(BootCheckUnits(p.bootOrder, p.boot), sha);
      ghost var b := ChecksCmds(BinUnits(p.binOrder, p.bin), sha);
      ghost var c := FwChecks(p.fwOrder, p.fw, sha).cmds;
      VerifyBoot(p.bootOrder, p.boot, sha);
      VerifyBin(p.binOrder, p.bin, sha);
      VerifyFw(p.fwOrder, p.fw, sha);
      Append(CacheFreeSpaceCheck(largest));
      Assoc(old(cmds), a, b);
      Assoc(old(cmds), a + b, c);
      Assoc(old(cmds), a + b + c, [CacheFreeSpaceCheck(largest)]);
    }

    method VerifyBoot(order: seq<string>, files: Files, sha: Blob -> string)
      requires Enumerates(order, files)
      modifies this
      ensures cmds == old(cmds) + ChecksCmds(BootCheckUnits(order, files), sha)
    {
      hide ChecksCmds;
      hide BootCheckUnits;
      hide CheckCmds;
      NoUnits(files, sha);
      assert cmds + [] == cmds;
      for i := 0 to |order|
        invariant cmds == old(cmds) + ChecksCmds(BootCheckUnits(order[..i], files), sha)
      {
        OrderSnoc(order, files, i);
        var f := order[i];
        var e := files[f];
        var main := RawUnit(MainCopy, f, e, e.dest);
        ghost var before := BootCheckUnits(order[..i], files);
        UnitsSnoc(before, main, sha);
        CheckUnit(main, sha);
        Assoc(old(cmds), ChecksCmds(before, sha), CheckCmds(main, sha));
        if e.bak.Some? {
          var second := RawUnit(BackupCopy, f, e, e.bak.value);
          UnitsSnoc(before + [main], second, sha);
          CheckUnit(second, sha);
          Assoc(old(cmds), ChecksCmds(before + [main], sha), CheckCmds(second, sha));
        } else {
          assert before + [main] + [] == before + [main];
        }
      }
      assert order[..|order|] == order;
    }

    method VerifyBin(order: seq<string>, files: Files, sha: Blob -> string)
      requires Enumerates(order, files)
      modifies this
      ensures cmds == old(cmds) + ChecksCmds(BinUnits(order, files), sha)
    {
      hide ChecksCmds;
      hide BinUnits;
      hide IsPatch;
      hide IsEncrypted;
      NoUnits(files, sha);
      assert cmds + [] == cmds;
      for i := 0 to |order|
        invariant cmds == old(cmds) + ChecksCmds(BinUnits(order[..i], files), sha)
      {
        OrderSnoc(order, files, i);
        var u := RawUnit(BinImage, order[i], files[order[i]], files[order[i]].dest);
        UnitsSnoc(BinUnits(order[..i], files), u, sha);
        CheckUnit(u, sha);
      }
      assert order[..|order|] == order;
    }

    method VerifyFw(order: seq<string>, files: Files, sha: Blob -> string)
      requires Enumerates(order, files) && PatchesMatchNames(files)
      modifies this
      ensures cmds == old(cmds) + FwChecks(order, files, sha).cmds
    {
      hide FwChecks;
      hide MountFor;
      hide LastFor;
      hide CheckCmds;
      NoUnits(files, sha);
      assert cmds + [] == cmds;
      var last := "";
      for i := 0 to |order|
        invariant cmds == old(cmds) + FwChecks(order[..i], files, sha).cmds
        invariant last == FwChecks(order[..i], files, sha).last
      {
        FwSnoc(order, files, i, sha);
        var f := order[i];
        var e := files[f];
        if e.patch.Some? {
          ghost var before := FwChecks(order[..i], files, sha).cmds;
          ghost var mount := MountFor(e.dest, last);
          last := MountIfNeeded(e.dest, last);
          CheckFwFile(f, e, sha);
          Assoc(old(cmds), before, mount);
          Assoc(old(cmds), before + mount, CheckCmds(FwUnit(f, e), sha));
          Assoc(before, mount, CheckCmds(FwUnit(f, e), sha));
        }
      }
      assert order[..|order|] == order;
    }

    method CheckFwFile(f: string, e: Entry, sha: Blob -> string)
      requires IsPatch(f) && e.patch.Some?
      modifies this
      ensures cmds == old(cmds) + CheckCmds(FwUnit(f, e), sha)
    {
      SuffixOfLastSegment(f, ".p");
      var fn := LastSegment(f)[..|LastSegment(f)| - 2];
      var dest := if OnDevice(e.dest) then "/firmware/image/" + fn else e.dest + "/" + fn;
      assert dest == FwUnit(f, e).path;
      Append(PatchCheck(Path(dest), sha(e.patch.value.target), sha(e.patch.value.source)));
    }
  }

  lemma FwSnoc(order: seq<string>, files: Files, i: nat, sha: Blob -> string)
    requires Enumerates(order, files) && i < |order|
    ensures var f := order[i];
            && order[..i + 1] == order[..i] + [f] && f in files
            && FwInstall(order[..i + 1], files, sha) ==
               (var front := FwInstall(order[..i], files, sha);
                FwLoop(front.cmds + (MountFor(files[f].dest, front.last) + UnitCmds(FwUnit(f, files[f]), sha)),
                       LastFor(files[f].dest, front.last)))
            && FwChecks(order[..i + 1], files, sha) ==
               (var front := FwChecks(order[..i], files, sha);
                if files[f].patch.None? then front
                else FwLoop(front.cmds + (MountFor(files[f].dest, front.last) + CheckCmds(FwUnit(f, files[f]), sha)),
                            LastFor(files[f].dest, front.last)))
  {
    hide UnitCmds;
    hide CheckCmds;
    hide FwUnit;
    assert order[..i + 1][..i] == order[..i];
  }

  /** Cutting `.p` or `.enc` off the whole destination is cutting it off the file name. */
  lemma FwPathIsCut(f: string, e: Entry)
    ensures var dest := (if OnDevice(e.dest) then "/firmware/image/" else e.dest + "/") + LastSegment(f);
            && dest == FwDir(e.dest) + LastSegment(f)
            && FwUnit(f, e).path == (if IsPatch(f) && |dest| >= 2 then dest[..|dest| - 2]
                                     else if IsEncrypted(f) && |dest| >= 4 then dest[..|dest| - 4] else dest)
            && (IsPatch(f) ==> |dest| >= 2) && (IsEncrypted(f) ==> |dest| >= 4)
  {
    var d, fn := FwDir(e.dest), LastSegment(f);
    PlainNameIsCut(f);
    hide LastSegment;
    hide PlainName;
    hide IsPatch;
    hide IsEncrypted;
    if IsPatch(f) {
      CutEnd(d, fn, 2);
    } else if IsEncrypted(f) {
      CutEnd(d, fn, 4);
    }
  }

  lemma PlainNameIsCut(f: string)
    ensures var fn := LastSegment(f);
            && (IsPatch(f) ==> |fn| >= 2 && PlainName(f) == fn[..|fn| - 2])
            && (!IsPatch(f) && IsEncrypted(f) ==> |fn| >= 4 && PlainName(f) == fn[..|fn| - 4])
            && (!IsPatch(f) && !IsEncrypted(f) ==> PlainName(f) == fn)
            && (IsEncrypted(f) ==> |fn| >= 4)
  {
    SuffixOfLastSegment(f, ".p");
    SuffixOfLastSegment(f, ".enc");
    var fn := LastSegment(f);
    assert IsPatch(f) ==> |fn| >= 2;
    assert IsEncrypted(f) ==> |fn| >= 4;
    hide LastSegment;
    hide IsPatch;
    hide IsEncrypted;
    hide EndsWith;
  }

  lemma CutEnd(a: string, b: string, n: nat)
    requires n <= |b|
    ensures (a + b)[..|a + b| - n] == a + b[..|b| - n]
  {
  }

  lemma UnitsSnoc(us: seq<Unit>, u: Unit, sha: Blob -> string)
    ensures UnitsCmds(us + [u], sha) == UnitsCmds(us, sha) + UnitCmds(u, sha)
    ensures ChecksCmds(us + [u], sha) == ChecksCmds(us, sha) + CheckCmds(u, sha)
  {
    assert (us + [u])[..|us|] == us;
  }

  lemma NoUnits(files: Files, sha: Blob -> string)
    ensures UnitsCmds([], sha) == [] && ChecksCmds([], sha) == []
    ensures MainUnits([], files) == [] && BinUnits([], files) == [] && BackupUnits([], files) == []
    ensures BootCheckUnits([], files) == []
    ensures FwInstall([], files, sha) == FwChecks([], files, sha) == FwLoop([], "")
  {
  }

  /** One more file in the order is one more unit (or two) at the end. */
  lemma OrderSnoc(order: seq<string>, files: Files, i: nat)
    requires Enumerates(order, files) && i < |order|
    ensures var f := order[i];
            && order[..i + 1] == order[..i] + [f] && f in files
            && MainUnits(order[..i + 1], files) ==
               MainUnits(order[..i], files) + [RawUnit(MainCopy, f, files[f], files[f].dest)]
            && BinUnits(order[..i + 1], files) ==
               BinUnits(order[..i], files) + [RawUnit(BinImage, f, files[f], files[f].dest)]
            && BackupUnits(order[..i + 1], files) == BackupUnits(order[..i], files) + BackupOf(f, files[f])
            && BootCheckUnits(order[..i + 1], files) ==
               BootCheckUnits(order[..i], files) + [RawUnit(MainCopy, f, files[f], files[f].dest)]
               + BackupOf(f, files[f])
  {
    assert order[..i + 1][..i] == order[..i];
  }
}
