/** The updater commands that releasetools.py emits, and an interpreter that runs them on a device. */
module Edify {
  import opened Bytes
  import opened Text

  datatype Stage = Main | Backup | Finalize

  /** A whole partition, or a path that goes through the mounted file systems. */
  datatype Target = Emmc(dev: string) | Path(path: string)

  datatype Cmd =
    | PatchCheck(at: Target, tgtSha: string, srcSha: string)
    | CacheFreeSpaceCheck(size: nat)
    | Unmount
    | Mount(dev: string)
    | ApplyPatch(at: Target, tgtSha: string, srcSha: string, patch: string)
    | Extract(file: string, path: string)
    | Decrypt(tmp: string, path: string)
    | IfBootUpdate(stage: Stage)
    | EndIf
    | BootUpdate(stage: Stage)

  /** Where bytes live: a file or device node by its path, or a file inside the partition mounted at /firmware. */
  datatype Loc = Raw(path: string) | InPart(dev: string, path: string)

  type Store = map<Loc, Blob>

  /** What the script cannot see into: hashing, patching, decryption, boot_update's answer and the free cache. */
  datatype Tools = Tools(
    sha: Blob -> string,
    apply: (Blob, Blob) -> Blob,
    decrypt: Blob -> Blob,
    proceeds: Stage -> bool,
    cacheFree: nat,
    package: map<string, Blob>)

  datatype State = State(store: Store, mounted: Option<string>, skipping: bool, stages: seq<Stage>)

  const FIRMWARE := "/firmware/"
  const TMP := "/tmp/"

  function Resolve(at: Target, mounted: Option<string>): Option<Loc> {
    match at
    case Emmc(dev) => Some(Raw(dev))
    case Path(path) =>
      if !StartsWith(path, FIRMWARE) then Some(Raw(path))
      else if mounted.Some? then Some(InPart(mounted.value, path))
      else None
  }

  /** Writing a partition as a whole and writing a file inside it disturb each other. */
  predicate Clash(a: Loc, b: Loc) {
    || a == b
    || (a.Raw? && b.InPart? && a.path == b.dev)
    || (a.InPart? && b.Raw? && a.dev == b.path)
  }

  function Write(store: Store, at: Loc, content: Blob): Store {
    (map l | l in store && !Clash(l, at) :: store[l])[at := content]
  }

  predicate Has(store: Store, at: Loc, content: Blob) {
    at in store && store[at] == content
  }

  predicate Agree(a: Store, b: Store, at: Loc) {
    (at in a <==> at in b) && (at in a ==> a[at] == b[at])
  }

  function WriteAt(t: Tools, st: State, at: Target, content: Blob): Option<State> {
    match Resolve(at, st.mounted)
    case Some(l) => Some(st.(store := Write(st.store, l, content)))
    case None => None
  }

  function Read(st: State, at: Target): Option<Blob> {
    match Resolve(at, st.mounted)
    case Some(l) => if l in st.store then Some(st.store[l]) else None
    case None => None
  }

  /** apply_patch leaves a target alone that is already patched, and aborts on any other surprise. */
  function ApplyPatchAt(t: Tools, st: State, c: Cmd): Option<State>
    requires c.ApplyPatch?
  {
    var before := Read(st, c.at);
    if before.None? then None
    else if t.sha(before.value) == c.tgtSha then Some(st)
    else if t.sha(before.value) != c.srcSha || c.patch !in t.package then None
    else
      var after := t.apply(before.value, t.package[c.patch]);
      if t.sha(after) == c.tgtSha then WriteAt(t, st, c.at, after) else None
  }

  /** One command; None means that the update aborts. */
  function Step(t: Tools, st: State, c: Cmd): Option<State> {
    if st.skipping then Some(if c.EndIf? then st.(skipping := false) else st)
    else
      match c
      case PatchCheck(at, tgt, src) =>
        var before := Read(st, at);
        if before.Some? && (t.sha(before.value) == tgt || t.sha(before.value) == src) then Some(st) else None
      case CacheFreeSpaceCheck(size) => if size <= t.cacheFree then Some(st) else None
      case Unmount => Some(st.(mounted := None))
      case Mount(dev) => if st.mounted.None? then Some(st.(mounted := Some(dev))) else None
      case ApplyPatch(_, _, _, _) => ApplyPatchAt(t, st, c)
      case Extract(file, path) => if file in t.package then WriteAt(t, st, Path(path), t.package[file]) else None
      case Decrypt(tmp, path) =>
        var raw := Read(st, Path(tmp));
        if raw.Some? then WriteAt(t, st, Path(path), t.decrypt(raw.value)) else None
      case IfBootUpdate(stage) => Some(st.(skipping := !t.proceeds(stage), stages := st.stages + [stage]))
      case EndIf => Some(st)
      case BootUpdate(stage) => Some(st.(stages := st.stages + [stage]))
  }

  lemma ExtractStep(t: Tools, st: State, file: string, path: string, l: Loc)
    requires !st.skipping && file in t.package && Resolve(Path(path), st.mounted) == Some(l)
    ensures Step(t, st, Extract(file, path)) == Some(st.(store := Write(st.store, l, t.package[file])))
  {
    hide Resolve;
    hide Write;
  }

  lemma DecryptStep(t: Tools, st: State, tmp: string, path: string, from: Loc, l: Loc)
    requires !st.skipping && Resolve(Path(tmp), st.mounted) == Some(from) && from in st.store
    requires Resolve(Path(path), st.mounted) == Some(l)
    ensures Step(t, st, Decrypt(tmp, path)) == Some(st.(store := Write(st.store, l, t.decrypt(st.store[from]))))
  {
    hide Resolve;
    hide Write;
  }

  lemma WriteAgrees(store: Store, at: Loc, content: Blob, l: Loc)
    ensures Has(Write(store, at, content), at, content)
    ensures !Clash(l, at) ==> Agree(Write(store, at, content), store, l)
  {
  }

  function Run(t: Tools, st: State, cmds: seq<Cmd>): Option<State>
    decreases |cmds|
  {
    if cmds == [] then Some(st)
    else
      match Step(t, st, cmds[0])
      case Some(next) => Run(t, next, cmds[1..])
      case None => None
  }

  lemma {:induction false} RunConcat(t: Tools, st: State, a: seq<Cmd>, b: seq<Cmd>)
    ensures Run(t, st, a + b) == match Run(t, st, a) case Some(mid) => Run(t, mid, b) case None => None
    decreases |a|
  {
    if a == [] {
      assert a + b == b;
    } else {
      assert (a + b)[0] == a[0] && (a + b)[1..] == a[1..] + b;
      match Step(t, st, a[0])
      case Some(next) => RunConcat(t, next, a[1..], b);
      case None =>
    }
  }

  lemma RunOne(t: Tools, st: State, c: Cmd)
    ensures Run(t, st, [c]) == Step(t, st, c)
  {
    assert [c][1..] == [];
    match Step(t, st, c)
    case Some(next) => assert Run(t, next, []) == Some(next);
    case None =>
  }

  lemma RunTwo(t: Tools, st: State, c: Cmd, d: Cmd)
    ensures Run(t, st, [c, d]) == match Step(t, st, c) case Some(mid) => Step(t, mid, d) case None => None
  {
    assert [c, d] == [c] + [d];
    RunConcat(t, st, [c], [d]);
    RunOne(t, st, c);
    match Step(t, st, c)
    case Some(mid) => RunOne(t, mid, d);
    case None =>
  }

  /** A block that boot_update does not let proceed changes nothing. */
  lemma {:induction false} RunSkipped(t: Tools, st: State, cmds: seq<Cmd>)
    requires st.skipping && forall i :: 0 <= i < |cmds| ==> !cmds[i].EndIf?
    ensures Run(t, st, cmds) == Some(st)
    decreases |cmds|
  {
    if cmds != [] {
      RunSkipped(t, st, cmds[1..]);
    }
  }
}
