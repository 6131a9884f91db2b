/** What running the install script does to a device, at every point of the script. */
module RadioInstall {
  import opened Bytes
  import opened Text
  import opened Edify
  import opened RadioScript

  // ----- assumptions on the world outside

  ghost predicate CollisionFree(sha: Blob -> string) {
    forall a, b :: sha(a) == sha(b) ==> a == b
  }

  /** The package holds the unit's file, and applying a patch to its source gives its target. */
  predicate Shipped(t: Tools, u: Unit) {
    && u.file in t.package
    && (u.patch.Some? <==> IsPatch(u.file))
    && (u.patch.Some? ==> t.apply(u.patch.value.source, t.package[u.file]) == u.patch.value.target)
  }

  /** The content a unit is to have in the end. */
  function Goal(t: Tools, u: Unit): Blob
    requires Shipped(t, u)
  {
    if u.patch.Some? then u.patch.value.target
    else if IsEncrypted(u.file) then t.decrypt(t.package[u.file])
    else t.package[u.file]
  }

  /** A place that is to be patched holds the source, or already the target. */
  predicate Ready(store: Store, u: Unit) {
    u.patch.Some? ==> Has(store, u.loc, u.patch.value.source) || Has(store, u.loc, u.patch.value.target)
  }

  /** Neither a temporary file nor a partition of that name. */
  predicate TmpFree(l: Loc) {
    match l
    case Raw(path) => !StartsWith(path, TMP)
    case InPart(dev, _) => !StartsWith(dev, TMP)
  }

  predicate Addressed(u: Unit, mounted: Option<string>) {
    Resolve(u.at, mounted) == Some(u.loc) && Resolve(Path(u.path), mounted) == Some(u.loc)
  }

  ghost predicate Apart(us: seq<Unit>) {
    forall i, j :: 0 <= i < j < |us| ==> !Clash(us[i].loc, us[j].loc)
  }

  ghost predicate Elsewhere(l: Loc, us: seq<Unit>) {
    TmpFree(l) && forall u :: u in us ==> !Clash(l, u.loc)
  }

  /** No place outside the units and the temporary directory differs. */
  ghost predicate Untouched(a: Store, b: Store, us: seq<Unit>) {
    forall l :: Elsewhere(l, us) ==> Agree(a, b, l)
  }

  ghost predicate AllNew(t: Tools, store: Store, us: seq<Unit>)
    requires forall u :: u in us ==> Shipped(t, u)
  {
    forall u :: u in us ==> Has(store, u.loc, Goal(t, u))
  }

  ghost predicate AllOldOrNew(t: Tools, before: Store, store: Store, us: seq<Unit>)
    requires forall u :: u in us ==> Shipped(t, u)
  {
    forall u :: u in us ==> Agree(store, before, u.loc) || Has(store, u.loc, Goal(t, u))
  }

  /** What a unit needs in order to be installed. */
  ghost predicate Installable(t: Tools, store: Store, u: Unit) {
    Shipped(t, u) && Ready(store, u) && TmpFree(u.loc)
  }

  // ----- one unit

  lemma TmpResolves(f: string, mounted: Option<string>)
    ensures Resolve(Path(TmpOf(f)), mounted) == Some(Raw(TmpOf(f)))
  {
    hide LastSegment;
    assert TmpOf(f)[1] == 't' && FIRMWARE[1] == 'f';
  }

  lemma TmpClashes(f: string, l: Loc)
    requires TmpFree(l)
    ensures !Clash(l, Raw(TmpOf(f)))
  {
    hide LastSegment;
    assert StartsWith(TmpOf(f), TMP);
  }

  /** Running a unit's commands puts its content in place and touches nothing else. */
  lemma UnitInstalls(t: Tools, st: State, u: Unit) returns (r: State)
    requires !st.skipping && CollisionFree(t.sha) && Installable(t, st.store, u) && Addressed(u, st.mounted)
    ensures Run(t, st, UnitCmds(u, t.sha)) == Some(r)
    ensures r == st.(store := r.store) && Has(r.store, u.loc, Goal(t, u)) && Untouched(r.store, st.store, [u])
  {
    if u.patch.Some? {
      PatchInstalls(t, st, u);
      r := Run(t, st, UnitCmds(u, t.sha)).value;
    } else if IsEncrypted(u.file) {
      r := EncryptedInstalls(t, st, u);
    } else {
      RunOne(t, st, Extract(u.file, u.path));
      r := st.(store := Write(st.store, u.loc, t.package[u.file]));
      forall l | Elsewhere(l, [u]) ensures Agree(r.store, st.store, l) {
        assert u in [u];
      }
    }
  }

  lemma PatchInstalls(t: Tools, st: State, u: Unit)
    requires !st.skipping && CollisionFree(t.sha) && Installable(t, st.store, u) && Addressed(u, st.mounted)
    requires u.patch.Some?
    ensures var r := Run(t, st, UnitCmds(u, t.sha));
            && r.Some? && r.value == st.(store := r.value.store)
            && Has(r.value.store, u.loc, Goal(t, u)) && Untouched(r.value.store, st.store, [u])
  {
    var p := u.patch.value;
    RunOne(t, st, ApplyPatch(u.at, t.sha(p.target), t.sha(p.source), u.file));
    forall l | Elsewhere(l, [u]) ensures Agree(Write(st.store, u.loc, p.target), st.store, l) {
      assert u in [u];
    }
  }

  /** The first half of an encrypted unit only writes the temporary file. */
  lemma ExtractToTmp(t: Tools, st: State, u: Unit) returns (mid: State)
    requires !st.skipping && u.file in t.package
    ensures Step(t, st, Extract(u.file, TmpOf(u.file))) == Some(mid) && mid == st.(store := mid.store)
    ensures Has(mid.store, Raw(TmpOf(u.file)), t.package[u.file])
    ensures forall l :: TmpFree(l) ==> Agree(mid.store, st.store, l)
  {
    hide *;
    TmpResolves(u.file, st.mounted);
    var at := Raw(TmpOf(u.file));
    ExtractStep(t, st, u.file, TmpOf(u.file), at);
    mid := st.(store := Write(st.store, at, t.package[u.file]));
    WriteAgrees(st.store, at, t.package[u.file], at);
    forall l | TmpFree(l) ensures Agree(mid.store, st.store, l) {
      TmpClashes(u.file, l);
      WriteAgrees(st.store, at, t.package[u.file], l);
    }
  }

  lemma EncryptedInstalls(t: Tools, st: State, u: Unit) returns (r: State)
    requires !st.skipping && Shipped(t, u) && Addressed(u, st.mounted) && u.patch.None? && IsEncrypted(u.file)
    ensures Run(t, st, UnitCmds(u, t.sha)) == Some(r)
    ensures r == st.(store := r.store) && Has(r.store, u.loc, Goal(t, u)) && Untouched(r.store, st.store, [u])
  {
    var tmp, content := TmpOf(u.file), t.decrypt(t.package[u.file]);
    assert UnitCmds(u, t.sha) == [Extract(u.file, tmp), Decrypt(tmp, u.path)];
    assert Goal(t, u) == content && Resolve(Path(u.path), st.mounted) == Some(u.loc) && u.file in t.package;
    hide *;
    var mid := ExtractToTmp(t, st, u);
    r := mid.(store := Write(mid.store, u.loc, content));
    TmpResolves(u.file, st.mounted);
    ReadBack(mid.store, Raw(tmp), t.package[u.file]);
    DecryptStep(t, mid, tmp, u.path, Raw(tmp), u.loc);
    RunTwo(t, st, Extract(u.file, tmp), Decrypt(tmp, u.path));
    OnlyOnePlace(mid.store, u, content, st.store);
  }

  lemma ReadBack(store: Store, at: Loc, content: Blob)
    requires Has(store, at, content)
    ensures at in store && store[at] == content
  {
  }

  lemma OnlyOnePlace(mid: Store, u: Unit, content: Blob, before: Store)
    requires forall l :: TmpFree(l) ==> Agree(mid, before, l)
    ensures Has(Write(mid, u.loc, content), u.loc, content)
    ensures Untouched(Write(mid, u.loc, content), before, [u])
  {
    forall l | Elsewhere(l, [u]) ensures Agree(Write(mid, u.loc, content), before, l) {
      assert u in [u];
      assert Agree(mid, before, l);
    }
  }

  /** Cut short after k commands, a unit's place is still as it was, or already as it should be. */
  lemma UnitCutShort(t: Tools, st: State, u: Unit, k: nat) returns (r: State)
    requires !st.skipping && CollisionFree(t.sha) && Installable(t, st.store, u) && Addressed(u, st.mounted)
    requires k <= |UnitCmds(u, t.sha)|
    ensures Run(t, st, UnitCmds(u, t.sha)[..k]) == Some(r) && r == st.(store := r.store)
    ensures Agree(r.store, st.store, u.loc) || Has(r.store, u.loc, Goal(t, u))
    ensures Untouched(r.store, st.store, [u])
  {
    if k == |UnitCmds(u, t.sha)| {
      assert UnitCmds(u, t.sha)[..k] == UnitCmds(u, t.sha);
      r := UnitInstalls(t, st, u);
    } else if k == 0 {
      r := st;
      assert UnitCmds(u, t.sha)[..0] == [];
    } else {
      assert UnitCmds(u, t.sha)[..k] == [Extract(u.file, TmpOf(u.file))];
      hide *;
      RunOne(t, st, Extract(u.file, TmpOf(u.file)));
      r := ExtractHalf(t, st, u);
    }
  }

  lemma ExtractHalf(t: Tools, st: State, u: Unit) returns (r: State)
    requires !st.skipping && Installable(t, st.store, u)
    ensures Step(t, st, Extract(u.file, TmpOf(u.file))) == Some(r) && r == st.(store := r.store)
    ensures Agree(r.store, st.store, u.loc) && Untouched(r.store, st.store, [u])
  {
    hide Step;
    hide Clash;
    hide Has;
    hide TmpOf;
    hide TmpFree;
    r := ExtractToTmp(t, st, u);
  }

  // ----- a run of units

  lemma UntouchedTwice(a: Store, b: Store, c: Store, us: seq<Unit>, vs: seq<Unit>)
    requires Untouched(b, a, us) && Untouched(c, b, vs)
    ensures Untouched(c, a, us + vs)
  {
    forall l | Elsewhere(l, us + vs) ensures Agree(c, a, l) {
      assert Elsewhere(l, us) && Elsewhere(l, vs);
      assert Agree(b, a, l) && Agree(c, b, l);
    }
  }

  lemma ApartSplit(us: seq<Unit>, vs: seq<Unit>, v: Unit)
    requires Apart(us + vs) && v in vs && TmpFree(v.loc)
    ensures Elsewhere(v.loc, us)
  {
    var j :| 0 <= j < |vs| && vs[j] == v;
    forall u | u in us ensures !Clash(v.loc, u.loc) {
      var i :| 0 <= i < |us| && us[i] == u;
      assert !Clash((us + vs)[i].loc, (us + vs)[|us| + j].loc);
    }
  }

  lemma ApartSplitBack(us: seq<Unit>, vs: seq<Unit>, u: Unit)
    requires Apart(us + vs) && u in us && TmpFree(u.loc)
    ensures Elsewhere(u.loc, vs)
  {
    var i :| 0 <= i < |us| && us[i] == u;
    forall v | v in vs ensures !Clash(u.loc, v.loc) {
      var j :| 0 <= j < |vs| && vs[j] == v;
      assert !Clash((us + vs)[i].loc, (us + vs)[|us| + j].loc);
    }
  }

  lemma ApartParts(us: seq<Unit>, vs: seq<Unit>)
    requires Apart(us + vs)
    ensures Apart(us) && Apart(vs)
  {
    forall i, j | 0 <= i < j < |us| ensures !Clash(us[i].loc, us[j].loc) {
      assert !Clash((us + vs)[i].loc, (us + vs)[j].loc);
    }
    forall i, j | 0 <= i < j < |vs| ensures !Clash(vs[i].loc, vs[j].loc) {
      assert !Clash((us + vs)[|us| + i].loc, (us + vs)[|us| + j].loc);
    }
  }

  /** Units that are addressed alike whatever is mounted. */
  ghost predicate MountFree(us: seq<Unit>) {
    forall u, m :: u in us ==> Addressed(u, m)
  }

  ghost predicate AllInstallable(t: Tools, store: Store, us: seq<Unit>) {
    forall u :: u in us ==> Installable(t, store, u)
  }

  lemma StillInstallable(t: Tools, a: Store, b: Store, us: seq<Unit>, vs: seq<Unit>)
    requires Apart(us + vs) && AllInstallable(t, a, vs) && Untouched(b, a, us)
    ensures AllInstallable(t, b, vs)
    ensures forall v :: v in vs ==> Agree(b, a, v.loc)
  {
    forall v | v in vs ensures Installable(t, b, v) && Agree(b, a, v.loc) {
      ApartSplit(us, vs, v);
      assert Agree(b, a, v.loc);
    }
  }

  lemma StillNew(t: Tools, a: Store, b: Store, us: seq<Unit>, vs: seq<Unit>)
    requires forall u :: u in us ==> Shipped(t, u) && TmpFree(u.loc)
    requires Apart(us + vs) && AllNew(t, a, us) && Untouched(b, a, vs)
    ensures AllNew(t, b, us)
  {
    forall u | u in us ensures Has(b, u.loc, Goal(t, u)) {
      ApartSplitBack(us, vs, u);
      assert Agree(b, a, u.loc);
    }
  }

  lemma {:induction false} UnitsInstall(t: Tools, st: State, us: seq<Unit>) returns (r: State)
    requires !st.skipping && CollisionFree(t.sha) && AllInstallable(t, st.store, us) && MountFree(us) && Apart(us)
    ensures Run(t, st, UnitsCmds(us, t.sha)) == Some(r) && r == st.(store := r.store)
    ensures AllNew(t, r.store, us) && Untouched(r.store, st.store, us)
  {
    if us == [] {
      r := st;
    } else {
      var front, u := us[..|us| - 1], us[|us| - 1];
      assert us == front + [u];
      ApartParts(front, [u]);
      var mid := UnitsInstall(t, st, front);
      StillInstallable(t, st.store, mid.store, front, [u]);
      r := UnitInstalls(t, mid, u);
      RunConcat(t, st, UnitsCmds(front, t.sha), UnitCmds(u, t.sha));
      StillNew(t, mid.store, r.store, front, [u]);
      UntouchedTwice(st.store, mid.store, r.store, front, [u]);
    }
  }

  lemma PrefixOfConcat<T>(a: seq<T>, b: seq<T>, k: nat)
    requires k <= |a| + |b|
    ensures (a + b)[..k] == if k <= |a| then a[..k] else a + b[..k - |a|]
  {
  }

  lemma OldOrNewMore(t: Tools, a: Store, b: Store, us: seq<Unit>, vs: seq<Unit>)
    requires forall u :: u in us + vs ==> Shipped(t, u) && TmpFree(u.loc)
    requires Apart(us + vs) && AllOldOrNew(t, a, b, us) && Untouched(b, a, us)
    ensures AllOldOrNew(t, a, b, us + vs) && Untouched(b, a, us + vs)
  {
    forall u | u in us + vs ensures Agree(b, a, u.loc) || Has(b, u.loc, Goal(t, u)) {
      if u !in us {
        ApartSplit(us, vs, u);
        assert Agree(b, a, u.loc);
      }
    }
    forall l | Elsewhere(l, us + vs) ensures Agree(b, a, l) {
      assert Elsewhere(l, us);
    }
  }

  lemma NewThenOldOrNew(t: Tools, a: Store, b: Store, c: Store, us: seq<Unit>, vs: seq<Unit>)
    requires forall u :: u in us + vs ==> Shipped(t, u) && TmpFree(u.loc)
    requires Apart(us + vs) && AllOldOrNew(t, a, b, us) && Untouched(b, a, us)
    requires AllOldOrNew(t, b, c, vs) && Untouched(c, b, vs)
    ensures AllOldOrNew(t, a, c, us + vs) && Untouched(c, a, us + vs)
  {
    UntouchedTwice(a, b, c, us, vs);
    forall u | u in us + vs ensures Agree(c, a, u.loc) || Has(c, u.loc, Goal(t, u)) {
      if u in us {
        ApartSplitBack(us, vs, u);
        assert Agree(c, b, u.loc);
      } else {
        ApartSplit(us, vs, u);
        assert Agree(b, a, u.loc);
      }
    }
  }

  lemma SplitLast(t: Tools, store: Store, us: seq<Unit>, front: seq<Unit>, u: Unit)
    requires AllInstallable(t, store, us) && MountFree(us) && Apart(us) && us == front + [u]
    ensures AllInstallable(t, store, front) && MountFree(front) && Apart(front)
    ensures AllInstallable(t, store, [u]) && (forall m :: Addressed(u, m))
    ensures forall v :: v in us ==> Shipped(t, v) && TmpFree(v.loc)
    ensures UnitsCmds(us, t.sha) == UnitsCmds(front, t.sha) + UnitCmds(u, t.sha)
  {
    assert u in us && us[..|us| - 1] == front;
    ApartParts(front, [u]);
    hide Shipped;
    hide Ready;
    hide TmpFree;
    hide Addressed;
    hide UnitCmds;
  }

  lemma NothingCut(t: Tools, st: State)
    ensures UnitsCmds([], t.sha) == [] && Run(t, st, []) == Some(st)
    ensures AllOldOrNew(t, st.store, st.store, []) && Untouched(st.store, st.store, [])
  {
  }

  /** Cut short after any number of commands, every place is as it was or as it should be. */
  lemma {:induction false} UnitsCutShort(t: Tools, st: State, us: seq<Unit>, k: nat) returns (r: State)
    requires !st.skipping && CollisionFree(t.sha) && AllInstallable(t, st.store, us) && MountFree(us) && Apart(us)
    requires k <= |UnitsCmds(us, t.sha)|
    ensures Run(t, st, UnitsCmds(us, t.sha)[..k]) == Some(r) && r == st.(store := r.store)
    ensures AllOldOrNew(t, st.store, r.store, us) && Untouched(r.store, st.store, us)
  {
    hide *;
    if us == [] {
      NothingCut(t, st);
      r := st;
    } else {
      var front, u := us[..|us| - 1], us[|us| - 1];
      var a, b := UnitsCmds(front, t.sha), UnitCmds(u, t.sha);
      assert us == front + [u];
      SplitLast(t, st.store, us, front, u);
      PrefixOfConcat(a, b, k);
      if k <= |a| {
        r := UnitsCutShort(t, st, front, k);
        OldOrNewMore(t, st.store, r.store, front, [u]);
      } else {
        r := CutInLastUnit(t, st, front, u, k - |a|);
      }
    }
  }

  lemma OneInstallable(t: Tools, store: Store, u: Unit)
    requires AllInstallable(t, store, [u])
    ensures Installable(t, store, u) && Shipped(t, u)
  {
    assert u in [u];
  }

  lemma OneOldOrNew(t: Tools, a: Store, b: Store, u: Unit)
    requires Shipped(t, u) && (Agree(b, a, u.loc) || Has(b, u.loc, Goal(t, u)))
    ensures AllOldOrNew(t, a, b, [u])
  {
  }

  /** Cut short in the commands of the last unit. */
  lemma CutInLastUnit(t: Tools, st: State, front: seq<Unit>, u: Unit, k: nat) returns (r: State)
    requires !st.skipping && CollisionFree(t.sha) && MountFree(front) && forall m :: Addressed(u, m)
    requires AllInstallable(t, st.store, front) && AllInstallable(t, st.store, [u])
    requires Apart(front) && Apart(front + [u])
    requires k <= |UnitCmds(u, t.sha)|
    requires forall v :: v in front + [u] ==> Shipped(t, v) && TmpFree(v.loc)
    ensures Run(t, st, UnitsCmds(front, t.sha) + UnitCmds(u, t.sha)[..k]) == Some(r) && r == st.(store := r.store)
    ensures AllOldOrNew(t, st.store, r.store, front + [u]) && Untouched(r.store, st.store, front + [u])
  {
    hide *;
    var mid := UnitsInstall(t, st, front);
    StillInstallable(t, st.store, mid.store, front, [u]);
    OneInstallable(t, mid.store, u);
    r := UnitCutShort(t, mid, u, k);
    OneOldOrNew(t, mid.store, r.store, u);
    RunConcat(t, st, UnitsCmds(front, t.sha), UnitCmds(u, t.sha)[..k]);
    NewThenOldOrNew(t, st.store, mid.store, r.store, front, [u]);
  }
}
