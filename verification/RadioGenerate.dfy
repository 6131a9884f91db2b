/** One run of the generators of releasetools.py, from the target files to the commands of the update. */
module RadioGenerate {
  import opened Bytes
  import opened RadioScript
  import opened RadioVerify
  import opened RadioPrepare

  /** A walk over a dictionary: every key once, in an order that is not known. */
  method WalkKeys<T>(m: map<string, T>) returns (order: seq<string>)
    ensures NoRepeats(order) && forall k :: k in order <==> k in m
  {
    order := [];
    var rest := m.Keys;
    while rest != {}
      invariant NoRepeats(order) && forall k :: k in order <==> k in m && k !in rest
      invariant rest <= m.Keys
    {
      var k :| k in rest;
      order := order + [k];
      rest := rest - {k};
    }
  }

  predicate KeyRight(f: string, e: Entry) {
    HasDirectory(f) && (IsPatch(f) <==> e.patch.Some?)
  }

  lemma DecidedKey(j: Job, fn: string)
    requires fn in j.tgt && !IsPatch(fn)
    ensures j.Of(fn).Ship? ==> KeyRight(j.Of(fn).key, j.Of(fn).entry)
  {
    KindIgnoresShipping(fn);
    KeySuffixes(fn);
    hide Destination;
    hide HasDirectory;
    hide IsPatch;
    hide IsEncrypted;
    hide FullKey;
    hide PatchKey;
  }

  /** Whatever the differ answers, keys have directories and patches are named as such. */
  lemma {:induction false} KeysAreRight(j: Job, order: seq<string>)
    requires forall fn :: fn in order ==> fn in j.tgt && !IsPatch(fn)
    ensures forall f :: f in j.All(order).updates ==> KeyRight(f, j.All(order).updates[f])
  {
    if order != [] {
      var last := order[|order| - 1];
      assert last in order;
      var front := order[..|order| - 1];
      KeysAreRight(j, front);
      DecidedKey(j, last);
      assert j.All(order) == Include(j.All(front), j.Of(last));
      hide Decide;
      hide KeyRight;
      hide IsPatch;
    }
  }

  lemma ClassIsRight(files: Files, k: Kind)
    requires forall f :: f in files ==> KeyRight(f, files[f])
    ensures PatchesMatchNames(OfKind(files, k)) && forall f :: f in files ==> HasDirectory(f)
  {
    hide KindOf;
    hide HasDirectory;
    hide IsPatch;
  }

  /**
   * OTA_VerifyEnd and then OTA_InstallEnd. Without a usable file map, without images, or for an old updater nothing is
   * emitted: the first returns early, and the dictionaries that the second walks are still empty.
   */
  method GenerateUpdate(apiVersion: int, j: Job, script: Script)
    returns (ok: bool, order: seq<string>, package: Images, p: Plan)
    requires forall fn :: fn in j.tgt ==> !IsPatch(fn)
    modifies script
    ensures ok <==> apiVersion >= 3 && j.filesmap != map[] && j.tgt != map[]
    ensures !ok ==> script.cmds == old(script.cmds)
    ensures ok ==> j.Names(order) && (forall fn :: fn in j.tgt ==> fn in order) && package == j.All(order).package
    ensures ok ==> Classified(p, j.All(order).updates) && p.Valid()
                   && script.cmds == old(script.cmds) + UpdateScript(p, j.All(order).largest, j.d.sha)
  {
    hide KindOf;
    hide HasDirectory;
    hide IsPatch;
    hide PrepareAll;
    order, package, p := [], map[], Plan(map[], map[], map[], [], [], []);
    ok := apiVersion >= 3 && j.filesmap != map[] && j.tgt != map[];
    if !ok {
      return;
    }
    order := WalkKeys(j.tgt);
    var updates, largest;
    updates, package, largest := PrepareUpdates(order, j.tgt, j.src, j.filesmap, j.d);
    assert Prepared(updates, package, largest) == j.All(order);
    KeysAreRight(j, order);
    ClassIsRight(updates, BootKind);
    ClassIsRight(updates, BinKind);
    ClassIsRight(updates, FwKind);
    var listed := WalkKeys(updates);
    var boot, bin, fw := SplitFwTypes(updates, listed);
    var bootOrder := WalkKeys(boot);
    var binOrder := WalkKeys(bin);
    var fwOrder := WalkKeys(fw);
    p := Plan(boot, bin, fw, bootOrder, binOrder, fwOrder);
    assert p.Valid() && Classified(p, updates);
    hide *;
    script.VerifyEnd(p, largest, j.d.sha);
    script.InstallEnd(p, j.d.sha);
    UpdateIs(p, largest, j.d.sha);
    Assoc(old(script.cmds), VerifyScript(p, largest, j.d.sha), InstallScript(p, j.d.sha));
  }
}
