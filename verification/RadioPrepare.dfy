/** OTA_VerifyEnd's preparation: which files are shipped, as patches or in full, and of which class they are. */
module RadioPrepare {
  import opened Bytes
  import opened Text
  import opened Edify
  import opened RadioScript
  import opened RadioInstall
  import opened RadioPhases
  import opened RadioPlan
  import opened RadioVerify

  type FilesMap = map<string, string>
  type Images = map<string, Blob>

  const FULL_PREFIX := "firmware-update/"
  const PATCH_PREFIX := "patch/firmware-update/"

  /** What the preparation calls: hashing, the patch computation, and the "patch too big" test. */
  datatype Differ = Differ(sha: Blob -> string, diff: (Blob, Blob) -> Option<Blob>, tooBig: (nat, nat) -> bool)

  // ----- GetFileDestination

  function Lookup(m: FilesMap, k: string): Option<string> {
    if k in m then Some(m[k]) else None
  }

  function Destination(name: string, filesmap: FilesMap): (Option<string>, Option<string>) {
    var fn := if IsEncrypted(name) then name[..|name| - 4] else name;
    var backup := Lookup(filesmap, fn + ".bak");
    if fn in filesmap then (Some(filesmap[fn]), backup)
    else (Lookup(filesmap, Split(fn, '.')[0] + ".*"), backup)
  }

  /** An encrypted image goes where the plain one would go. */
  lemma DestinationIgnoresEncryption(fn: string, filesmap: FilesMap)
    requires !IsEncrypted(fn)
    ensures Destination(fn + ".enc", filesmap) == Destination(fn, filesmap)
  {
    var name := fn + ".enc";
    assert name[|name| - 4..] == ".enc" && name[..|name| - 4] == fn;
  }

  /** The name up to its first dot. */
  predicate IsStem(stem: string, name: string) {
    stem <= name && '.' !in stem && (|stem| == |name| || name[|stem|] == '.')
  }

  lemma {:induction false} StemIsFirstPiece(stem: string, name: string)
    requires IsStem(stem, name)
    ensures Split(name, '.')[0] == stem
  {
    if stem != [] {
      StemIsFirstPiece(stem[1..], name[1..]);
      assert stem == [stem[0]] + stem[1..];
    }
  }

  /**
   * Where a file goes, whether it is shipped as it is or encrypted: the place of its full name, else that of the
   * wildcard of its stem, else nowhere; and its backup where the name with `.bak` goes.
   */
  lemma DestinationsAreMapped(fn: string, name: string, stem: string, filesmap: FilesMap)
    requires fn == name + ".enc" || (fn == name && !IsEncrypted(name))
    requires IsStem(stem, name)
    ensures var (dest, bak) := Destination(fn, filesmap);
            && (name in filesmap ==> dest == Some(filesmap[name]))
            && (name !in filesmap && stem + ".*" in filesmap ==> dest == Some(filesmap[stem + ".*"]))
            && (dest.None? <==> name !in filesmap && stem + ".*" !in filesmap)
            && (if name + ".bak" in filesmap then bak == Some(filesmap[name + ".bak"]) else bak.None?)
  {
    StemIsFirstPiece(stem, name);
    if fn == name + ".enc" {
      assert fn[|fn| - 4..] == ".enc" && fn[..|fn| - 4] == name;
    }
  }

  // ----- the update list

  datatype Prepared = Prepared(updates: Files, package: Images, largest: nat)

  datatype Decision = Skip | Ship(key: string, data: Blob, entry: Entry)

  function FullKey(fn: string): string { FULL_PREFIX + fn }
  function PatchKey(fn: string): string { PATCH_PREFIX + fn + ".p" }

  function Full(fn: string, dest: string, bak: Option<string>, tf: Blob): Decision {
    Ship(FullKey(fn), tf, Entry(dest, bak, None))
  }

  /** What happens to one target file. */
  function Decide(fn: string, tf: Blob, src: Option<Images>, filesmap: FilesMap, d: Differ): Decision {
    var (dest, bak) := Destination(fn, filesmap);
    if dest.None? then Skip
    else if src.None? || fn !in src.value || IsEncrypted(fn) then Full(fn, dest.value, bak, tf)
    else
      var sf := src.value[fn];
      if d.sha(tf) == d.sha(sf) then Skip
      else
        match d.diff(tf, sf)
        case None => Skip
        case Some(patch) =>
          if d.tooBig(|patch|, |tf|) then Full(fn, dest.value, bak, tf)
          else Ship(PatchKey(fn), patch, Entry(dest.value, bak, Some(Patch(tf, sf))))
  }

  function Max(a: nat, b: nat): nat {
    if a > b then a else b
  }

  function Include(p: Prepared, c: Decision): Prepared {
    match c
    case Skip => p
    case Ship(key, data, entry) =>
      Prepared(p.updates[key := entry], p.package[key := data],
               if entry.patch.Some? then Max(p.largest, |entry.patch.value.source|) else p.largest)
  }

  function PrepareAll(order: seq<string>, tgt: Images, src: Option<Images>, filesmap: FilesMap, d: Differ): Prepared
    requires forall fn :: fn in order ==> fn in tgt
  {
    if order == [] then Prepared(map[], map[], 0)
    else
      var fn := order[|order| - 1];
      Include(PrepareAll(order[..|order| - 1], tgt, src, filesmap, d), Decide(fn, tgt[fn], src, filesmap, d))
  }

  /** The loop of OTA_VerifyEnd over the target files. */
  method PrepareUpdates(order: seq<string>, tgt: Images, src: Option<Images>, filesmap: FilesMap, d: Differ)
    returns (updates: Files, package: Images, largest: nat)
    requires forall fn :: fn in order ==> fn in tgt
    ensures Prepared(updates, package, largest) == PrepareAll(order, tgt, src, filesmap, d)
  {
    updates, package, largest := map[], map[], 0;
    var i := 0;
    while i < |order|
      invariant i <= |order|
      invariant Prepared(updates, package, largest) == PrepareAll(order[..i], tgt, src, filesmap, d)
    {
      var fn := order[i];
      assert order[..i + 1][..i] == order[..i];
      i := i + 1;
      var (dest, bak) := Destination(fn, filesmap);
      if dest.None? {
        continue;
      }
      var tf := tgt[fn];
      var full := src.None? || fn !in src.value || IsEncrypted(fn);
      if !full {
        var sf := src.value[fn];
        if d.sha(tf) == d.sha(sf) {
          continue;
        }
        var patch := d.diff(tf, sf);
        if patch.None? {
          continue;
        }
        full := d.tooBig(|patch.value|, |tf|);
        if !full {
          var f := PATCH_PREFIX + fn + ".p";
          package := package[f := patch.value];
          updates := updates[f := Entry(dest.value, bak, Some(Patch(tf, sf)))];
          largest := if |sf| > largest then |sf| else largest;
        }
      }
      if full {
        var f := FULL_PREFIX + fn;
        package := package[f := tf];
        updates := updates[f := Entry(dest.value, bak, None)];
      }
    }
    assert order[..|order|] == order;
  }

  // ----- what the update list guarantees

  /** The differ is right: a patch leads from source to target, and "no patch" means equal contents. */
  ghost predicate Faithful(d: Differ, apply: (Blob, Blob) -> Blob) {
    && CollisionFree(d.sha)
    && (forall tf, sf :: match d.diff(tf, sf) case Some(p) => apply(sf, p) == tf case None => tf == sf)
  }

  lemma KeysDiffer(fn: string, gn: string)
    requires fn != gn
    ensures FullKey(fn) != FullKey(gn) && PatchKey(fn) != PatchKey(gn) && FullKey(fn) != PatchKey(gn)
  {
    assert FullKey(fn)[0] == 'f' && PatchKey(gn)[0] == 'p';
    NameInKey(fn);
    NameInKey(gn);
  }

  lemma NameInKey(fn: string)
    ensures FullKey(fn)[|FULL_PREFIX|..] == fn
    ensures PatchKey(fn)[|PATCH_PREFIX|..|PatchKey(fn)| - 2] == fn
  {
  }

  lemma KeySuffixes(fn: string)
    ensures IsPatch(PatchKey(fn)) && (IsPatch(FullKey(fn)) <==> IsPatch(fn))
    ensures !IsEncrypted(PatchKey(fn)) && (IsEncrypted(FullKey(fn)) <==> IsEncrypted(fn))
  {
    assert PatchKey(fn)[|PatchKey(fn)| - 1] == 'p';
    SuffixBehindPrefix(FULL_PREFIX, fn, ".p");
    SuffixBehindPrefix(FULL_PREFIX, fn, ".enc");
  }

  lemma SuffixBehindPrefix(pre: string, s: string, t: string)
    requires pre != []
    ensures |t| <= |s| ==> (EndsWith(pre + s, t) <==> EndsWith(s, t))
    ensures |t| > |s| && pre[|pre| - 1] !in t ==> !EndsWith(pre + s, t)
  {
    if |t| <= |s| {
      assert (pre + s)[|pre + s| - |t|..] == s[|s| - |t|..];
    } else if EndsWith(pre + s, t) {
      assert (pre + s)[|pre| - 1] == t[|t| - 1 - |s|];
    }
  }

  ghost predicate IsKeyOf(f: string, fn: string) {
    f == FullKey(fn) || f == PatchKey(fn)
  }

  /** A shipped file: its name says whether it is a patch, and it leads to the target content. */
  lemma ShippedRight(fn: string, tf: Blob, src: Option<Images>, filesmap: FilesMap, d: Differ,
                     apply: (Blob, Blob) -> Blob)
    requires Faithful(d, apply) && !IsPatch(fn)
    ensures match Decide(fn, tf, src, filesmap, d)
            case Ship(f, data, e) =>
              && IsKeyOf(f, fn) && (IsPatch(f) <==> e.patch.Some?) && (IsEncrypted(f) <==> IsEncrypted(fn))
              && Destination(fn, filesmap) == (Some(e.dest), e.bak)
              && (if e.patch.Some? then
                    e.patch.value.target == tf && apply(e.patch.value.source, data) == tf
                    && src.Some? && fn in src.value && e.patch.value.source == src.value[fn]
                  else data == tf)
            case Skip =>
              Destination(fn, filesmap).0.None? || (src.Some? && fn in src.value && src.value[fn] == tf)
  {
    KeySuffixes(fn);
    hide IsPatch;
    hide IsEncrypted;
    hide Destination;
  }

  /**
   * What happens to a target file with a destination: nothing if the source has the same content; a patch if the
   * source has another content, the file is not encrypted, and the patch is not too big; else the whole file.
   */
  lemma ShippedAs(fn: string, tf: Blob, src: Option<Images>, filesmap: FilesMap, d: Differ, apply: (Blob, Blob) -> Blob)
    requires Faithful(d, apply) && Destination(fn, filesmap).0.Some?
    ensures var c := Decide(fn, tf, src, filesmap, d);
            var diffable := src.Some? && fn in src.value && !EndsWith(fn, ".enc");
            && (c.Skip? <==> diffable && (d.sha(tf) == d.sha(src.value[fn]) || d.diff(tf, src.value[fn]).None?))
            && (c.Skip? ==> src.value[fn] == tf)
            && (diffable && src.value[fn] == tf ==> c.Skip?)
            && (c.Ship? && c.entry.patch.Some? <==>
                  diffable && src.value[fn] != tf && !d.tooBig(|d.diff(tf, src.value[fn]).value|, |tf|))
            && (c.Ship? && c.entry.patch.Some? ==>
                  && c.key == "patch/firmware-update/" + fn + ".p"
                  && d.diff(tf, src.value[fn]) == Some(c.data)
                  && c.entry.patch.value.target == tf && c.entry.patch.value.source == src.value[fn])
            && (c.Ship? && c.entry.patch.None? ==> c.key == "firmware-update/" + fn && c.data == tf)
  {
    hide Destination;
    hide EndsWith;
  }

  ghost predicate NoRepeats(order: seq<string>) {
    forall i, j :: 0 <= i < j < |order| ==> order[i] != order[j]
  }

  /** What goes in for the preparation: the two sets of images, the file map, and the tools. */
  datatype Job = Job(tgt: Images, src: Option<Images>, filesmap: FilesMap, d: Differ)
  {
    function Of(fn: string): Decision
      requires fn in tgt
    {
      Decide(fn, tgt[fn], src, filesmap, d)
    }

    ghost predicate Names(order: seq<string>) {
      NoRepeats(order) && forall fn :: fn in order ==> fn in tgt && !IsPatch(fn)
    }

    function All(order: seq<string>): Prepared
      requires forall fn :: fn in order ==> fn in tgt
    {
      PrepareAll(order, tgt, src, filesmap, d)
    }
  }

  ghost predicate Listed(p: Prepared, c: Decision) {
    c.Ship? ==> c.key in p.updates && c.key in p.package && p.package[c.key] == c.data && p.updates[c.key] == c.entry
  }

  ghost predicate ComesFrom(p: Prepared, f: string, j: Job, fn: string)
    requires f in p.updates && f in p.package
  {
    fn in j.tgt && j.Of(fn) == Ship(f, p.package[f], p.updates[f])
  }

  lemma NamesFront(j: Job, order: seq<string>)
    requires j.Names(order) && order != []
    ensures var front, last := order[..|order| - 1], order[|order| - 1];
            && order == front + [last] && j.Names(front) && last in j.tgt && !IsPatch(last) && last !in front
            && j.All(order) == Include(j.All(front), j.Of(last))
  {
    hide IsPatch;
    hide Decide;
    assert order[|order| - 1] in order;
  }

  lemma DifferentKeys(j: Job, apply: (Blob, Blob) -> Blob, fn: string, gn: string)
    requires Faithful(j.d, apply) && fn in j.tgt && gn in j.tgt && fn != gn && !IsPatch(fn) && !IsPatch(gn)
    ensures j.Of(fn).Ship? && j.Of(gn).Ship? ==> j.Of(fn).key != j.Of(gn).key
  {
    ShippedRight(fn, j.tgt[fn], j.src, j.filesmap, j.d, apply);
    ShippedRight(gn, j.tgt[gn], j.src, j.filesmap, j.d, apply);
    KeysDiffer(fn, gn);
    KeysDiffer(gn, fn);
    hide Decide;
    hide FullKey;
    hide PatchKey;
    hide IsPatch;
    hide IsEncrypted;
    hide Destination;
  }

  /** The update list is exactly the shipped files, each under its own key. */
  lemma {:induction false} PreparedIsWhatIsShipped(j: Job, order: seq<string>, apply: (Blob, Blob) -> Blob)
    requires j.Names(order) && Faithful(j.d, apply)
    ensures j.All(order).updates.Keys == j.All(order).package.Keys
    ensures forall f :: f in j.All(order).updates ==> exists fn :: fn in order && ComesFrom(j.All(order), f, j, fn)
    ensures forall fn :: fn in order ==> Listed(j.All(order), j.Of(fn))
  {
    if order != [] {
      hide *;
      var front, last := order[..|order| - 1], order[|order| - 1];
      NamesFront(j, order);
      NamesAreTargets(j, order);
      PreparedIsWhatIsShipped(j, front, apply);
      forall fn | fn in front ensures j.Of(fn).Ship? && j.Of(last).Ship? ==> j.Of(fn).key != j.Of(last).key {
        DifferentKeys(j, apply, fn, last);
      }
      IncludeOrigins(j, front, last, j.All(front), j.All(order));
      IncludeListed(j, front, last, j.All(front), j.All(order));
    }
  }

  lemma NamesAreTargets(j: Job, order: seq<string>)
    requires j.Names(order)
    ensures forall fn :: fn in order ==> fn in j.tgt && !IsPatch(fn)
  {
  }

  lemma IncludeListed(j: Job, front: seq<string>, last: string, p: Prepared, q: Prepared)
    requires last in j.tgt && q == Include(p, j.Of(last)) && p.updates.Keys == p.package.Keys
    requires forall fn :: fn in front ==> fn in j.tgt && Listed(p, j.Of(fn))
    requires forall fn :: fn in front && j.Of(fn).Ship? && j.Of(last).Ship? ==> j.Of(fn).key != j.Of(last).key
    ensures q.updates.Keys == q.package.Keys
    ensures forall fn :: fn in front + [last] ==> fn in j.tgt && Listed(q, j.Of(fn))
  {
    hide Decide;
    forall fn | fn in front + [last] ensures fn in j.tgt && Listed(q, j.Of(fn)) {
      if fn != last {
        assert fn in front && Listed(p, j.Of(fn));
      }
    }
  }

  lemma IncludeOrigins(j: Job, front: seq<string>, last: string, p: Prepared, q: Prepared)
    requires last in j.tgt && q == Include(p, j.Of(last)) && p.updates.Keys == p.package.Keys
    requires forall f :: f in p.updates ==> exists fn :: fn in front && ComesFrom(p, f, j, fn)
    ensures forall f :: f in q.updates ==> exists fn :: fn in front + [last] && ComesFrom(q, f, j, fn)
  {
    hide Decide;
    var c := j.Of(last);
    assert last in front + [last];
    forall f | f in q.updates ensures exists fn :: fn in front + [last] && ComesFrom(q, f, j, fn) {
      if c.Ship? && c.key == f {
        assert ComesFrom(q, f, j, last);
      } else {
        var fn :| fn in front && ComesFrom(p, f, j, fn);
        assert fn in front + [last] && ComesFrom(q, f, j, fn);
      }
    }
  }

  /** `largest` is an upper bound of all patch sources, and is one of them unless it is zero. */
  lemma {:induction false} LargestSource(j: Job, order: seq<string>, apply: (Blob, Blob) -> Blob)
    requires j.Names(order) && Faithful(j.d, apply)
    ensures forall f :: f in j.All(order).updates && j.All(order).updates[f].patch.Some? ==>
              |j.All(order).updates[f].patch.value.source| <= j.All(order).largest
    ensures j.All(order).largest > 0 ==> exists f ::
              f in j.All(order).updates && HasSourceOf(j.All(order).updates[f], j.All(order).largest)
  {
    if order != [] {
      var front, last := order[..|order| - 1], order[|order| - 1];
      NamesFront(j, order);
      LargestSource(j, front, apply);
      KeyIsFresh(j, front, last, apply);
      var p, q, c := j.All(front), j.All(order), j.Of(last);
      hide PrepareAll;
      hide Decide;
      hide IsPatch;
      if q.largest > 0 {
        if c.Ship? && HasSourceOf(c.entry, q.largest) {
          assert c.key in q.updates && HasSourceOf(q.updates[c.key], q.largest);
        } else {
          assert q.largest == p.largest;
          var f :| f in p.updates && HasSourceOf(p.updates[f], p.largest);
          assert f in q.updates && HasSourceOf(q.updates[f], q.largest);
        }
      }
    }
  }

  predicate HasSourceOf(e: Entry, size: nat) {
    e.patch.Some? && |e.patch.value.source| == size
  }

  lemma KeyIsFresh(j: Job, front: seq<string>, last: string, apply: (Blob, Blob) -> Blob)
    requires j.Names(front) && Faithful(j.d, apply) && last in j.tgt && !IsPatch(last) && last !in front
    ensures j.Of(last).Ship? ==> j.Of(last).key !in j.All(front).updates
  {
    PreparedIsWhatIsShipped(j, front, apply);
    var p, c := j.All(front), j.Of(last);
    forall fn | fn in front ensures j.Of(fn).Ship? && c.Ship? ==> j.Of(fn).key != c.key {
      DifferentKeys(j, apply, fn, last);
    }
    hide PrepareAll;
    hide Decide;
    hide IsPatch;
  }

  // ----- SplitFwTypes

  datatype Kind = BootKind | BinKind | FwKind

  predicate IsWrapping(ext: string) {
    ext == "p" || ext == "enc"
  }

  /** The scan from the right over the dot-separated pieces; None when it runs off the left end. */
  function LastExtension(parts: seq<string>): Option<string> {
    if parts == [] then None
    else if !IsWrapping(parts[|parts| - 1]) then Some(parts[|parts| - 1])
    else LastExtension(parts[..|parts| - 1])
  }

  function KindOfExtension(ext: string): Kind {
    if ext == "mbn" then BootKind else if ext == "bin" then BinKind else FwKind
  }

  function KindOf(f: string): Option<Kind> {
    match LastExtension(Split(f, '.'))
    case Some(ext) => Some(KindOfExtension(ext))
    case None => None
  }

  /** The leftward loop; None stands for Python's IndexError. */
  method FindKind(f: string) returns (k: Option<Kind>)
    ensures k == KindOf(f)
  {
    var parts := Split(f, '.');
    var i := |parts|;
    assert parts[..i] == parts;
    while i > 0 && IsWrapping(parts[i - 1])
      invariant 0 <= i <= |parts| && LastExtension(parts[..i]) == LastExtension(parts)
    {
      assert parts[..i][..i - 1] == parts[..i - 1];
      i := i - 1;
    }
    if i == 0 {
      return None;
    }
    var ext := parts[i - 1];
    assert LastExtension(parts[..i]) == Some(ext);
    return Some(if ext == "mbn" then BootKind else if ext == "bin" then BinKind else FwKind);
  }

  /** The name without any `.p` and `.enc` at its end. */
  function Unwrapped(f: string): string {
    if EndsWith(f, ".p") then Unwrapped(f[..|f| - 2])
    else if EndsWith(f, ".enc") then Unwrapped(f[..|f| - 4])
    else f
  }

  lemma {:induction false} LastPieceEnds(f: string, c: char)
    requires |Split(f, c)| >= 2
    ensures EndsWith(f, [c] + Split(f, c)[|Split(f, c)| - 1])
  {
    var rest := Split(f[1..], c);
    if f[0] != c {
      LastPieceEnds(f[1..], c);
      EndsLater(f, [c] + rest[|rest| - 1]);
    } else if |rest| >= 2 {
      LastPieceEnds(f[1..], c);
      EndsLater(f, [c] + rest[|rest| - 1]);
    } else {
      WholePiece(f[1..], c);
      assert f == [c] + f[1..];
    }
  }

  lemma EndsLater(f: string, t: string)
    requires f != [] && EndsWith(f[1..], t)
    ensures EndsWith(f, t)
  {
  }

  lemma {:induction false} WholePiece(f: string, c: char)
    requires |Split(f, c)| == 1
    ensures Split(f, c)[0] == f
  {
    if f != [] {
      WholePiece(f[1..], c);
      assert f == [f[0]] + f[1..];
    }
  }

  /** A name ends in a dot and an extension exactly when that is the last of at least two pieces. */
  lemma EndsInPiece(f: string, ext: string)
    requires '.' !in ext
    ensures EndsWith(f, "." + ext) <==> |Split(f, '.')| >= 2 && Split(f, '.')[|Split(f, '.')| - 1] == ext
    ensures EndsWith(f, "." + ext) ==> |f| >= |ext| + 1 && Split(f, '.') == Split(f[..|f| - |ext| - 1], '.') + [ext]
  {
    if EndsWith(f, "." + ext) {
      var pre := f[..|f| - |ext| - 1];
      assert f == pre + ("." + ext) == pre + ['.'] + ext;
      SplitSnoc(pre, ext, '.');
    }
    if |Split(f, '.')| >= 2 {
      LastPieceEnds(f, '.');
    }
  }

  /** The class of a key from its name: what it ends in once `.p` and `.enc` are taken off. */
  lemma {:induction false} KindByName(f: string)
    requires HasDirectory(f)
    ensures KindOf(f) == Some(BootKind) <==> EndsWith(Unwrapped(f), ".mbn")
    ensures KindOf(f) == Some(BinKind) <==> EndsWith(Unwrapped(f), ".bin")
    ensures KindOf(f).Some?
    decreases |f|
  {
    hide Split;
    hide EndsWith;
    EndsInPiece(f, "p");
    EndsInPiece(f, "enc");
    EndsInPiece(f, "mbn");
    EndsInPiece(f, "bin");
    assert "." + "p" == ".p" && "." + "enc" == ".enc" && "." + "mbn" == ".mbn" && "." + "bin" == ".bin";
    if EndsWith(f, ".p") {
      WrappingIsIgnored(Split(f[..|f| - 2], '.'), "p");
      KindByName(f[..|f| - 2]);
    } else if EndsWith(f, ".enc") {
      WrappingIsIgnored(Split(f[..|f| - 4], '.'), "enc");
      KindByName(f[..|f| - 4]);
    } else {
      var parts := Split(f, '.');
      assert !IsWrapping(parts[|parts| - 1]);
      assert '/' !in "mbn" && '/' !in "bin";
    }
  }

  function OfKind(files: Files, k: Kind): Files {
    map f | f in files && KindOf(f) == Some(k) :: files[f]
  }

  /** Every key of the update list starts with a directory, so its first piece is never `p` or `enc`. */
  predicate HasDirectory(f: string) {
    '/' in Split(f, '.')[0]
  }

  lemma {:induction false} ScanStops(parts: seq<string>)
    requires |parts| > 0 && '/' in parts[0]
    ensures LastExtension(parts).Some?
  {
    if IsWrapping(parts[|parts| - 1]) {
      ScanStops(parts[..|parts| - 1]);
    }
  }

  ghost predicate Gathered(m: Files, files: Files, seen: seq<string>, k: Kind) {
    && (forall f :: f in m <==> f in seen && KindOf(f) == Some(k))
    && (forall f :: f in m ==> f in files && m[f] == files[f])
  }

  lemma GatherOne(m: Files, files: Files, seen: seq<string>, f: string, k: Kind)
    requires Gathered(m, files, seen, k) && f in files
    ensures Gathered(if KindOf(f) == Some(k) then m[f := files[f]] else m, files, seen + [f], k)
  {
    hide KindOf;
  }

  lemma GatheredAll(m: Files, files: Files, order: seq<string>, k: Kind)
    requires Gathered(m, files, order, k) && Enumerates(order, files)
    ensures m == OfKind(files, k)
  {
    hide KindOf;
  }

  /** SplitFwTypes: one pass over the update list fills three dictionaries. */
  method SplitFwTypes(files: Files, order: seq<string>) returns (boot: Files, bin: Files, fw: Files)
    requires Enumerates(order, files) && forall f :: f in files ==> HasDirectory(f)
    ensures boot == OfKind(files, BootKind) && bin == OfKind(files, BinKind) && fw == OfKind(files, FwKind)
    ensures forall f :: f in boot <==> f in files && EndsWith(Unwrapped(f), ".mbn")
    ensures forall f :: f in bin <==> f in files && EndsWith(Unwrapped(f), ".bin")
    ensures forall f :: f in fw <==>
              f in files && !EndsWith(Unwrapped(f), ".mbn") && !EndsWith(Unwrapped(f), ".bin")
  {
    hide *;
    StartGathering(files);
    boot, bin, fw := map[], map[], map[];
    assert order[..0] == [];
    for i := 0 to |order|
      invariant Gathered(boot, files, order[..i], BootKind)
      invariant Gathered(bin, files, order[..i], BinKind)
      invariant Gathered(fw, files, order[..i], FwKind)
    {
      var f := order[i];
      assert order[..i + 1] == order[..i] + [f];
      WalkedFile(order, files, i);
      KindKnown(f);
      GatherOne(boot, files, order[..i], f, BootKind);
      GatherOne(bin, files, order[..i], f, BinKind);
      GatherOne(fw, files, order[..i], f, FwKind);
      var k := FindKind(f);
      match k.value {
        case BootKind => boot := boot[f := files[f]];
        case BinKind => bin := bin[f := files[f]];
        case FwKind => fw := fw[f := files[f]];
      }
    }
    assert order[..|order|] == order;
    GatheredAll(boot, files, order, BootKind);
    GatheredAll(bin, files, order, BinKind);
    GatheredAll(fw, files, order, FwKind);
    ClassesByName(files);
  }

  lemma ClassesByName(files: Files)
    requires forall f :: f in files ==> HasDirectory(f)
    ensures forall f :: f in OfKind(files, BootKind) <==> f in files && EndsWith(Unwrapped(f), ".mbn")
    ensures forall f :: f in OfKind(files, BinKind) <==> f in files && EndsWith(Unwrapped(f), ".bin")
    ensures forall f :: f in OfKind(files, FwKind) <==>
              f in files && !EndsWith(Unwrapped(f), ".mbn") && !EndsWith(Unwrapped(f), ".bin")
  {
    forall f | f in files
      ensures KindOf(f) == Some(BootKind) <==> EndsWith(Unwrapped(f), ".mbn")
      ensures KindOf(f) == Some(BinKind) <==> EndsWith(Unwrapped(f), ".bin")
      ensures KindOf(f).Some?
    {
      KindByName(f);
    }
    hide KindOf;
    hide Unwrapped;
    hide HasDirectory;
  }

  lemma WalkedFile(order: seq<string>, files: Files, i: nat)
    requires Enumerates(order, files) && i < |order|
    ensures order[i] in files
  {
  }

  lemma StartGathering(files: Files)
    ensures forall k :: Gathered(map[], files, [], k)
  {
  }

  lemma KindKnown(f: string)
    requires HasDirectory(f)
    ensures KindOf(f).Some?
  {
    ScanStops(Split(f, '.'));
  }

  /** The three classes are disjoint and together are the update list. */
  lemma ClassesPartition(files: Files, f: string)
    requires forall g :: g in files ==> HasDirectory(g)
    ensures f in files <==> f in OfKind(files, BootKind) || f in OfKind(files, BinKind) || f in OfKind(files, FwKind)
    ensures !(f in OfKind(files, BootKind) && f in OfKind(files, BinKind))
    ensures !(f in OfKind(files, BootKind) && f in OfKind(files, FwKind))
    ensures !(f in OfKind(files, BinKind) && f in OfKind(files, FwKind))
    ensures forall k :: f in OfKind(files, k) ==> OfKind(files, k)[f] == files[f]
  {
    if f in files {
      KindKnown(f);
    }
  }

  lemma SplitSnoc(a: string, b: string, c: char)
    requires c !in b
    ensures Split(a + [c] + b, c) == Split(a, c) + [b]
  {
    SplitAtDelimiter(a, b, c);
    SplitOnePiece(b, c);
  }

  lemma {:induction false} SplitPrefix(pre: string, s: string, c: char)
    requires c !in pre
    ensures Split(pre + s, c) == [pre + Split(s, c)[0]] + Split(s, c)[1..]
  {
    if pre == [] {
      assert pre + s == s;
      assert [] + Split(s, c)[0] == Split(s, c)[0];
    } else {
      SplitPrefix(pre[1..], s, c);
      assert (pre + s)[1..] == pre[1..] + s;
      assert [pre[0]] + (pre[1..] + Split(s, c)[0]) == pre + Split(s, c)[0];
    }
  }

  /** Whatever directory is put in front, the same extension decides, or else it is a firmware file. */
  lemma {:induction false} DirectoryDoesNotMatter(a: string, b: string, rest: seq<string>)
    requires '/' in a && '/' in b
    ensures LastExtension([a] + rest).Some? && LastExtension([b] + rest).Some?
    ensures KindOfExtension(LastExtension([a] + rest).value) == KindOfExtension(LastExtension([b] + rest).value)
  {
    if rest == [] {
      assert [a] + rest == [a] && [b] + rest == [b];
    } else {
      var front := rest[..|rest| - 1];
      DirectoryDoesNotMatter(a, b, front);
      assert ([a] + rest)[..|rest|] == [a] + front && ([b] + rest)[..|rest|] == [b] + front;
    }
  }

  lemma WrappingIsIgnored(parts: seq<string>, ext: string)
    requires IsWrapping(ext)
    ensures LastExtension(parts + [ext]) == LastExtension(parts)
  {
    assert (parts + [ext])[..|parts|] == parts;
  }

  /** An image is of the same class whether it is shipped plain, encrypted, or as a patch. */
  lemma KindIgnoresShipping(fn: string)
    ensures KindOf(FullKey(fn)).Some?
    ensures KindOf(PatchKey(fn)) == KindOf(FullKey(fn)) == KindOf(FullKey(fn + ".enc"))
    ensures HasDirectory(FullKey(fn)) && HasDirectory(PatchKey(fn))
  {
    hide Split;
    hide LastExtension;
    var parts := Split(fn, '.');
    assert FULL_PREFIX[15] == PATCH_PREFIX[5] == '/';
    SplitPrefix(FULL_PREFIX, fn, '.');
    SplitPrefix(PATCH_PREFIX, fn, '.');
    SplitSnoc(PATCH_PREFIX + fn, "p", '.');
    SplitSnoc(FULL_PREFIX + fn, "enc", '.');
    assert PatchKey(fn) == PATCH_PREFIX + fn + ['.'] + "p";
    assert FullKey(fn + ".enc") == FULL_PREFIX + fn + ['.'] + "enc";
    WrappingIsIgnored(Split(PATCH_PREFIX + fn, '.'), "p");
    WrappingIsIgnored(Split(FULL_PREFIX + fn, '.'), "enc");
    assert '/' in FULL_PREFIX + parts[0] && '/' in PATCH_PREFIX + parts[0];
    DirectoryDoesNotMatter(FULL_PREFIX + parts[0], PATCH_PREFIX + parts[0], parts[1..]);
  }

  // ----- from the target files to a plan

  /** The package holds what was prepared, beside whatever else the update ships. */
  predicate Carries(t: Tools, prepared: Images) {
    forall f :: f in prepared ==> f in t.package && t.package[f] == prepared[f]
  }

  /** What the preparation promises about one key of the update list. */
  ghost predicate EntryRight(j: Job, order: seq<string>, t: Tools, f: string, e: Entry) {
    && f in t.package
    && (IsPatch(f) <==> e.patch.Some?)
    && (e.patch.Some? ==> t.apply(e.patch.value.source, t.package[f]) == e.patch.value.target)
    && (e.patch.Some? ==> FromSource(j, order, e.patch.value.source))
  }

  ghost predicate FromSource(j: Job, order: seq<string>, source: Blob) {
    exists fn :: fn in order && j.src.Some? && fn in j.src.value && j.src.value[fn] == source
  }

  lemma EntriesAreRight(j: Job, order: seq<string>, t: Tools)
    requires j.Names(order) && Faithful(j.d, t.apply) && Carries(t, j.All(order).package)
    ensures forall f :: f in j.All(order).updates ==> EntryRight(j, order, t, f, j.All(order).updates[f])
  {
    PreparedIsWhatIsShipped(j, order, t.apply);
    var q := j.All(order);
    hide PrepareAll;
    forall f | f in q.updates ensures EntryRight(j, order, t, f, q.updates[f]) {
      var fn :| fn in order && ComesFrom(q, f, j, fn);
      ShippedRight(fn, j.tgt[fn], j.src, j.filesmap, j.d, t.apply);
      hide Decide;
      hide IsPatch;
      hide IsEncrypted;
      hide Destination;
      hide IsKeyOf;
    }
  }

  ghost predicate Classified(p: Plan, files: Files) {
    && p.boot == OfKind(files, BootKind) && p.bin == OfKind(files, BinKind) && p.fw == OfKind(files, FwKind)
    && Enumerates(p.bootOrder, p.boot) && Enumerates(p.binOrder, p.bin) && Enumerates(p.fwOrder, p.fw)
  }

  lemma PlannedEntry(p: Plan, files: Files, u: Unit)
    requires Classified(p, files) && Planned(p, u)
    ensures u.file in files && u.patch == files[u.file].patch
  {
    hide KindOf;
    hide PlainName;
    hide FwDir;
  }

  /** The plan made of the three classes, walked in any order, is well formed and correctly shipped. */
  lemma PreparedPlan(j: Job, order: seq<string>, t: Tools, p: Plan)
    requires j.Names(order) && Faithful(j.d, t.apply) && Carries(t, j.All(order).package)
    requires Classified(p, j.All(order).updates)
    ensures p.Valid() && forall u :: Planned(p, u) ==> Shipped(t, u)
    ensures (forall fn :: fn in order && j.src.Some? && fn in j.src.value ==> |j.src.value[fn]| > 0) ==>
              (j.All(order).largest == 0 ==> forall u :: Planned(p, u) ==> u.patch.None?)
  {
    hide PrepareAll;
    hide KindOf;
    hide IsPatch;
    hide Planned;
    hide Enumerates;
    hide Decide;
    EntriesAreRight(j, order, t);
    LargestSource(j, order, t.apply);
    var files, largest := j.All(order).updates, j.All(order).largest;
    forall u | Planned(p, u) ensures u.file in files && u.patch == files[u.file].patch {
      PlannedEntry(p, files, u);
    }
  }

  /** Every target file with a destination is planned with its content as goal, or the source already has it. */
  lemma EveryTargetFileIsCovered(j: Job, order: seq<string>, t: Tools, p: Plan, fn: string) returns (u: Option<Unit>)
    requires j.Names(order) && Faithful(j.d, t.apply) && Carries(t, j.All(order).package) && fn in order
    requires Classified(p, j.All(order).updates)
    ensures var (dest, bak) := Destination(fn, j.filesmap);
            match u
            case None => dest.None? || (j.src.Some? && fn in j.src.value && j.src.value[fn] == j.tgt[fn])
            case Some(u) =>
              && Planned(p, u) && u.role != BackupCopy && Shipped(t, u) && IsKeyOf(u.file, fn)
              && Goal(t, u) == (if IsEncrypted(fn) then t.decrypt(j.tgt[fn]) else j.tgt[fn])
              && dest.Some?
              && u == (if u.role == FwFile then FwUnit(u.file, Entry(dest.value, bak, u.patch))
                       else RawUnit(u.role, u.file, Entry(dest.value, bak, u.patch), dest.value))
  {
    PreparedIsWhatIsShipped(j, order, t.apply);
    ShippedRight(fn, j.tgt[fn], j.src, j.filesmap, j.d, t.apply);
    PreparedPlan(j, order, t, p);
    var c, q := j.Of(fn), j.All(order);
    if c.Skip? {
      return None;
    }
    assert Listed(q, c);
    KindIgnoresShipping(fn);
    u := Some(UnitFor(c.key, c.entry));
    PlannedByKind(p, q.updates, c.key);
    hide PrepareAll;
    hide KindOf;
    hide Decide;
    hide IsPatch;
    hide IsEncrypted;
    hide Destination;
    hide Planned;
    hide FwUnit;
    hide Classified;
    UnitForIs(c.key, c.entry);
  }

  function UnitFor(f: string, e: Entry): Unit {
    match KindOf(f)
    case Some(BootKind) => RawUnit(MainCopy, f, e, e.dest)
    case Some(BinKind) => RawUnit(BinImage, f, e, e.dest)
    case _ => FwUnit(f, e)
  }

  lemma UnitForIs(f: string, e: Entry)
    ensures var u := UnitFor(f, e);
            && u.file == f && u.patch == e.patch && u.role != BackupCopy
            && u == (if u.role == FwFile then FwUnit(f, e) else RawUnit(u.role, f, e, e.dest))
  {
    hide KindOf;
    hide PlainName;
  }

  lemma PlannedByKind(p: Plan, files: Files, f: string)
    requires Classified(p, files) && f in files && KindOf(f).Some?
    ensures Planned(p, UnitFor(f, files[f]))
  {
    hide KindOf;
    hide PlainName;
    hide FwDir;
    hide Enumerates;
  }

  /** The keys that SplitFwTypes gets are such that its leftward scan stops. */
  lemma KeysHaveDirectories(j: Job, order: seq<string>, apply: (Blob, Blob) -> Blob)
    requires j.Names(order) && Faithful(j.d, apply)
    ensures forall f :: f in j.All(order).updates ==> HasDirectory(f)
  {
    PreparedIsWhatIsShipped(j, order, apply);
    var q := j.All(order);
    forall f | f in q.updates ensures HasDirectory(f) {
      var fn :| fn in order && ComesFrom(q, f, j, fn);
      ShippedRight(fn, j.tgt[fn], j.src, j.filesmap, j.d, apply);
      KindIgnoresShipping(fn);
    }
  }

  /**
   * The radio update as a whole, from the target files to the device: it either aborts in its verification with
   * nothing written, or puts every image in place; and it aborts exactly when a place to be patched
   * holds neither source nor target or the cache is too small.
   */
  lemma RadioUpdate(j: Job, order: seq<string>, t: Tools, p: Plan, st: State) returns (r: Option<State>)
    requires j.Names(order) && Faithful(j.d, t.apply) && Carries(t, j.All(order).package) && t.sha == j.d.sha
    requires forall fn :: fn in order && j.src.Some? && fn in j.src.value ==> |j.src.value[fn]| > 0
    requires Classified(p, j.All(order).updates)
    requires Separate(p) && forall u :: Planned(p, u) ==> TmpFree(u.loc) && OutsideMount(u)
    requires !st.skipping
    ensures p.Valid() && forall u :: Planned(p, u) ==> Shipped(t, u)
    ensures r == Run(t, st, UpdateScript(p, j.All(order).largest, t.sha))
    ensures r.Some? <==>
            DeviceReady(p, st.store) && (j.All(order).largest > 0 ==> j.All(order).largest <= t.cacheFree)
    ensures r.None? ==> Run(t, st, VerifyScript(p, j.All(order).largest, t.sha)).None?
    ensures r.None? ==> NothingWritten(t, st, UpdateScript(p, j.All(order).largest, t.sha))
    ensures r.Some? ==> forall u :: Planned(p, u) ==>
              if Goes(t, u) then Has(r.value.store, u.loc, Goal(t, u)) else Agree(r.value.store, st.store, u.loc)
  {
    PreparedPlan(j, order, t, p);
    hide PrepareAll;
    hide Classified;
    r := UpdateIsAllOrNothing(t, p, st, j.All(order).largest);
  }
}
