/** What a version promises about the bytes behind it, and where a cached body can go stale. */
module AssetVersions {
  import opened Wrappers
  import opened AssetModel
  import opened AssetTheory
  import opened StaticAssetsRenderer

  // ---- what a body holds ------------------------------------------------------

  lemma {:induction false} BodyAt(fs: Fs, url: Path, chunks: seq<Chunk>, visiting: set<Path>, i: nat)
    requires EvalChunks(fs, url, chunks, visiting).Ok? && i < |chunks|
    ensures |EvalChunks(fs, url, chunks, visiting).value.body| == |chunks|
    ensures EvalChunk(fs, url, chunks[i], visiting).Ok?
    ensures EvalChunks(fs, url, chunks, visiting).value.body[i] == EvalChunk(fs, url, chunks[i], visiting).value.body[0]
    decreases |chunks|
  {
    if |chunks| == 1 {
      assert chunks[1..] == [];
    } else {
      BodyAt(fs, url, chunks[1..], visiting, if i == 0 then 0 else i - 1);
    }
  }

  lemma {:induction false} BodyLength(fs: Fs, url: Path, chunks: seq<Chunk>, visiting: set<Path>)
    requires EvalChunks(fs, url, chunks, visiting).Ok?
    ensures |EvalChunks(fs, url, chunks, visiting).value.body| == |chunks|
    decreases |chunks|
  {
    if chunks != [] {
      BodyLength(fs, url, chunks[1..], visiting);
    }
  }

  /** What stands where a reference was: a versioned link if the file renders, the source text if it does not. */
  function Rewritten(fs: Fs, target: Path, specifier: Specifier): Piece {
    match EvalAsset(fs, target, {})
    case Ok(r) => Link(target, A2(r.body))
    case Err(_) => Unversioned(specifier)
  }

  predicate RewritesAt(fs: Fs, url: Path, i: nat, target: Path)
    requires url in fs && fs[url].File? && i < |fs[url].chunks|
  {
    var c := fs[url].chunks[i];
    c.Ref? && Rewrites(url, c.kind) && Canonical(c.specifier, url) == target
  }

  lemma PieceAt(fs: Fs, url: Path, i: nat, target: Path)
    requires EvalAsset(fs, url, {}).Ok? && Transformed(url) && i < |fs[url].chunks| && RewritesAt(fs, url, i, target)
    ensures i < |EvalAsset(fs, url, {}).value.body| && Edge(fs, url, target)
    ensures EvalAsset(fs, url, {}).value.body[i] == Rewritten(fs, target, fs[url].chunks[i].specifier)
  {
    assert {} + {url} == {url};
    assert fs[url].chunks[i] in fs[url].chunks;
    ReferenceEvaluates(fs, url, {}, target);
    BodyAt(fs, url, fs[url].chunks, {url}, i);
  }

  lemma EdgeAt(fs: Fs, url: Path, target: Path) returns (i: nat)
    requires Edge(fs, url, target)
    ensures i < |fs[url].chunks| && RewritesAt(fs, url, i, target)
  {
    var c :| c in fs[url].chunks && c.Ref? && Rewrites(url, c.kind) && Canonical(c.specifier, url) == target;
    i :| 0 <= i < |fs[url].chunks| && fs[url].chunks[i] == c;
  }

  /** A link in a rendered body stands where that file is referenced, with the version it has on its own. */
  lemma LinkIsReference(fs: Fs, url: Path, i: nat, target: Path, v: Version)
    requires EvalAsset(fs, url, {}).Ok? && Transformed(url)
    requires i < |EvalAsset(fs, url, {}).value.body| && EvalAsset(fs, url, {}).value.body[i] == Link(target, v)
    ensures Edge(fs, url, target) && EvalAsset(fs, target, {}).Ok? && v == A2(EvalAsset(fs, target, {}).value.body)
  {
    assert {} + {url} == {url};
    BodyLength(fs, url, fs[url].chunks, {url});
    BodyAt(fs, url, fs[url].chunks, {url}, i);
    assert fs[url].chunks[i] in fs[url].chunks;
    VisitingShrinks(fs, target, {url}, {});
  }

  // ---- one version, one body, hereditarily ------------------------------------

  /** Two renderings of a file with one version agree on every file it references that renders. */
  lemma SameVersionSameReference(fs: Fs, fs': Fs, url: Path, target: Path)
    requires EvalAsset(fs, url, {}).Ok? && EvalAsset(fs', url, {}).Ok?
    requires EvalAsset(fs, url, {}).value.body == EvalAsset(fs', url, {}).value.body
    requires Edge(fs, url, target) && EvalAsset(fs, target, {}).Ok?
    ensures Edge(fs', url, target) && EvalAsset(fs', target, {}).Ok?
    ensures EvalAsset(fs, target, {}).value.body == EvalAsset(fs', target, {}).value.body
  {
    var i := EdgeAt(fs, url, target);
    PieceAt(fs, url, i, target);
    LinkIsReference(fs', url, i, target, A2(EvalAsset(fs, target, {}).value.body));
  }

  /**
   A version names one body hereditarily: equal versions of a file mean equal bodies of
   every existing file reachable from it, which the other file system references the same way.
   */
  lemma {:induction false} VersionNamesWholeGraph(fs: Fs, fs': Fs, walk: seq<Path>, end: Path)
    requires WellFormed(fs) && walk != [] && Walk(fs, walk, end) && end in fs && Tidy(fs, walk[0])
    requires EvalAsset(fs, walk[0], {}).Ok? && EvalAsset(fs', walk[0], {}).Ok?
    requires A2(EvalAsset(fs, walk[0], {}).value.body) == A2(EvalAsset(fs', walk[0], {}).value.body)
    ensures EvalAsset(fs, end, {}).Ok? && EvalAsset(fs', end, {}).Ok?
    ensures EvalAsset(fs, end, {}).value.body == EvalAsset(fs', end, {}).value.body
    ensures Walk(fs', walk, end)
    decreases |walk|
  {
    hide Tidy, WellFormed;
    var next := if |walk| == 1 then end else walk[1];
    if |walk| > 1 { assert Edge(fs, next, if |walk| == 2 then end else walk[2]); }
    ReferenceRenders(fs, walk[0], next);
    SameVersionSameReference(fs, fs', walk[0], next);
    TidyBelow(fs, walk[0], next);
    if |walk| > 1 {
      VersionNamesWholeGraph(fs, fs', walk[1..], end);
    }
  }

  /** Where nothing dangles, an existing file renders wherever a file that renders references it. */
  lemma ReferenceRenders(fs: Fs, url: Path, target: Path)
    requires WellFormed(fs) && Tidy(fs, url) && EvalAsset(fs, url, {}).Ok? && Edge(fs, url, target) && target in fs
    ensures EvalAsset(fs, target, {}).Ok?
  {
    hide Tidy;
    ReferenceEvaluates(fs, url, {}, target);
    TidyBelow(fs, url, target);
    MissingMeans(fs, target, {});
  }

  // ---- what a bundle covers ---------------------------------------------------

  /** This path is accounted for: missing, a collected file, or a directory all of whose files are. */
  ghost predicate Covered(fs: Fs, p: Path, files: map<Path, seq<Chunk>>) {
    forall q | q in fs && p <= q && fs[q].File? :: q in files && files[q] == fs[q].chunks
  }

  ghost predicate ReferencesCovered(fs: Fs, source: Path, chunks: seq<Chunk>, files: map<Path, seq<Chunk>>) {
    forall c | c in chunks && c.Ref? :: Covered(fs, Canonical(c.specifier, source), files)
  }

  /** Collected files are what the file system holds. */
  ghost predicate Current(fs: Fs, files: map<Path, seq<Chunk>>) {
    forall p | p in files :: p in fs && fs[p] == File(files[p])
  }

  ghost predicate Grows(a: Bundle, b: Bundle) {
    forall p | p in a.files :: p in b.files && b.files[p] == a.files[p]
  }

  /** What was collected from `a` to `b` is current and has all its references covered. */
  ghost predicate Closes(fs: Fs, a: Bundle, b: Bundle) {
    && Grows(a, b) && Current(fs, b.files)
    && forall q | q in b.files && q !in a.files && Transformed(q) :: ReferencesCovered(fs, q, b.files[q], b.files)
  }

  lemma ReferencesGrow(fs: Fs, a: Bundle, b: Bundle, source: Path, chunks: seq<Chunk>)
    requires Grows(a, b) && ReferencesCovered(fs, source, chunks, a.files)
    ensures ReferencesCovered(fs, source, chunks, b.files)
  {
    forall c | c in chunks && c.Ref? ensures Covered(fs, Canonical(c.specifier, source), b.files) {
      CoveredGrows(fs, a, b, Canonical(c.specifier, source));
    }
  }

  lemma ClosesTwice(fs: Fs, a: Bundle, b: Bundle, c: Bundle)
    requires Closes(fs, a, b) && Closes(fs, b, c)
    ensures Closes(fs, a, c)
  {
    forall q | q in c.files && q !in a.files && Transformed(q) ensures ReferencesCovered(fs, q, c.files[q], c.files) {
      if q in b.files {
        ReferencesGrow(fs, b, c, q, b.files[q]);
      }
    }
  }

  lemma CoveredGrows(fs: Fs, a: Bundle, b: Bundle, p: Path)
    requires Grows(a, b) && Covered(fs, p, a.files)
    ensures Covered(fs, p, b.files)
  {
  }

  lemma NotFoundIsCovered(fs: Fs, p: Path, files: map<Path, seq<Chunk>>)
    requires WellFormed(fs) && p !in fs
    ensures Covered(fs, p, files)
  {
    forall q | q in fs && p <= q ensures false {
      PrefixExists(fs, q, p);
    }
  }

  lemma {:induction false} PrefixExists(fs: Fs, q: Path, p: Path)
    requires WellFormed(fs) && q in fs && p <= q
    ensures p in fs && (p != q ==> fs[p].Dir? && q[|p|] in fs[p].names)
    decreases |q|
  {
    if p != q {
      assert p <= Parent(q);
      PrefixExists(fs, Parent(q), p);
      if p == Parent(q) {
        assert Name(q) == q[|p|];
      } else {
        assert Parent(q)[|p|] == q[|p|];
      }
    }
  }

  lemma {:induction false} AddCovers(fs: Fs, p: Path, acc: Bundle)
    requires WellFormed(fs) && Add(fs, p, acc).Ok? && Current(fs, acc.files) && Agrees(acc.deps, fs)
    ensures Closes(fs, acc, Add(fs, p, acc).value) && Covered(fs, p, Add(fs, p, acc).value.files)
    decreases Unseen(fs, acc), 0, Below(fs, p), 1, 0
  {
    if p in acc.files {
      FileCoversItself(fs, p, acc.files);
    } else {
      var deps := acc.deps[p := fs[p]];
      match fs[p]
      case Dir(names) =>
        AddAllCovers(fs, p, names, Bundle(acc.files, deps));
        DirCovered(fs, p, names, Add(fs, p, acc).value.files);
      case File(chunks) =>
        var acc' := Bundle(acc.files[p := chunks], deps);
        assert p in Unseen(fs, acc) && p !in Unseen(fs, acc');
        if Transformed(p) { AddRefsCovers(fs, p, chunks, acc'); }
        FileCoversItself(fs, p, Add(fs, p, acc).value.files);
    }
  }

  lemma FileCoversItself(fs: Fs, p: Path, files: map<Path, seq<Chunk>>)
    requires WellFormed(fs) && p in files && p in fs && fs[p] == File(files[p])
    ensures Covered(fs, p, files)
  {
    forall q | q in fs && p <= q ensures q == p {
      PrefixExists(fs, q, p);
    }
  }

  lemma DirCovered(fs: Fs, dir: Path, names: seq<string>, files: map<Path, seq<Chunk>>)
    requires WellFormed(fs) && dir in fs && fs[dir] == Dir(names)
    requires forall n | n in names :: Covered(fs, dir + [n], files)
    ensures Covered(fs, dir, files)
  {
    forall q | q in fs && dir <= q && fs[q].File? ensures q in files && files[q] == fs[q].chunks {
      ChildOnTheWay(fs, q, dir);
      CoveredAt(fs, dir + [q[|dir|]], files, q);
    }
  }

  lemma ChildOnTheWay(fs: Fs, q: Path, dir: Path)
    requires WellFormed(fs) && q in fs && dir <= q && dir != q
    ensures dir in fs && fs[dir].Dir? && q[|dir|] in fs[dir].names && dir + [q[|dir|]] <= q
  {
    hide WellFormed;
    PrefixExists(fs, q, dir);
    assert q[..|dir| + 1] == dir + [q[|dir|]];
  }

  lemma CoveredAt(fs: Fs, p: Path, files: map<Path, seq<Chunk>>, q: Path)
    requires Covered(fs, p, files) && q in fs && p <= q && fs[q].File?
    ensures q in files && files[q] == fs[q].chunks
  {
  }

  lemma {:induction false} AddAllCovers(fs: Fs, dir: Path, names: seq<string>, acc: Bundle)
    requires WellFormed(fs) && dir in fs && AddAll(fs, dir, names, acc).Ok? && Current(fs, acc.files) && Agrees(acc.deps, fs)
    ensures var b := AddAll(fs, dir, names, acc).value;
      Closes(fs, acc, b) && forall n | n in names :: Covered(fs, dir + [n], b.files)
    decreases Unseen(fs, acc), 0, Below(fs, dir), 0, |names|
  {
    if names != [] {
      var child := dir + [names[0]];
      assert dir in Below(fs, dir) && dir !in Below(fs, child);
      assert Below(fs, child) <= Below(fs, dir);
      AddCovers(fs, child, acc);
      AddRecords(fs, child, acc);
      var acc' := Add(fs, child, acc).value;
      AddAllCovers(fs, dir, names[1..], acc');
      var b := AddAll(fs, dir, names, acc).value;
      ClosesTwice(fs, acc, acc', b);
      CoveredGrows(fs, acc', b, child);
    }
  }

  lemma {:induction false} AddRefsCovers(fs: Fs, source: Path, chunks: seq<Chunk>, acc: Bundle)
    requires WellFormed(fs) && AddRefs(fs, source, chunks, acc).Ok? && Current(fs, acc.files) && Agrees(acc.deps, fs)
    ensures var b := AddRefs(fs, source, chunks, acc).value;
      Closes(fs, acc, b) && ReferencesCovered(fs, source, chunks, b.files)
    decreases Unseen(fs, acc), 1, fs.Keys * {}, 0, |chunks|
  {
    if chunks != [] {
      var b := AddRefs(fs, source, chunks, acc).value;
      if !chunks[0].Ref? {
        AddRefsCovers(fs, source, chunks[1..], acc);
      } else {
        var target := Canonical(chunks[0].specifier, source);
        AddRecords(fs, target, acc);
        if Add(fs, target, acc).Ok? {
          var acc' := Add(fs, target, acc).value;
          AddCovers(fs, target, acc);
          AddRefsCovers(fs, source, chunks[1..], acc');
          ClosesTwice(fs, acc, acc', b);
          CoveredGrows(fs, acc', b, target);
        } else {
          MissingAgrees(fs, target);
          AddRefsCovers(fs, source, chunks[1..], Bundle(acc.files, acc.deps + MissingDeps(fs, target)));
          NotFoundIsCovered(fs, target, b.files);
        }
      }
      FirstCovered(fs, source, chunks, b.files);
    }
  }

  lemma FirstCovered(fs: Fs, source: Path, chunks: seq<Chunk>, files: map<Path, seq<Chunk>>)
    requires chunks != [] && ReferencesCovered(fs, source, chunks[1..], files)
    requires chunks[0].Ref? ==> Covered(fs, Canonical(chunks[0].specifier, source), files)
    ensures ReferencesCovered(fs, source, chunks, files)
  {
    forall c | c in chunks && c.Ref? ensures Covered(fs, Canonical(c.specifier, source), files) {
      if c != chunks[0] {
        assert c in chunks[1..];
      }
    }
  }

  /**
   A bundle owns every file of its module's directory with its exact content, and every
   file those reference, and so on. What it does not own are the modules that placeholders
   in these files name.
   */
  lemma BundleIsComplete(fs: Fs, moduleId: string)
    requires WellFormed(fs) && EvalBundle(fs, moduleId).Ok?
    ensures var files := EvalBundle(fs, moduleId).value.files;
      && Covered(fs, ModuleDir(moduleId), files)
      && (forall p | p in files :: p in fs && fs[p] == File(files[p]))
      && (forall p | p in files && Transformed(p) :: ReferencesCovered(fs, p, files[p], files))
  {
    AddCovers(fs, ModuleDir(moduleId), Bundle(map[], map[]));
  }

  predicate HoldsNoPlaceholder(files: map<Path, seq<Chunk>>) {
    forall p, c | p in files && c in files[p] :: !c.Placeholder?
  }

  /** The files of a bundle, as one file system holds them, with everything they reference. */
  ghost predicate Closed(fs: Fs, files: map<Path, seq<Chunk>>) {
    Current(fs, files) && forall p | p in files && Transformed(p) :: ReferencesCovered(fs, p, files[p], files)
  }

  /** Without placeholders, what the bundle owns decides every body in it. */
  lemma {:induction false} OwnedBody(fs: Fs, fs': Fs, files: map<Path, seq<Chunk>>, url: Path, visiting: set<Path>)
    requires WellFormed(fs) && WellFormed(fs') && Closed(fs, files) && Closed(fs', files) && HoldsNoPlaceholder(files)
    requires url in files && EvalAsset(fs, url, visiting).Ok? && EvalAsset(fs', url, visiting).Ok?
    ensures EvalAsset(fs, url, visiting).value.body == EvalAsset(fs', url, visiting).value.body
    decreases fs.Keys - visiting, 0, 0
  {
    hide WellFormed, ReferencesCovered;
    if Transformed(url) {
      assert url in fs.Keys - visiting && url !in fs.Keys - (visiting + {url});
      OwnedChunks(fs, fs', files, url, files[url], visiting + {url});
    }
  }

  lemma {:induction false} OwnedChunks(fs: Fs, fs': Fs, files: map<Path, seq<Chunk>>, url: Path, chunks: seq<Chunk>, visiting: set<Path>)
    requires WellFormed(fs) && WellFormed(fs') && Closed(fs, files) && Closed(fs', files) && HoldsNoPlaceholder(files)
    requires url in files && Transformed(url) && forall c | c in chunks :: c in files[url]
    requires EvalChunks(fs, url, chunks, visiting).Ok? && EvalChunks(fs', url, chunks, visiting).Ok?
    ensures EvalChunks(fs, url, chunks, visiting).value.body == EvalChunks(fs', url, chunks, visiting).value.body
    decreases fs.Keys - visiting, 2, |chunks|
  {
    hide WellFormed, Closed, HoldsNoPlaceholder;
    if chunks != [] {
      OwnedChunk(fs, fs', files, url, chunks[0], visiting);
      OwnedChunks(fs, fs', files, url, chunks[1..], visiting);
    }
  }

  lemma {:induction false} OwnedChunk(fs: Fs, fs': Fs, files: map<Path, seq<Chunk>>, url: Path, c: Chunk, visiting: set<Path>)
    requires WellFormed(fs) && WellFormed(fs') && Closed(fs, files) && Closed(fs', files) && HoldsNoPlaceholder(files)
    requires url in files && Transformed(url) && c in files[url]
    requires EvalChunk(fs, url, c, visiting).Ok? && EvalChunk(fs', url, c, visiting).Ok?
    ensures EvalChunk(fs, url, c, visiting).value.body == EvalChunk(fs', url, c, visiting).value.body
    decreases fs.Keys - visiting, 1, 0
  {
    hide WellFormed;
    if c.Ref? && Rewrites(url, c.kind) {
      var target := Canonical(c.specifier, url);
      OwnedTarget(fs, files, url, c, visiting);
      OwnedTarget(fs', files, url, c, visiting);
      if target in files { OwnedBody(fs, fs', files, target, visiting); }
    }
  }

  /** A reference out of a bundle renders exactly if the bundle owns the file. */
  lemma OwnedTarget(fs: Fs, files: map<Path, seq<Chunk>>, url: Path, c: Chunk, visiting: set<Path>)
    requires WellFormed(fs) && Closed(fs, files) && HoldsNoPlaceholder(files)
    requires url in files && Transformed(url) && c in files[url] && c.Ref? && Rewrites(url, c.kind)
    requires EvalChunk(fs, url, c, visiting).Ok?
    ensures EvalAsset(fs, Canonical(c.specifier, url), visiting).Ok? <==> Canonical(c.specifier, url) in files
  {
    var target := Canonical(c.specifier, url);
    assert ReferencesCovered(fs, url, files[url], files);
    MissingMeans(fs, target, visiting);
    if target in fs && fs[target].File? { CoveredAt(fs, target, files, target); }
  }

  lemma RenderedIsFile(fs: Fs, url: Path, visiting: set<Path>)
    requires EvalAsset(fs, url, visiting).Ok?
    ensures url in fs && fs[url].File?
  {
  }

  /** Answers marked immutable under one bundle version have one body, unless the bundle holds placeholders. */
  lemma BundleVersionNamesOneBody(fs: Fs, fs': Fs, request: Request, files: map<Path, seq<Chunk>>)
    requires WellFormed(fs) && WellFormed(fs') && HoldsNoPlaceholder(files)
    requires request.versions == [BundleToken(M2(files))]
    requires MarkedImmutable(EvalResponse(fs, request)) && MarkedImmutable(EvalResponse(fs', request))
    ensures EvalResponse(fs, request).body == EvalResponse(fs', request).body
  {
    hide WellFormed, Covered, EvalAsset, EvalBundle, ReferencesCovered, IsModuleId, HasSuffix;
    var url := request.url;
    BundleIsComplete(fs, url[1]);
    BundleIsComplete(fs', url[1]);
    assert ModuleDir(url[1]) <= url;
    RenderedIsFile(fs, url, {});
    CoveredAt(fs, ModuleDir(url[1]), files, url);
    OwnedBody(fs, fs', files, url, {});
  }

  // ---- where a cached body goes stale -----------------------------------------

  predicate HoldsPlaceholder(fs: Fs, p: Path) {
    p in fs && fs[p].File? && HasExtension(p, ".js") && exists c | c in fs[p].chunks :: c.Placeholder?
  }

  /** Below this file, a script that holds a placeholder holds one that dangles: no bundle is recorded. */
  ghost predicate NoBundleRecorded(fs: Fs, url: Path) {
    forall p | p == url || Reaches(fs, url, p) :: HoldsPlaceholder(fs, p) ==> Dangling(fs, p)
  }

  lemma NoBundleBelow(fs: Fs, url: Path, target: Path)
    requires NoBundleRecorded(fs, url) && Edge(fs, url, target)
    ensures NoBundleRecorded(fs, target)
  {
    ReachesThrough(fs, url, target, target);
    forall p | Reaches(fs, target, p) ensures Reaches(fs, url, p) {
      ReachesThrough(fs, url, target, p);
    }
  }

  /** An entry records nothing of a script that fails to expand its placeholders. */
  lemma {:induction false} DanglingIsNotRecorded(fs: Fs, url: Path, visiting: set<Path>, q: Path)
    requires WellFormed(fs) && NoBundleRecorded(fs, url) && Dangling(fs, q)
    requires EvalAsset(fs, url, visiting).Ok?
    ensures q !in EvalAsset(fs, url, visiting).value.deps
    decreases fs.Keys - visiting, 0, 0
  {
    hide NoBundleRecorded;
    if url == q { DanglingFails(fs, url, visiting); }
    if Transformed(url) {
      assert url in fs.Keys - visiting && url !in fs.Keys - (visiting + {url});
      NotRecordedByChunks(fs, url, fs[url].chunks, visiting, q);
    }
  }

  lemma {:induction false} NotRecordedByChunks(fs: Fs, url: Path, chunks: seq<Chunk>, visiting: set<Path>, q: Path)
    requires WellFormed(fs) && NoBundleRecorded(fs, url) && Dangling(fs, q) && ChunksOf(fs, url, chunks) && url !in visiting
    requires EvalAsset(fs, url, visiting).Ok? && EvalChunks(fs, url, chunks, visiting + {url}).Ok?
    ensures q !in EvalChunks(fs, url, chunks, visiting + {url}).value.deps
    decreases fs.Keys - (visiting + {url}), 2, |chunks|
  {
    hide NoBundleRecorded, Dangling;
    if chunks != [] {
      assert chunks[0] in fs[url].chunks;
      NotRecordedByChunk(fs, url, chunks[0], visiting, q);
      NotRecordedByChunks(fs, url, chunks[1..], visiting, q);
    }
  }

  lemma {:induction false} NotRecordedByChunk(fs: Fs, url: Path, c: Chunk, visiting: set<Path>, q: Path)
    requires WellFormed(fs) && NoBundleRecorded(fs, url) && Dangling(fs, q) && ChunksOf(fs, url, [c]) && url !in visiting
    requires EvalAsset(fs, url, visiting).Ok? && EvalChunk(fs, url, c, visiting + {url}).Ok?
    ensures q !in EvalChunk(fs, url, c, visiting + {url}).value.deps
    decreases fs.Keys - (visiting + {url}), 1, 0
  {
    assert c in [c];
    assert c in fs[url].chunks;
    match c
    case Text(_) =>
    case Ref(kind, specifier) =>
      if Rewrites(url, kind) {
        var target := Canonical(specifier, url);
        assert Edge(fs, url, target);
        NoBundleBelow(fs, url, target);
        if EvalAsset(fs, target, visiting + {url}).Ok? {
          DanglingIsNotRecorded(fs, target, visiting + {url}, q);
        } else {
          MissingMeans(fs, target, visiting + {url});
          ListingIsDirectory(fs, target);
        }
      }
    case Placeholder(_) =>
      if HasExtension(url, ".js") {
        assert HoldsPlaceholder(fs, url);
        DanglingFails(fs, url, visiting);
      }
  }

  /** What stands for a missing path is a directory listing. */
  lemma ListingIsDirectory(fs: Fs, p: Path)
    requires WellFormed(fs) && (p in fs || Locate(fs, p) == Some(Missing))
    ensures forall x | x in MissingDeps(fs, p) :: x in fs && fs[x].Dir?
  {
  }

  /** The last file on a walk that still renders: what it references next dangles. */
  lemma {:induction false} FirstDangling(fs: Fs, walk: seq<Path>, end: Path) returns (k: nat)
    requires WellFormed(fs) && walk != [] && Walk(fs, walk, end)
    requires EvalAsset(fs, walk[0], {}).Ok? && Dangling(fs, end)
    ensures k < |walk| && forall i | 0 <= i <= k :: EvalAsset(fs, walk[i], {}).Ok?
    ensures var next := if k + 1 == |walk| then end else walk[k + 1];
      Dangling(fs, next) && Edge(fs, walk[k], next)
    decreases |walk|
  {
    hide Dangling, EvalAsset, WellFormed;
    var next := if |walk| == 1 then end else walk[1];
    if Dangling(fs, next) {
      k := 0;
    } else {
      assert Edge(fs, next, if |walk| == 2 then end else walk[2]);
      ReferenceEvaluates(fs, walk[0], {}, next);
      MissingMeans(fs, next, {});
      var j := FirstDangling(fs, walk[1..], end);
      k := j + 1;
      forall i | 1 <= i <= k ensures EvalAsset(fs, walk[i], {}).Ok? {
        assert walk[i] == walk[1..][i - 1];
      }
    }
  }

  lemma {:induction false} SameAlong(fs: Fs, fs': Fs, walk: seq<Path>, end: Path, k: nat)
    requires Walk(fs, walk, end) && k < |walk| && forall i | 0 <= i <= k :: EvalAsset(fs, walk[i], {}).Ok?
    requires EvalAsset(fs', walk[0], {}).Ok? && EvalAsset(fs', walk[0], {}).value.body == EvalAsset(fs, walk[0], {}).value.body
    ensures EvalAsset(fs', walk[k], {}).Ok? && EvalAsset(fs', walk[k], {}).value.body == EvalAsset(fs, walk[k], {}).value.body
    decreases k
  {
    if k > 0 {
      assert EvalAsset(fs, walk[1], {}).Ok?;
      SameVersionSameReference(fs, fs', walk[0], walk[1]);
      forall i | 0 <= i <= k - 1 ensures EvalAsset(fs, walk[1..][i], {}).Ok? {
        assert walk[1..][i] == walk[i + 1];
      }
      SameAlong(fs, fs', walk[1..], end, k - 1);
    }
  }

  /**
   `reference` takes any ENOENT for a missing file, also one raised by a placeholder inside a
   file that exists. The entry then records nothing of that file, and stays valid when it changes.
   */
  lemma DanglingGoesStale(fs: Fs, url: Path, q: Path)
    requires WellFormed(fs) && EvalAsset(fs, url, {}).Ok? && NoBundleRecorded(fs, url)
    requires Reaches(fs, url, q) && Dangling(fs, q)
    ensures !EntrySound(url, EvalAsset(fs, url, {}).value)
  {
    hide NoBundleRecorded, WellFormed, Dangling, EvalAsset, EntrySound;
    var walk: seq<Path> :| walk != [] && walk[0] == url && Walk(fs, walk, q);
    var k := FirstDangling(fs, walk, q);
    var p, next := walk[k], if k + 1 == |walk| then q else walk[k + 1];
    var fs' := fs[next := File([])];
    EmptiedUnnoticed(fs, url, next);
    DanglingFails(fs, next, {});
    if EntrySound(url, EvalAsset(fs, url, {}).value) {
      SoundAgrees(fs, fs', url);
      SameAlong(fs, fs', walk, q, k);
      NotTheSamePiece(fs, fs', p, next);
    }
  }

  lemma SoundAgrees(fs: Fs, fs': Fs, url: Path)
    requires EvalAsset(fs, url, {}).Ok? && EntrySound(url, EvalAsset(fs, url, {}).value)
    requires WellFormed(fs') && Agrees(EvalAsset(fs, url, {}).value.deps, fs')
    ensures EvalAsset(fs', url, {}) == EvalAsset(fs, url, {})
  {
  }

  /** Emptying a dangling script changes nothing an entry recorded, and lets the script render. */
  lemma EmptiedUnnoticed(fs: Fs, url: Path, q: Path)
    requires WellFormed(fs) && EvalAsset(fs, url, {}).Ok? && NoBundleRecorded(fs, url) && Dangling(fs, q)
    ensures var fs' := fs[q := File([])];
      && WellFormed(fs') && Agrees(EvalAsset(fs, url, {}).value.deps, fs') && EvalAsset(fs', q, {}).Ok?
  {
    hide NoBundleRecorded, WellFormed, EvalAsset;
    EmptiedFile(fs, q, {});
    DanglingIsNotRecorded(fs, url, {}, q);
    AssetRecords(fs, url, {});
  }

  lemma NotTheSamePiece(fs: Fs, fs': Fs, url: Path, target: Path)
    requires Edge(fs, url, target) && url != target && fs' == fs[target := File([])]
    requires EvalAsset(fs, url, {}).Ok? && EvalAsset(fs', url, {}).Ok?
    requires EvalAsset(fs, target, {}).Err? && EvalAsset(fs', target, {}).Ok?
    ensures EvalAsset(fs, url, {}).value.body != EvalAsset(fs', url, {}).value.body
  {
    var i := EdgeAt(fs, url, target);
    PieceAt(fs, url, i, target);
    PieceAt(fs', url, i, target);
  }

  /**
   The exact condition, for files below which no bundle is recorded: the cached entry follows
   every change of the files if and only if no script it reaches holds a dangling placeholder.
   */
  lemma EntrySoundIff(fs: Fs, url: Path)
    requires WellFormed(fs) && EvalAsset(fs, url, {}).Ok? && NoBundleRecorded(fs, url)
    ensures EntrySound(url, EvalAsset(fs, url, {}).value) <==> Tidy(fs, url)
  {
    if Tidy(fs, url) {
      TidyIsSound(fs, url);
    } else {
      var q :| Reaches(fs, url, q) && Dangling(fs, q);
      DanglingGoesStale(fs, url, q);
    }
  }

  lemma TidyIsSound(fs: Fs, url: Path)
    requires WellFormed(fs) && EvalAsset(fs, url, {}).Ok? && Tidy(fs, url)
    ensures EntrySound(url, EvalAsset(fs, url, {}).value)
  {
    hide Tidy, WellFormed;
    var entry := EvalAsset(fs, url, {}).value;
    forall fs': Fs | WellFormed(fs') && Agrees(entry.deps, fs') ensures EvalAsset(fs', url, {}) == Ok(entry) {
      AssetLocal(fs, fs', url, {});
    }
  }

  /** Emptying a file leaves a file system in which that file renders. */
  lemma EmptiedFile(fs: Fs, source: Path, visiting: set<Path>)
    requires WellFormed(fs) && source in fs && fs[source].File? && source !in visiting
    ensures WellFormed(fs[source := File([])])
    ensures EvalAsset(fs[source := File([])], source, visiting).Ok?
  {
    hide EvalAsset;
    var fs' := fs[source := File([])];
    forall p | p in fs' && p != []
      ensures Parent(p) in fs' && fs'[Parent(p)].Dir? && Name(p) in fs'[Parent(p)].names
    {
      assert Parent(p) in fs && fs[Parent(p)].Dir?;
    }
    EmptyRenders(fs', source, visiting);
  }

  lemma EmptyRenders(fs: Fs, source: Path, visiting: set<Path>)
    requires source != [] && source in fs && fs[source] == File([]) && source !in visiting
    ensures EvalAsset(fs, source, visiting).Ok?
  {
  }

  // A page that loads a script whose placeholder names a module that is not there (yet).

  const PAGE: Path := ["page.html"]
  const SCRIPT: Path := ["script.js"]

  function Example(): Fs {
    map[[] := Dir(["page.html", "script.js"]),
        PAGE := File([Ref(Tag, Specifier(true, ["script.js"]))]),
        SCRIPT := File([Placeholder("view")])]
  }

  lemma ExampleNames()
    ensures Canonical(Specifier(true, ["script.js"]), PAGE) == SCRIPT
    ensures HasExtension(PAGE, ".html")
  {
    assert Resolve([], ["script.js"]) == Resolve([] + ["script.js"], ["script.js"][1..]) == SCRIPT;
  }

  lemma ExamplePage(r: Rendered)
    requires r == Rendered([Unversioned(Specifier(true, ["script.js"]))], MissingDeps(Example(), SCRIPT))
    ensures EvalChunks(Example(), PAGE, Example()[PAGE].chunks, {PAGE}) == Ok(r)
  {
    var fs := Example();
    var c := Ref(Tag, Specifier(true, ["script.js"]));
    ExampleScriptFails({PAGE});
    ExampleNames();
    hide EvalAsset, Canonical, HasExtension, MissingDeps;
    assert EvalChunk(fs, PAGE, c, {PAGE}) == Ok(r);
    assert fs[PAGE].chunks == [c] && [c][1..] == [];
    assert EvalChunks(fs, PAGE, [], {PAGE}) == Ok(Rendered([], map[]));
    assert r.body + [] == r.body && r.deps + map[] == r.deps;
  }

  /** Rendering the page succeeds, and the cached result no longer follows the script. */
  lemma StalePageExists()
    ensures WellFormed(Example()) && EvalAsset(Example(), PAGE, {}).Ok?
    ensures !EntrySound(PAGE, EvalAsset(Example(), PAGE, {}).value)
  {
    hide EvalChunks, WellFormed, EntrySound, NoBundleRecorded, Reaches, Dangling;
    var fs := Example();
    ExampleIsWellFormed();
    ExamplePage(Rendered([Unversioned(Specifier(true, ["script.js"]))], MissingDeps(fs, SCRIPT)));
    ExampleNames();
    assert {} + {PAGE} == {PAGE};
    ExampleDangles();
    ExampleReaches();
    DanglingGoesStale(fs, PAGE, SCRIPT);
  }

  lemma ExampleDangles()
    ensures Dangling(Example(), SCRIPT) && NoBundleRecorded(Example(), PAGE)
  {
    var fs, id := Example(), "view";
    ExampleModuleIsMissing();
    assert HasExtension(SCRIPT, ".js") && IsModuleId(id);
    assert Placeholder(id) in fs[SCRIPT].chunks;
    assert Dangling(fs, SCRIPT);
    forall p | HoldsPlaceholder(fs, p) ensures p == SCRIPT {
    }
  }

  lemma ExampleModuleIsMissing()
    ensures Locate(Example(), ModuleDir("view")) == Some(Missing)
  {
    var fs, dir := Example(), ModuleDir("view");
    assert Parent(dir) == ["modules"] && Parent(["modules"]) == [];
    assert NearestExisting(fs, dir) == NearestExisting(fs, ["modules"]) == [];
  }

  lemma ExampleReaches()
    ensures Reaches(Example(), PAGE, SCRIPT)
  {
    var fs := Example();
    var c := Ref(Tag, Specifier(true, ["script.js"]));
    ExampleNames();
    assert c in fs[PAGE].chunks;
    assert Edge(fs, PAGE, SCRIPT);
    assert [PAGE][1..] == [] && Walk(fs, [PAGE], SCRIPT);
  }

  lemma ExampleIsWellFormed()
    ensures WellFormed(Example())
  {
    assert [] + ["page.html"] == PAGE && [] + ["script.js"] == SCRIPT;
  }

  lemma ExampleScriptFails(visiting: set<Path>)
    requires SCRIPT !in visiting
    ensures EvalAsset(Example(), SCRIPT, visiting) == Err(Missing)
  {
    var fs := Example();
    assert HasExtension(SCRIPT, ".js");
    ExampleModuleIsMissing();
    var dir := ModuleDir("view");
    var id := "view";
    assert IsModuleId(id);
    var inner := visiting + {SCRIPT};
    assert EvalChunk(fs, SCRIPT, Placeholder(id), inner) == Err(Missing);
    assert EvalChunks(fs, SCRIPT, fs[SCRIPT].chunks, inner) == Err(Missing);
  }
}
