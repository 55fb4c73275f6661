/**
 Why the renderer's caches may be trusted: an evaluation depends on nothing but what it
 recorded, and it comes out the same whichever files are being visited above it.
 */
module AssetTheory {
  import opened Wrappers
  import opened AssetModel

  // ---- what was missing stays missing -----------------------------------------

  lemma {:induction false} NearestBelow(fs: Fs, p: Path)
    requires WellFormed(fs)
    ensures NearestExisting(fs, p) in fs && NearestExisting(fs, p) <= p
    ensures p !in fs ==>
      |NearestExisting(fs, p)| < |p| && NearestExisting(fs, p) + [p[|NearestExisting(fs, p)|]] !in fs
  {
    if p !in fs {
      NearestBelow(fs, Parent(p));
      var q := NearestExisting(fs, p);
      if |q| == |p| - 1 {
        assert q == Parent(p);
        assert q + [p[|q|]] == p;
      } else {
        assert Parent(p) !in fs;
        assert p[|q|] == Parent(p)[|q|];
      }
    }
  }

  /** Below a directory whose listing lacks the next name, nothing exists. */
  lemma {:induction false} NothingBelow(fs: Fs, dir: Path, p: Path)
    requires WellFormed(fs) && dir in fs && dir <= p && |dir| < |p|
    requires dir + [p[|dir|]] !in fs
    ensures p !in fs && NearestExisting(fs, p) == dir
    decreases |p|
  {
    hide WellFormed;
    if |p| == |dir| + 1 {
      assert p == dir + [p[|dir|]];
      assert Parent(p) == dir;
    } else {
      assert dir <= Parent(p);
      NothingBelow(fs, dir, Parent(p));
      ParentExists(fs, p);
    }
  }

  lemma ParentExists(fs: Fs, p: Path)
    requires WellFormed(fs) && p != []
    ensures p in fs ==> Parent(p) in fs
  {
  }

  /** The recorded listing is enough to know a path is still missing, and for the same reason. */
  lemma MissingLocal(fs: Fs, fs': Fs, p: Path)
    requires WellFormed(fs) && WellFormed(fs') && Locate(fs, p) == Some(Missing)
    requires Agrees(MissingDeps(fs, p), fs')
    ensures Locate(fs', p) == Some(Missing) && MissingDeps(fs', p) == MissingDeps(fs, p)
  {
    NearestBelow(fs, p);
    var dir := NearestExisting(fs, p);
    assert NearestExisting(fs, Parent(p)) == dir;
    assert fs[dir].Dir? && dir in MissingDeps(fs, p);
    var next := dir + [p[|dir|]];
    assert Name(next) == p[|dir|] && Parent(next) == dir;
    assert next !in fs';
    NothingBelow(fs', dir, p);
    assert NearestExisting(fs', Parent(p)) == dir;
  }

  // ---- bundles ----------------------------------------------------------------

  lemma UnionSplits(a: Deps, b: Deps, fs: Fs, fs': Fs)
    requires Agrees(a, fs) && Agrees(b, fs)
    ensures Agrees(a + b, fs)
    ensures Agrees(a + b, fs') ==> Agrees(a, fs') && Agrees(b, fs')
  {
    if Agrees(a + b, fs') {
      forall p | p in a ensures p in fs' && fs'[p] == a[p] {
        assert p in a + b && (a + b)[p] == a[p];
      }
    }
  }

  ghost predicate Submap(a: Deps, b: Deps) {
    forall p | p in a :: p in b && b[p] == a[p]
  }

  lemma MissingAgrees(fs: Fs, p: Path)
    ensures Agrees(MissingDeps(fs, p), fs)
  {
  }

  /** Recording only ever adds current stamps. */
  lemma {:induction false} AddRecords(fs: Fs, p: Path, acc: Bundle)
    requires WellFormed(fs) && Agrees(acc.deps, fs)
    ensures Add(fs, p, acc).Ok? ==>
      Agrees(Add(fs, p, acc).value.deps, fs) && Submap(acc.deps, Add(fs, p, acc).value.deps)
    ensures Add(fs, p, acc) == Err(Missing) <==> p !in acc.files && Locate(fs, p) == Some(Missing)
    decreases Unseen(fs, acc), 0, Below(fs, p), 1, 0
  {
    if p !in acc.files && Locate(fs, p).None? {
      var deps := acc.deps[p := fs[p]];
      match fs[p]
      case Dir(names) => AddAllRecords(fs, p, names, Bundle(acc.files, deps));
      case File(chunks) =>
        var acc' := Bundle(acc.files[p := chunks], deps);
        assert p in Unseen(fs, acc) && p !in Unseen(fs, acc');
        if Transformed(p) { AddRefsRecords(fs, p, chunks, acc'); }
    }
  }

  lemma {:induction false} AddAllRecords(fs: Fs, dir: Path, names: seq<string>, acc: Bundle)
    requires WellFormed(fs) && Agrees(acc.deps, fs) && dir in fs && fs[dir].Dir?
    requires forall n | n in names :: n in fs[dir].names
    ensures AddAll(fs, dir, names, acc).Ok? ==>
      Agrees(AddAll(fs, dir, names, acc).value.deps, fs) && Submap(acc.deps, AddAll(fs, dir, names, acc).value.deps)
    ensures AddAll(fs, dir, names, acc) != Err(Missing)
    decreases Unseen(fs, acc), 0, Below(fs, dir), 0, |names|
  {
    if names != [] {
      var child := dir + [names[0]];
      assert dir in Below(fs, dir) && dir !in Below(fs, child);
      assert Below(fs, child) <= Below(fs, dir);
      AddRecords(fs, child, acc);
      if Add(fs, child, acc).Ok? {
        AddAllRecords(fs, dir, names[1..], Add(fs, child, acc).value);
      }
    }
  }

  lemma {:induction false} AddRefsRecords(fs: Fs, source: Path, chunks: seq<Chunk>, acc: Bundle)
    requires WellFormed(fs) && Agrees(acc.deps, fs)
    ensures AddRefs(fs, source, chunks, acc).Ok? ==>
      Agrees(AddRefs(fs, source, chunks, acc).value.deps, fs)
      && Submap(acc.deps, AddRefs(fs, source, chunks, acc).value.deps)
    ensures AddRefs(fs, source, chunks, acc) != Err(Missing)
    decreases Unseen(fs, acc), 1, fs.Keys * {}, 0, |chunks|
  {
    if chunks != [] {
      if !chunks[0].Ref? {
        AddRefsRecords(fs, source, chunks[1..], acc);
      } else {
        var target := Canonical(chunks[0].specifier, source);
        AddRecords(fs, target, acc);
        match Add(fs, target, acc)
        case Ok(acc') => AddRefsRecords(fs, source, chunks[1..], acc');
        case Err(f) =>
          if f == Missing {
            MissingAgrees(fs, target);
            AddRefsRecords(fs, source, chunks[1..], Bundle(acc.files, acc.deps + MissingDeps(fs, target)));
          }
      }
    }
  }

  /** A bundle walk replays identically wherever everything it recorded is unchanged. */
  lemma {:induction false} AddLocal(fs: Fs, fs': Fs, p: Path, acc: Bundle)
    requires WellFormed(fs) && WellFormed(fs') && Agrees(acc.deps, fs)
    requires Add(fs, p, acc).Ok? && Agrees(Add(fs, p, acc).value.deps, fs')
    ensures Add(fs', p, acc) == Add(fs, p, acc)
    decreases Unseen(fs, acc), 0, Below(fs, p), 1, 0
  {
    if p !in acc.files {
      var deps := acc.deps[p := fs[p]];
      match fs[p]
      case Dir(names) =>
        AddAllRecords(fs, p, names, Bundle(acc.files, deps));
        assert p in deps;
        AddAllLocal(fs, fs', p, names, Bundle(acc.files, deps));
      case File(chunks) =>
        var acc' := Bundle(acc.files[p := chunks], deps);
        assert p in Unseen(fs, acc) && p !in Unseen(fs, acc');
        assert p in deps;
        if Transformed(p) {
          AddRefsRecords(fs, p, chunks, acc');
          AddRefsLocal(fs, fs', p, chunks, acc');
        }
    }
  }

  lemma {:induction false} AddAllLocal(fs: Fs, fs': Fs, dir: Path, names: seq<string>, acc: Bundle)
    requires WellFormed(fs) && WellFormed(fs') && Agrees(acc.deps, fs)
    requires dir in fs && fs[dir].Dir? && dir in fs' && forall n | n in names :: n in fs[dir].names
    requires AddAll(fs, dir, names, acc).Ok? && Agrees(AddAll(fs, dir, names, acc).value.deps, fs')
    ensures AddAll(fs', dir, names, acc) == AddAll(fs, dir, names, acc)
    decreases Unseen(fs, acc), 0, Below(fs, dir), 0, |names|
  {
    if names != [] {
      var child := dir + [names[0]];
      assert dir in Below(fs, dir) && dir !in Below(fs, child);
      assert Below(fs, child) <= Below(fs, dir);
      AddRecords(fs, child, acc);
      var acc' := Add(fs, child, acc).value;
      AddAllRecords(fs, dir, names[1..], acc');
      AddLocal(fs, fs', child, acc);
      AddAllLocal(fs, fs', dir, names[1..], acc');
    }
  }

  lemma {:induction false} AddRefsLocal(fs: Fs, fs': Fs, source: Path, chunks: seq<Chunk>, acc: Bundle)
    requires WellFormed(fs) && WellFormed(fs') && Agrees(acc.deps, fs)
    requires AddRefs(fs, source, chunks, acc).Ok? && Agrees(AddRefs(fs, source, chunks, acc).value.deps, fs')
    ensures AddRefs(fs', source, chunks, acc) == AddRefs(fs, source, chunks, acc)
    decreases Unseen(fs, acc), 1, fs.Keys * {}, 0, |chunks|
  {
    if chunks != [] {
      if !chunks[0].Ref? {
        AddRefsLocal(fs, fs', source, chunks[1..], acc);
      } else {
        var target := Canonical(chunks[0].specifier, source);
        AddRecords(fs, target, acc);
        match Add(fs, target, acc)
        case Ok(acc') =>
          AddRefsRecords(fs, source, chunks[1..], acc');
          AddLocal(fs, fs', target, acc);
          AddRefsLocal(fs, fs', source, chunks[1..], acc');
        case Err(_) =>
          var acc' := Bundle(acc.files, acc.deps + MissingDeps(fs, target));
          MissingAgrees(fs, target);
          AddRefsRecords(fs, source, chunks[1..], acc');
          MissingLocal(fs, fs', target);
          AddRefsLocal(fs, fs', source, chunks[1..], acc');
      }
    }
  }

  lemma BundleRecords(fs: Fs, moduleId: string)
    requires WellFormed(fs)
    ensures EvalBundle(fs, moduleId).Ok? ==> Agrees(EvalBundle(fs, moduleId).value.deps, fs)
    ensures EvalBundle(fs, moduleId) == Err(Missing) <==> IsModuleId(moduleId) && Locate(fs, ModuleDir(moduleId)) == Some(Missing)
  {
    AddRecords(fs, ModuleDir(moduleId), Bundle(map[], map[]));
  }

  lemma BundleLocal(fs: Fs, fs': Fs, moduleId: string)
    requires WellFormed(fs) && WellFormed(fs') && EvalBundle(fs, moduleId).Ok?
    requires Agrees(EvalBundle(fs, moduleId).value.deps, fs')
    ensures EvalBundle(fs', moduleId) == EvalBundle(fs, moduleId)
  {
    AddLocal(fs, fs', ModuleDir(moduleId), Bundle(map[], map[]));
  }

  // ---- references -------------------------------------------------------------

  /** This file has a rewritten reference to that path. */
  ghost predicate Edge(fs: Fs, source: Path, target: Path) {
    && source in fs && fs[source].File? && source != [] && Transformed(source)
    && exists c | c in fs[source].chunks ::
         c.Ref? && Rewrites(source, c.kind) && Canonical(c.specifier, source) == target
  }

  /** Each path references the next, and the last references `end`. */
  ghost predicate Walk(fs: Fs, walk: seq<Path>, end: Path) {
    walk == [] || (Edge(fs, walk[0], if |walk| == 1 then end else walk[1]) && Walk(fs, walk[1..], end))
  }

  ghost predicate Reaches(fs: Fs, source: Path, target: Path) {
    exists walk: seq<Path> :: walk != [] && walk[0] == source && Walk(fs, walk, target)
  }

  lemma {:induction false} JoinWalks(fs: Fs, first: seq<Path>, second: seq<Path>, middle: Path, end: Path)
    requires Walk(fs, first, middle) && Walk(fs, second, end) && second != [] && second[0] == middle
    ensures Walk(fs, first + second, end)
    decreases |first|
  {
    if first == [] {
      assert first + second == second;
    } else {
      JoinWalks(fs, first[1..], second, middle, end);
      assert (first + second)[1..] == first[1..] + second;
    }
  }

  lemma ReachesThrough(fs: Fs, source: Path, via: Path, target: Path)
    requires Edge(fs, source, via)
    ensures Reaches(fs, source, via)
    ensures Reaches(fs, via, target) ==> Reaches(fs, source, target)
  {
    assert Walk(fs, [source], via);
    if Reaches(fs, via, target) {
      var walk: seq<Path> :| walk != [] && walk[0] == via && Walk(fs, walk, target);
      JoinWalks(fs, [source], walk, via, target);
      assert ([source] + walk)[0] == source;
    }
  }

  /** A script with a placeholder for a module that is not there: expanding it fails with ENOENT. */
  ghost predicate Dangling(fs: Fs, p: Path) {
    && p in fs && fs[p].File? && HasExtension(p, ".js")
    && exists c | c in fs[p].chunks ::
         c.Placeholder? && IsModuleId(c.moduleId) && Locate(fs, ModuleDir(c.moduleId)) == Some(Missing)
  }

  /** No file that this one reaches by references holds such a placeholder. */
  ghost predicate Tidy(fs: Fs, url: Path) {
    forall p | Reaches(fs, url, p) :: !Dangling(fs, p)
  }

  lemma TidyBelow(fs: Fs, url: Path, target: Path)
    requires Tidy(fs, url) && Edge(fs, url, target)
    ensures Tidy(fs, target) && !Dangling(fs, target)
  {
    ReachesThrough(fs, url, target, target);
    forall p | Reaches(fs, target, p) ensures !Dangling(fs, p) {
      ReachesThrough(fs, url, target, p);
    }
  }

  // ---- assets: what was recorded is enough ------------------------------------

  lemma {:induction false} AssetRecords(fs: Fs, url: Path, visiting: set<Path>)
    requires WellFormed(fs)
    ensures EvalAsset(fs, url, visiting).Ok? ==> Agrees(EvalAsset(fs, url, visiting).value.deps, fs)
    decreases fs.Keys - visiting, 0, 0
  {
    if EvalAsset(fs, url, visiting).Ok? && Transformed(url) {
      assert url in fs.Keys - visiting && url !in fs.Keys - (visiting + {url});
      ChunksRecord(fs, url, fs[url].chunks, visiting + {url});
    }
  }

  lemma {:induction false} ChunkRecords(fs: Fs, url: Path, chunk: Chunk, visiting: set<Path>)
    requires WellFormed(fs)
    ensures EvalChunk(fs, url, chunk, visiting).Ok? ==> Agrees(EvalChunk(fs, url, chunk, visiting).value.deps, fs)
    decreases fs.Keys - visiting, 1, 0
  {
    match chunk
    case Text(_) =>
    case Ref(kind, specifier) => AssetRecords(fs, Canonical(specifier, url), visiting);
    case Placeholder(moduleId) => BundleRecords(fs, moduleId);
  }

  lemma {:induction false} ChunksRecord(fs: Fs, url: Path, chunks: seq<Chunk>, visiting: set<Path>)
    requires WellFormed(fs)
    ensures EvalChunks(fs, url, chunks, visiting).Ok? ==>
      Agrees(EvalChunks(fs, url, chunks, visiting).value.deps, fs)
    decreases fs.Keys - visiting, 2, |chunks|
  {
    if chunks != [] {
      ChunkRecords(fs, url, chunks[0], visiting);
      ChunksRecord(fs, url, chunks[1..], visiting);
    }
  }

  /** A finished evaluation evaluated each of its references under the larger visiting set. */
  lemma {:induction false} ChunksEvaluate(fs: Fs, url: Path, chunks: seq<Chunk>, visiting: set<Path>, c: Chunk)
    requires EvalChunks(fs, url, chunks, visiting).Ok? && c in chunks
    ensures EvalChunk(fs, url, c, visiting).Ok?
    decreases |chunks|
  {
    if c != chunks[0] {
      assert c in chunks[1..];
      ChunksEvaluate(fs, url, chunks[1..], visiting, c);
    }
  }

  /** `ENOENT` says that this very file is missing, or that one of its placeholders dangles. */
  lemma {:induction false} MissingMeans(fs: Fs, url: Path, visiting: set<Path>)
    requires WellFormed(fs)
    ensures url !in visiting && Locate(fs, url) == Some(Missing) ==> EvalAsset(fs, url, visiting) == Err(Missing)
    ensures EvalAsset(fs, url, visiting) == Err(Missing) ==>
      url !in visiting && (Locate(fs, url) == Some(Missing) || Dangling(fs, url))
  {
    if url !in visiting && Locate(fs, url).None? && fs[url].File? && Transformed(url) {
      ChunksMissing(fs, url, fs[url].chunks, visiting + {url});
    }
  }

  lemma {:induction false} ChunksMissing(fs: Fs, url: Path, chunks: seq<Chunk>, visiting: set<Path>)
    requires WellFormed(fs)
    requires url in fs && fs[url].File? && forall c | c in chunks :: c in fs[url].chunks
    ensures EvalChunks(fs, url, chunks, visiting) == Err(Missing) ==> Dangling(fs, url)
    decreases |chunks|
  {
    if chunks != [] {
      assert chunks[0] in fs[url].chunks;
      if EvalChunk(fs, url, chunks[0], visiting) == Err(Missing) {
        assert chunks[0].Placeholder? && HasExtension(url, ".js");
        BundleRecords(fs, chunks[0].moduleId);
      } else {
        ChunksMissing(fs, url, chunks[1..], visiting);
      }
    }
  }

  /** And a script with a dangling placeholder never renders. */
  lemma DanglingFails(fs: Fs, url: Path, visiting: set<Path>)
    requires WellFormed(fs) && Dangling(fs, url)
    ensures EvalAsset(fs, url, visiting).Err?
  {
    var c :| c in fs[url].chunks && c.Placeholder? && IsModuleId(c.moduleId) && Locate(fs, ModuleDir(c.moduleId)) == Some(Missing);
    BundleRecords(fs, c.moduleId);
    if EvalAsset(fs, url, visiting).Ok? {
      ChunksEvaluate(fs, url, fs[url].chunks, visiting + {url}, c);
    }
  }

  /** These chunks are some of this file's. */
  ghost predicate ChunksOf(fs: Fs, url: Path, chunks: seq<Chunk>) {
    && url in fs && fs[url].File? && url != [] && Transformed(url)
    && forall c | c in chunks :: c in fs[url].chunks
  }

  /** An asset renders identically wherever everything it recorded is unchanged. */
  lemma {:induction false} AssetLocal(fs: Fs, fs': Fs, url: Path, visiting: set<Path>)
    requires WellFormed(fs) && WellFormed(fs') && Tidy(fs, url)
    requires EvalAsset(fs, url, visiting).Ok? && Agrees(EvalAsset(fs, url, visiting).value.deps, fs')
    ensures EvalAsset(fs', url, visiting) == EvalAsset(fs, url, visiting)
    decreases fs.Keys - visiting, 0, 0
  {
    hide Tidy;
    var own := RecordOf(fs, url) + RecordOf(fs, Parent(url));
    if Transformed(url) {
      assert url in fs.Keys - visiting && url !in fs.Keys - (visiting + {url});
      var r := EvalChunks(fs, url, fs[url].chunks, visiting + {url}).value;
      ChunksRecord(fs, url, fs[url].chunks, visiting + {url});
      UnionSplits(own, r.deps, fs, fs');
      OwnLocal(fs, fs', url);
      ChunksLocal(fs, fs', url, fs[url].chunks, visiting + {url});
    } else {
      OwnLocal(fs, fs', url);
    }
  }

  lemma OwnLocal(fs: Fs, fs': Fs, url: Path)
    requires url != [] && url in fs && Parent(url) in fs
    requires Agrees(RecordOf(fs, url) + RecordOf(fs, Parent(url)), fs')
    ensures url in fs' && fs'[url] == fs[url] && Parent(url) in fs' && fs'[Parent(url)] == fs[Parent(url)]
  {
    var own := RecordOf(fs, url) + RecordOf(fs, Parent(url));
    assert url in own && Parent(url) in own;
  }

  lemma {:induction false} ChunksLocal(fs: Fs, fs': Fs, url: Path, chunks: seq<Chunk>, visiting: set<Path>)
    requires WellFormed(fs) && WellFormed(fs') && Tidy(fs, url) && ChunksOf(fs, url, chunks)
    requires EvalChunks(fs, url, chunks, visiting).Ok?
    requires Agrees(EvalChunks(fs, url, chunks, visiting).value.deps, fs')
    ensures EvalChunks(fs', url, chunks, visiting) == EvalChunks(fs, url, chunks, visiting)
    decreases fs.Keys - visiting, 2, |chunks|
  {
    hide Tidy, WellFormed;
    if chunks != [] {
      var head := EvalChunk(fs, url, chunks[0], visiting).value;
      var rest := EvalChunks(fs, url, chunks[1..], visiting).value;
      ChunkRecords(fs, url, chunks[0], visiting);
      ChunksRecord(fs, url, chunks[1..], visiting);
      UnionSplits(head.deps, rest.deps, fs, fs');
      ChunkLocal(fs, fs', url, chunks[0], visiting);
      ChunksLocal(fs, fs', url, chunks[1..], visiting);
    }
  }

  lemma {:induction false} ChunkLocal(fs: Fs, fs': Fs, url: Path, chunk: Chunk, visiting: set<Path>)
    requires WellFormed(fs) && WellFormed(fs') && Tidy(fs, url) && ChunksOf(fs, url, [chunk])
    requires EvalChunk(fs, url, chunk, visiting).Ok?
    requires Agrees(EvalChunk(fs, url, chunk, visiting).value.deps, fs')
    ensures EvalChunk(fs', url, chunk, visiting) == EvalChunk(fs, url, chunk, visiting)
    decreases fs.Keys - visiting, 1, 0
  {
    hide Tidy, WellFormed;
    match chunk
    case Text(_) =>
    case Ref(kind, specifier) =>
      if Rewrites(url, kind) {
        var target := Canonical(specifier, url);
        assert chunk in fs[url].chunks;
        TidyBelow(fs, url, target);
        if EvalAsset(fs, target, visiting).Ok? {
          AssetLocal(fs, fs', target, visiting);
        } else {
          MissingMeans(fs, target, visiting);
          MissingLocal(fs, fs', target);
          MissingMeans(fs', target, visiting);
        }
      }
    case Placeholder(moduleId) =>
      if HasExtension(url, ".js") {
        BundleLocal(fs, fs', moduleId);
      }
  }

  // ---- assets: the visiting set only ever reports real cycles ------------------

  /** A smaller visiting set changes nothing but cycles. */
  lemma {:induction false} VisitingShrinks(fs: Fs, url: Path, large: set<Path>, small: set<Path>)
    requires small <= large && EvalAsset(fs, url, large) != Err(Cyclic)
    ensures EvalAsset(fs, url, small) == EvalAsset(fs, url, large)
    decreases fs.Keys - large, 0, 0
  {
    if url !in large && Locate(fs, url).None? && fs[url].File? && Transformed(url) {
      assert url in fs.Keys - large && url !in fs.Keys - (large + {url});
      ChunksShrink(fs, url, fs[url].chunks, large + {url}, small + {url});
    }
  }

  lemma {:induction false} ChunksShrink(fs: Fs, url: Path, chunks: seq<Chunk>, large: set<Path>, small: set<Path>)
    requires small <= large && EvalChunks(fs, url, chunks, large) != Err(Cyclic)
    ensures EvalChunks(fs, url, chunks, small) == EvalChunks(fs, url, chunks, large)
    decreases fs.Keys - large, 2, |chunks|
  {
    if chunks != [] {
      if chunks[0].Ref? && Rewrites(url, chunks[0].kind) {
        VisitingShrinks(fs, Canonical(chunks[0].specifier, url), large, small);
      }
      if EvalChunk(fs, url, chunks[0], large).Ok? {
        ChunksShrink(fs, url, chunks[1..], large, small);
      }
    }
  }

  /** A larger visiting set changes nothing either, unless the file reaches an added path. */
  lemma {:induction false} VisitingGrows(fs: Fs, url: Path, small: set<Path>, large: set<Path>)
    requires small <= large && (url in large ==> url in small)
    requires forall x | x in large && x !in small :: !Reaches(fs, url, x)
    ensures EvalAsset(fs, url, large) == EvalAsset(fs, url, small)
    decreases fs.Keys - small, 0, 0
  {
    if url !in small && Locate(fs, url).None? && fs[url].File? && Transformed(url) {
      assert url in fs.Keys - small && url !in fs.Keys - (small + {url});
      ChunksGrow(fs, url, fs[url].chunks, small + {url}, large + {url});
    }
  }

  lemma {:induction false} ChunksGrow(fs: Fs, url: Path, chunks: seq<Chunk>, small: set<Path>, large: set<Path>)
    requires small <= large && ChunksOf(fs, url, chunks)
    requires forall x | x in large && x !in small :: !Reaches(fs, url, x)
    ensures EvalChunks(fs, url, chunks, large) == EvalChunks(fs, url, chunks, small)
    decreases fs.Keys - small, 2, |chunks|
  {
    if chunks != [] {
      if chunks[0].Ref? && Rewrites(url, chunks[0].kind) {
        var target := Canonical(chunks[0].specifier, url);
        assert chunks[0] in fs[url].chunks;
        assert Edge(fs, url, target);
        ReachesThrough(fs, url, target, target);
        forall x | x in large && x !in small ensures !Reaches(fs, target, x) {
          ReachesThrough(fs, url, target, x);
        }
        VisitingGrows(fs, target, small, large);
      }
      ChunksGrow(fs, url, chunks[1..], small, large);
    }
  }

  /** Inside a file that renders, each reference comes out as it would on its own: rendered or missing. */
  lemma ReferenceEvaluates(fs: Fs, url: Path, visiting: set<Path>, target: Path)
    requires EvalAsset(fs, url, visiting).Ok? && Edge(fs, url, target)
    ensures target !in visiting + {url}
    ensures EvalAsset(fs, target, visiting + {url}).Ok? || EvalAsset(fs, target, visiting + {url}) == Err(Missing)
    ensures EvalAsset(fs, target, visiting + {url}) == EvalAsset(fs, target, {})
  {
    var c :| c in fs[url].chunks && c.Ref? && Rewrites(url, c.kind) && Canonical(c.specifier, url) == target;
    ChunksEvaluate(fs, url, fs[url].chunks, visiting + {url}, c);
    VisitingShrinks(fs, target, visiting + {url}, {});
  }

  /** No walk from a file that renders leads back to it or to anything being visited. */
  lemma {:induction false} WalkLeavesVisited(fs: Fs, walk: seq<Path>, end: Path, visiting: set<Path>)
    requires WellFormed(fs) && walk != [] && Walk(fs, walk, end)
    requires Tidy(fs, walk[0]) && EvalAsset(fs, walk[0], visiting).Ok?
    ensures end !in visiting + {walk[0]}
    decreases |walk|
  {
    hide Tidy;
    var next := if |walk| == 1 then end else walk[1];
    ReferenceEvaluates(fs, walk[0], visiting, next);
    TidyBelow(fs, walk[0], next);
    if |walk| > 1 {
      MissingMeans(fs, next, visiting + {walk[0]});
      assert Edge(fs, next, if |walk| == 2 then end else walk[2]);
      WalkLeavesVisited(fs, walk[1..], end, visiting + {walk[0]});
    }
  }

  /** The files being visited, outermost first: each references the next, the last this url. */
  ghost predicate Chain(fs: Fs, chain: seq<Path>, url: Path, visiting: set<Path>) {
    Walk(fs, chain, url) && visiting == set p | p in chain
  }

  /** While this url's own chunks are being rendered it closes the chain. */
  ghost predicate Rendering(fs: Fs, chain: seq<Path>, url: Path, visiting: set<Path>) {
    && chain != [] && chain[|chain| - 1] == url && Walk(fs, chain[..|chain| - 1], url)
    && visiting == (set p | p in chain)
    && url != [] && url in fs && fs[url].File? && Transformed(url)
  }

  lemma StartRendering(fs: Fs, chain: seq<Path>, url: Path, visiting: set<Path>)
    requires Chain(fs, chain, url, visiting) && url != [] && url in fs && fs[url].File? && Transformed(url)
    ensures Rendering(fs, chain + [url], url, visiting + {url})
  {
    assert (chain + [url])[..|chain + [url]| - 1] == chain;
  }

  lemma FollowReference(fs: Fs, chain: seq<Path>, url: Path, visiting: set<Path>, c: Chunk)
    requires Rendering(fs, chain, url, visiting) && c in fs[url].chunks && c.Ref? && Rewrites(url, c.kind)
    ensures Chain(fs, chain, Canonical(c.specifier, url), visiting) && Edge(fs, url, Canonical(c.specifier, url))
  {
    var target := Canonical(c.specifier, url);
    assert Edge(fs, url, target);
    assert Walk(fs, [url], target);
    JoinWalks(fs, chain[..|chain| - 1], [url], url, target);
    assert chain[..|chain| - 1] + [url] == chain;
  }

  lemma {:induction false} WalkFrom(fs: Fs, walk: seq<Path>, end: Path, i: nat)
    requires Walk(fs, walk, end) && i <= |walk|
    ensures Walk(fs, walk[i..], end)
    decreases i
  {
    if i == 0 {
      assert walk[0..] == walk;
    } else {
      WalkFrom(fs, walk[1..], end, i - 1);
      assert walk[1..][i - 1..] == walk[i..];
    }
  }

  /** A file that renders on its own reaches nothing on a chain that reaches it. */
  lemma ChainIsNotReached(fs: Fs, url: Path, chain: seq<Path>, i: nat)
    requires WellFormed(fs) && Tidy(fs, url) && Walk(fs, chain, url) && i < |chain|
    requires EvalAsset(fs, url, {}).Ok?
    ensures !Reaches(fs, url, chain[i])
  {
    hide Tidy;
    if Reaches(fs, url, chain[i]) {
      var walk: seq<Path> :| walk != [] && walk[0] == url && Walk(fs, walk, chain[i]);
      WalkFrom(fs, chain, url, i);
      JoinWalks(fs, walk, chain[i..], chain[i], url);
      WalkLeavesVisited(fs, walk + chain[i..], url, {});
    }
  }

  /** So the context of an evaluation never matters to a file that renders on its own. */
  lemma ContextFree(fs: Fs, url: Path, chain: seq<Path>, visiting: set<Path>)
    requires WellFormed(fs) && Tidy(fs, url) && Chain(fs, chain, url, visiting) && url !in visiting
    requires EvalAsset(fs, url, {}).Ok?
    ensures EvalAsset(fs, url, visiting) == EvalAsset(fs, url, {})
  {
    hide Tidy;
    forall x | x in visiting ensures !Reaches(fs, url, x) {
      var i :| 0 <= i < |chain| && chain[i] == x;
      ChainIsNotReached(fs, url, chain, i);
    }
    VisitingGrows(fs, url, {}, visiting);
  }
}
