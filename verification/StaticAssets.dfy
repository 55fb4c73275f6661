/**
 The renderer with its caches. Whatever files changed since an entry was made, each call
 returns what an evaluation without caches returns on the files as they are now.
 */
module StaticAssetsRenderer {
  import opened Wrappers
  import opened AssetModel
  import opened AssetTheory

  /** Wherever its fingerprints still match, this entry is what evaluation gives. */
  ghost predicate EntrySound(url: Path, entry: Rendered) {
    forall fs: Fs | WellFormed(fs) && Agrees(entry.deps, fs) :: EvalAsset(fs, url, {}) == Ok(entry)
  }

  ghost predicate BundleSound(moduleId: string, entry: Bundle) {
    forall fs: Fs | WellFormed(fs) && Agrees(entry.deps, fs) :: EvalBundle(fs, moduleId) == Ok(entry)
  }

  datatype Token = AssetToken(asset: Version) | BundleToken(bundle: BundleVersion) | OtherToken(text: string)

  datatype Policy = Revalidate | Immutable | Stale

  predicate IsTemplate(url: Path) {
    && |url| == 3 && url[0] == "modules" && IsModuleId(url[1])
    && (url[2] == "template.en.html" || url[2] == "template.uk.html" || url[2] == "template.ru.html")
  }

  /** Files that may also be named by the version of their module's bundle. */
  predicate InBundleNamespace(url: Path) {
    || IsTemplate(url)
    || (|url| == 3 && url[0] == "modules" && IsModuleId(url[1]) && HasSuffix(url[2], ".css") && |url[2]| > 4)
  }

  /** A request whose only version is the asset's own digest, for a file that may be immutable. */
  predicate NamesAsset(url: Path, versions: seq<Token>) {
    |versions| == 1 && versions[0].AssetToken? && (!HasExtension(url, ".html") || IsTemplate(url))
  }

  predicate NamesBundle(url: Path, versions: seq<Token>) {
    |versions| == 1 && versions[0].BundleToken? && InBundleNamespace(url)
  }

  /** `cachePolicy` on the current files, without caches. */
  function EvalPolicy(fs: Fs, url: Path, versions: seq<Token>): Result<Policy, Failure> {
    if versions == [] then Ok(Revalidate)
    else if NamesAsset(url, versions) then
      match EvalAsset(fs, url, {})
      case Err(f) => Err(f)
      case Ok(r) => Ok(if versions[0].asset == A2(r.body) then Immutable else Stale)
    else if NamesBundle(url, versions) then
      match EvalBundle(fs, url[1])
      case Err(f) => Err(f)
      case Ok(b) => Ok(if versions[0].bundle == M2(b.files) then Immutable else Stale)
    else Ok(Stale)
  }

  /** The versions a request names are those of its `v` parameters. */
  datatype Request = Request(url: Path, versions: seq<Token>)

  datatype Response = Page(body: seq<Piece>, immutable: bool) | Conflict | ServerError

  predicate MarkedImmutable(r: Response) {
    r.Page? && r.immutable
  }

  /** The answer on the current files, without caches: policy, then body. */
  function EvalResponse(fs: Fs, request: Request): Response {
    match EvalPolicy(fs, request.url, request.versions)
    case Err(_) => ServerError
    case Ok(policy) =>
      if policy.Stale? then Conflict
      else
        match EvalAsset(fs, request.url, {})
        case Err(_) => ServerError
        case Ok(r) => Page(r.body, policy.Immutable?)
  }

  /** Answers marked immutable for one asset version have one body, whatever the files were. */
  lemma OneBodyPerVersion(fs: Fs, fs': Fs, request: Request)
    requires NamesAsset(request.url, request.versions)
    requires MarkedImmutable(EvalResponse(fs, request)) && MarkedImmutable(EvalResponse(fs', request))
    ensures EvalResponse(fs, request).body == EvalResponse(fs', request).body
  {
  }

  lemma HistoryHasOneBody(files: seq<Fs>, requests: seq<Request>, responses: seq<Response>)
    requires |files| == |requests| == |responses|
    requires forall i | 0 <= i < |requests| :: responses[i] == EvalResponse(files[i], requests[i])
    ensures forall i, j | 0 <= i < |requests| && 0 <= j < |requests| && requests[i] == requests[j] ::
      NamesAsset(requests[i].url, requests[i].versions) && MarkedImmutable(responses[i]) && MarkedImmutable(responses[j]) ==>
      responses[i].body == responses[j].body
  {
    hide EvalResponse, NamesAsset;
    forall i, j | 0 <= i < |requests| && 0 <= j < |requests| && requests[i] == requests[j]
      && NamesAsset(requests[i].url, requests[i].versions) && MarkedImmutable(responses[i]) && MarkedImmutable(responses[j])
      ensures responses[i].body == responses[j].body
    {
      OneBodyPerVersion(files[i], files[j], requests[i]);
    }
  }

  /** One bundle walk: the files and fingerprints collected so far, filled in place. */
  class BundleWalk {
    var files: map<Path, seq<Chunk>>
    var deps: Deps

    ghost function Collected(): Bundle
      reads this
    {
      Bundle(files, deps)
    }

    constructor ()
      ensures Collected() == Bundle(map[], map[])
    {
      files, deps := map[], map[];
    }

    /** `add`. A missing path is reported before anything is recorded. */
    method Include(fs: Fs, p: Path) returns (failure: Option<Failure>)
      requires WellFormed(fs) && Agrees(deps, fs)
      modifies this
      ensures match Add(fs, p, old(Collected()))
              case Ok(b) => failure.None? && Collected() == b
              case Err(f) => failure == Some(f) && (f == Missing ==> Collected() == old(Collected()))
      decreases Unseen(fs, Collected()), 0, Below(fs, p), 1
    {
      AddRecords(fs, p, Collected());
      if p in files {
        return None;
      }
      failure := Locate(fs, p);
      if failure.Some? {
        return;
      }
      deps := deps[p := fs[p]];
      match fs[p] {
        case Dir(names) =>
          AddAllRecords(fs, p, names, Collected());
          failure := IncludeAll(fs, p, names);
        case File(chunks) =>
          assert p in Unseen(fs, old(Collected()));
          files := files[p := chunks];
          if Transformed(p) {
            AddRefsRecords(fs, p, chunks, Collected());
            failure := IncludeReferences(fs, p, chunks);
          }
      }
    }

    method IncludeAll(fs: Fs, dir: Path, names: seq<string>) returns (failure: Option<Failure>)
      requires WellFormed(fs) && Agrees(deps, fs) && dir in fs && fs[dir] == Dir(names)
      modifies this
      ensures match AddAll(fs, dir, names, old(Collected()))
              case Ok(b) => failure.None? && Collected() == b
              case Err(f) => failure == Some(f)
      decreases Unseen(fs, Collected()), 0, Below(fs, dir), 0
    {
      assert names[0..] == names;
      for i := 0 to |names|
        invariant Agrees(deps, fs) && old(files).Keys <= files.Keys
        invariant AddAll(fs, dir, names, old(Collected())) == AddAll(fs, dir, names[i..], Collected())
      {
        var child := dir + [names[i]];
        assert names[i..][1..] == names[i + 1..];
        assert dir in Below(fs, dir) && dir !in Below(fs, child);
        assert Below(fs, child) <= Below(fs, dir);
        AddRecords(fs, child, Collected());
        failure := Include(fs, child);
        if failure.Some? {
          return;
        }
      }
      assert names[|names|..] == [];
      failure := None;
    }

    /** Every reference in a file; those that are missing leave only a directory listing. */
    method IncludeReferences(fs: Fs, source: Path, chunks: seq<Chunk>) returns (failure: Option<Failure>)
      requires WellFormed(fs) && Agrees(deps, fs)
      modifies this
      ensures match AddRefs(fs, source, chunks, old(Collected()))
              case Ok(b) => failure.None? && Collected() == b
              case Err(f) => failure == Some(f)
      decreases Unseen(fs, Collected()), 1, fs.Keys * {}, 0
    {
      assert chunks[0..] == chunks;
      for i := 0 to |chunks|
        invariant Agrees(deps, fs) && old(files).Keys <= files.Keys
        invariant AddRefs(fs, source, chunks, old(Collected())) == AddRefs(fs, source, chunks[i..], Collected())
      {
        assert chunks[i..][1..] == chunks[i + 1..];
        if chunks[i].Ref? {
          var target := Canonical(chunks[i].specifier, source);
          AddRecords(fs, target, Collected());
          failure := Include(fs, target);
          if failure == Some(Missing) {
            MissingAgrees(fs, target);
            deps := deps + MissingDeps(fs, target);
          } else if failure.Some? {
            return;
          }
        }
      }
      assert chunks[|chunks|..] == [];
      failure := None;
    }
  }

  class StaticAssets {
    /** In production the files never change, and entries are not verified before reuse. */
    const immutable: bool
    var rendered: map<Path, Rendered>
    var bundles: map<string, Bundle>

    /** The caches are usable over these files. */
    ghost predicate Valid(fs: Fs)
      reads this
    {
      && (forall u | u in rendered :: EntrySound(u, rendered[u]))
      && (forall m | m in bundles :: BundleSound(m, bundles[m]))
      && (immutable ==>
            && (forall u | u in rendered :: Agrees(rendered[u].deps, fs))
            && (forall m | m in bundles :: Agrees(bundles[m].deps, fs)))
    }

    constructor (immutable: bool)
      ensures this.immutable == immutable && forall fs: Fs :: Valid(fs)
    {
      this.immutable := immutable;
      rendered, bundles := map[], map[];
    }

    /** Without the production flag, no change to the files can make the caches unusable. */
    lemma FilesMayChange(fs: Fs, fs': Fs)
      requires Valid(fs) && !immutable
      ensures Valid(fs')
    {
    }

    /** `valid`: recompute every fingerprint, or trust it in production. */
    method StillValid(fs: Fs, deps: Deps) returns (ok: bool)
      requires immutable ==> Agrees(deps, fs)
      ensures ok <==> Agrees(deps, fs)
    {
      if immutable {
        return true;
      }
      var rest := deps.Keys;
      while rest != {}
        invariant rest <= deps.Keys
        invariant forall p | p in deps && p !in rest :: p in fs && fs[p] == deps[p]
        decreases |rest|
      {
        var p :| p in rest;
        if p !in fs || fs[p] != deps[p] {
          return false;
        }
        rest := rest - {p};
      }
      return true;
    }

    /** `bundle`, with its cache. */
    method BundleOf(fs: Fs, moduleId: string) returns (r: Result<Bundle, Failure>)
      requires WellFormed(fs) && Valid(fs)
      modifies this`bundles
      ensures Valid(fs) && r == EvalBundle(fs, moduleId)
    {
      if IsModuleId(moduleId) && moduleId in bundles {
        var current := StillValid(fs, bundles[moduleId].deps);
        if current {
          return Ok(bundles[moduleId]);
        }
      }
      if !IsModuleId(moduleId) {
        return Err(InvalidModule);
      }
      var walk := new BundleWalk();
      var failure := walk.Include(fs, ModuleDir(moduleId));
      if failure.Some? {
        return Err(failure.value);
      }
      r := Ok(Bundle(walk.files, walk.deps));
      RememberBundle(fs, moduleId, r.value);
    }

    method RememberBundle(fs: Fs, moduleId: string, entry: Bundle)
      requires WellFormed(fs) && Valid(fs) && EvalBundle(fs, moduleId) == Ok(entry)
      modifies this`bundles
      ensures Valid(fs)
    {
      BundleRecords(fs, moduleId);
      forall fs': Fs | WellFormed(fs') && Agrees(entry.deps, fs') ensures EvalBundle(fs', moduleId) == Ok(entry) {
        BundleLocal(fs, fs', moduleId);
      }
      bundles := bundles[moduleId := entry];
    }

    /** `asset`, with its cache. `chain` lists the files being rendered above this one. */
    method Asset(fs: Fs, url: Path, visiting: set<Path>, ghost chain: seq<Path>) returns (r: Result<Rendered, Failure>)
      requires WellFormed(fs) && Tidy(fs, url) && Valid(fs) && Chain(fs, chain, url, visiting)
      modifies this
      ensures Valid(fs) && r == EvalAsset(fs, url, visiting)
      decreases fs.Keys - visiting, 0, 0
    {
      if url in visiting {
        return Err(Cyclic);
      }
      if url in rendered {
        var current := StillValid(fs, rendered[url].deps);
        if current {
          ContextFree(fs, url, chain, visiting);
          return Ok(rendered[url]);
        }
      }
      var where := Locate(fs, url);
      if where.Some? {
        return Err(where.value);
      }
      if fs[url].Dir? {
        return Err(IsADirectory);
      }
      var deps := RecordOf(fs, url) + RecordOf(fs, Parent(url));
      var body := VerbatimBody(fs[url].chunks);
      if Transformed(url) {
        assert url in fs.Keys - visiting && url !in fs.Keys - (visiting + {url});
        StartRendering(fs, chain, url, visiting);
        var inner := Transform(fs, url, visiting + {url}, chain + [url]);
        if inner.Err? {
          return Err(inner.error);
        }
        body := inner.value.body;
        deps := deps + inner.value.deps;
      }
      r := Ok(Rendered(body, deps));
      Remember(fs, url, visiting, r.value);
    }

    method Remember(fs: Fs, url: Path, ghost visiting: set<Path>, entry: Rendered)
      requires WellFormed(fs) && Tidy(fs, url) && Valid(fs)
      requires EvalAsset(fs, url, visiting) == Ok(entry)
      modifies this`rendered
      ensures Valid(fs)
    {
      VisitingShrinks(fs, url, visiting, {});
      AssetRecords(fs, url, {});
      forall fs': Fs | WellFormed(fs') && Agrees(entry.deps, fs') ensures EvalAsset(fs', url, {}) == Ok(entry) {
        AssetLocal(fs, fs', url, {});
      }
      rendered := rendered[url := entry];
    }

    /** `transform`: one pass over the chunks, collecting what they depended on. */
    method Transform(fs: Fs, url: Path, visiting: set<Path>, ghost chain: seq<Path>) returns (r: Result<Rendered, Failure>)
      requires WellFormed(fs) && Tidy(fs, url) && Valid(fs)
      requires Rendering(fs, chain, url, visiting)
      modifies this
      ensures Valid(fs) && r == EvalChunks(fs, url, fs[url].chunks, visiting)
      decreases fs.Keys - visiting, 3, 0
    {
      var chunks := fs[url].chunks;
      var body: seq<Piece> := [];
      var deps: Deps := map[];
      assert chunks[0..] == chunks;
      AfterNothing(EvalChunks(fs, url, chunks, visiting));
      for i := 0 to |chunks|
        invariant Valid(fs)
        invariant EvalChunks(fs, url, chunks, visiting)
               == After(Rendered(body, deps), EvalChunks(fs, url, chunks[i..], visiting))
      {
        var piece := TransformChunk(fs, url, chunks[i], visiting, chain);
        OneMoreChunk(fs, url, chunks[i..], visiting, Rendered(body, deps), chunks[i + 1..]);
        if piece.Err? {
          return Err(piece.error);
        }
        body := body + piece.value.body;
        deps := deps + piece.value.deps;
      }
      assert chunks[|chunks|..] == [] && body + [] == body && deps + map[] == deps;
      return Ok(Rendered(body, deps));
    }

    method TransformChunk(fs: Fs, url: Path, chunk: Chunk, visiting: set<Path>, ghost chain: seq<Path>)
      returns (r: Result<Rendered, Failure>)
      requires WellFormed(fs) && Tidy(fs, url) && Valid(fs)
      requires Rendering(fs, chain, url, visiting) && chunk in fs[url].chunks
      modifies this
      ensures Valid(fs) && r == EvalChunk(fs, url, chunk, visiting)
      decreases fs.Keys - visiting, 2, 0
    {
      hide WellFormed, Tidy, Dangling, EvalAsset, EvalBundle, Chain, Edge, Rendering, EntrySound, BundleSound, Canonical;
      match chunk
      case Text(_) => r := Ok(Rendered([Verbatim(chunk)], map[]));
      case Ref(kind, specifier) =>
        if !Rewrites(url, kind) {
          return Ok(Rendered([Verbatim(chunk)], map[]));
        }
        var target := Canonical(specifier, url);
        FollowReference(fs, chain, url, visiting, chunk);
        TidyBelow(fs, url, target);
        var a := Asset(fs, target, visiting, chain);
        match a {
          case Ok(rendering) => r := Ok(Rendered([Link(target, A2(rendering.body))], rendering.deps));
          case Err(f) =>
            if f == Missing {
              r := Ok(Rendered([Unversioned(specifier)], MissingDeps(fs, target)));
            } else {
              r := Err(f);
            }
        }
      case Placeholder(moduleId) =>
        if !HasExtension(url, ".js") {
          return Ok(Rendered([Verbatim(chunk)], map[]));
        }
        var b := BundleOf(fs, moduleId);
        match b {
          case Ok(bundle) => r := Ok(Rendered([BundleTag(M2(bundle.files))], bundle.deps));
          case Err(f) => r := Err(f);
        }
    }

    /** `render` and `version`: any request, over the files of that moment. */
    method Render(fs: Fs, url: Path) returns (r: Result<Rendered, Failure>)
      requires WellFormed(fs) && Tidy(fs, url) && Valid(fs)
      modifies this
      ensures Valid(fs) && r == EvalAsset(fs, url, {})
    {
      assert Chain(fs, [], url, {});
      r := Asset(fs, url, {}, []);
    }

    method CachePolicy(fs: Fs, url: Path, versions: seq<Token>) returns (r: Result<Policy, Failure>)
      requires WellFormed(fs) && Tidy(fs, url) && Valid(fs)
      modifies this
      ensures Valid(fs) && r == EvalPolicy(fs, url, versions)
    {
      if versions == [] {
        return Ok(Revalidate);
      }
      var accepted := false;
      if NamesAsset(url, versions) {
        var a := Render(fs, url);
        if a.Err? {
          return Err(a.error);
        }
        accepted := versions[0].asset == A2(a.value.body);
      }
      if !accepted && NamesBundle(url, versions) {
        var b := BundleOf(fs, url[1]);
        if b.Err? {
          return Err(b.error);
        }
        accepted := versions[0].bundle == M2(b.value.files);
      }
      return Ok(if accepted then Immutable else Stale);
    }

    /** One request: the policy first, and the body only if the policy lets it be served. */
    method Respond(fs: Fs, request: Request) returns (r: Response)
      requires WellFormed(fs) && Tidy(fs, request.url) && Valid(fs)
      modifies this
      ensures Valid(fs) && r == EvalResponse(fs, request)
    {
      var policy := CachePolicy(fs, request.url, request.versions);
      if policy.Err? { return ServerError; }
      if policy.value.Stale? { return Conflict; }
      var body := Render(fs, request.url);
      if body.Err? { return ServerError; }
      return Page(body.value.body, policy.value.Immutable?);
    }

    /**
     Any history: before each request the files may have become anything else (in production,
     nothing else). Each response is that of the files at that moment, and whatever responses
     were marked immutable for one url under one asset version have one body.
     */
    method Serve(files: seq<Fs>, requests: seq<Request>) returns (responses: seq<Response>)
      requires |files| == |requests|
      requires forall i | 0 <= i < |files| :: WellFormed(files[i]) && Tidy(files[i], requests[i].url) && Valid(files[i])
      requires immutable ==> forall i | 0 <= i < |files| :: files[i] == files[0]
      modifies this
      ensures |responses| == |requests|
      ensures forall i | 0 <= i < |requests| :: responses[i] == EvalResponse(files[i], requests[i])
      ensures forall i, j | 0 <= i < |requests| && 0 <= j < |requests| && requests[i] == requests[j] ::
        NamesAsset(requests[i].url, requests[i].versions) && MarkedImmutable(responses[i]) && MarkedImmutable(responses[j]) ==>
        responses[i].body == responses[j].body
    {
      hide WellFormed, Tidy, EvalResponse, EntrySound, BundleSound, NamesAsset;
      responses := [];
      for k := 0 to |requests|
        invariant |responses| == k
        invariant forall i | 0 <= i < k :: responses[i] == EvalResponse(files[i], requests[i])
        invariant forall i | 0 <= i < |files| :: Valid(files[i])
      {
        var r := Respond(files[k], requests[k]);
        responses := responses + [r];
        forall i | 0 <= i < |files| ensures Valid(files[i]) {
          if !immutable { FilesMayChange(files[k], files[i]); }
        }
      }
      HistoryHasOneBody(files, requests, responses);
    }
  }

  /** A finished prefix in front of the evaluation of the rest. */
  function After(prefix: Rendered, rest: Result<Rendered, Failure>): Result<Rendered, Failure> {
    match rest
    case Err(f) => Err(f)
    case Ok(r) => Ok(Rendered(prefix.body + r.body, prefix.deps + r.deps))
  }

  lemma AfterNothing(rest: Result<Rendered, Failure>)
    ensures After(Rendered([], map[]), rest) == rest
  {
    if rest.Ok? {
      assert [] + rest.value.body == rest.value.body && map[] + rest.value.deps == rest.value.deps;
    }
  }

  /** Evaluation of the rest after a prefix moves one chunk from the rest to the prefix. */
  lemma OneMoreChunk(fs: Fs, url: Path, chunks: seq<Chunk>, visiting: set<Path>, prefix: Rendered, rest: seq<Chunk>)
    requires chunks != [] && rest == chunks[1..]
    ensures var head := EvalChunk(fs, url, chunks[0], visiting);
      After(prefix, EvalChunks(fs, url, chunks, visiting)) ==
      (match head
       case Err(f) => Err(f)
       case Ok(piece) =>
         After(Rendered(prefix.body + piece.body, prefix.deps + piece.deps), EvalChunks(fs, url, rest, visiting)))
  {
    var head := EvalChunk(fs, url, chunks[0], visiting);
    if head.Ok? {
      AfterAssociates(prefix, head.value, EvalChunks(fs, url, rest, visiting));
    }
  }

  lemma AfterAssociates(prefix: Rendered, piece: Rendered, rest: Result<Rendered, Failure>)
    ensures After(prefix, After(piece, rest))
         == After(Rendered(prefix.body + piece.body, prefix.deps + piece.deps), rest)
  {
    if rest.Ok? {
      assert prefix.body + (piece.body + rest.value.body) == prefix.body + piece.body + rest.value.body;
      assert prefix.deps + (piece.deps + rest.value.deps) == prefix.deps + piece.deps + rest.value.deps;
    }
  }
}
