/**
 What a public file renders to, as a function of the file system alone. This is the
 renderer of lib/static-assets.js with its caches taken out: the same recursion, the
 same `visiting` set, the same failures. The digests are injective, so a version is
 modelled by what it digests.
 */
module AssetModel {
  import opened Wrappers

  /** Path components below the public root; the root is []. */
  type Path = seq<string>

  datatype RefKind = Import | Tag | CssLiteral | Probe | CssUrl

  /** The path inside a reference: from the root or from the referring file's directory. */
  datatype Specifier = Specifier(absolute: bool, segments: seq<string>)

  /** A source file as the reference patterns split it. */
  datatype Chunk =
    | Text(text: string)
    | Ref(kind: RefKind, specifier: Specifier)
    | Placeholder(moduleId: string)

  datatype Node = File(chunks: seq<Chunk>) | Dir(names: seq<string>)

  type Fs = map<Path, Node>

  /** Fingerprints of everything read: a file by its content, a directory by its listing. */
  type Deps = map<Path, Node>

  datatype Version = A2(body: seq<Piece>)

  datatype BundleVersion = M2(files: map<Path, seq<Chunk>>)

  /** A rendered body, piece by piece. */
  datatype Piece =
    | Verbatim(chunk: Chunk)
    | Unversioned(specifier: Specifier)
    | Link(target: Path, version: Version)
    | BundleTag(bundle: BundleVersion)

  datatype Failure = Missing | NotADirectory | Outside | IsADirectory | InvalidModule | Cyclic

  datatype Rendered = Rendered(body: seq<Piece>, deps: Deps)

  datatype Bundle = Bundle(files: map<Path, seq<Chunk>>, deps: Deps)

  // ---- the file system --------------------------------------------------------

  function Parent(p: Path): Path
    requires p != []
  {
    p[..|p| - 1]
  }

  function Name(p: Path): string
    requires p != []
  {
    p[|p| - 1]
  }

  ghost predicate WellFormed(fs: Fs) {
    && [] in fs && fs[[]].Dir?
    && (forall p | p in fs && p != [] :: Parent(p) in fs && fs[Parent(p)].Dir? && Name(p) in fs[Parent(p)].names)
    && (forall p, n | p in fs && fs[p].Dir? && n in fs[p].names :: p + [n] in fs)
  }

  function NearestExisting(fs: Fs, p: Path): Path {
    if p in fs || p == [] then p else NearestExisting(fs, Parent(p))
  }

  /** `locate`: None when the path resolves, otherwise why it does not. */
  function Locate(fs: Fs, p: Path): Option<Failure> {
    if p == [] then Some(Outside)
    else if p in fs then None
    else
      var nearest := NearestExisting(fs, p);
      if nearest in fs && fs[nearest].File? then Some(NotADirectory) else Some(Missing)
  }

  predicate Agrees(deps: Deps, fs: Fs) {
    forall p | p in deps :: p in fs && fs[p] == deps[p]
  }

  function RecordOf(fs: Fs, p: Path): Deps {
    if p in fs then map[p := fs[p]] else map[]
  }

  /** `recordMissing`: the listing of the nearest directory that exists. */
  function MissingDeps(fs: Fs, p: Path): Deps {
    if p == [] then map[] else RecordOf(fs, NearestExisting(fs, Parent(p)))
  }

  // ---- which references are rewritten -----------------------------------------

  predicate HasSuffix(s: string, suffix: string) {
    |s| >= |suffix| && s[|s| - |suffix|..] == suffix
  }

  predicate HasExtension(url: Path, extension: string) {
    url != [] && HasSuffix(Name(url), extension)
  }

  predicate Transformed(url: Path) {
    HasExtension(url, ".js") || HasExtension(url, ".html") || HasExtension(url, ".css")
  }

  predicate Rewrites(url: Path, kind: RefKind) {
    match kind
    case Tag => HasExtension(url, ".html")
    case Import => HasExtension(url, ".js") || HasExtension(url, ".html")
    case CssLiteral => HasExtension(url, ".js")
    case Probe => HasExtension(url, ".js")
    case CssUrl => HasExtension(url, ".css")
  }

  function Resolve(base: Path, segments: seq<string>): Path
    decreases segments
  {
    if segments == [] then base
    else if segments[0] == "." then Resolve(base, segments[1..])
    else if segments[0] == ".." then Resolve(if base == [] then [] else Parent(base), segments[1..])
    else Resolve(base + [segments[0]], segments[1..])
  }

  /** `canonical`: the pathname a specifier in this file resolves to. */
  function Canonical(s: Specifier, source: Path): Path {
    Resolve(if s.absolute || source == [] then [] else Parent(source), s.segments)
  }

  // ---- bundles ----------------------------------------------------------------

  ghost function Below(fs: Fs, p: Path): set<Path> {
    set q | q in fs && p <= q
  }

  ghost function Unseen(fs: Fs, acc: Bundle): set<Path> {
    fs.Keys - acc.files.Keys
  }

  /** `add`: depth-first over directories and references, each file once. */
  function Add(fs: Fs, p: Path, acc: Bundle): (r: Result<Bundle, Failure>)
    ensures r.Ok? ==> acc.files.Keys <= r.value.files.Keys
    decreases Unseen(fs, acc), 0, Below(fs, p), 1, 0
  {
    if p in acc.files then Ok(acc)
    else
      match Locate(fs, p)
      case Some(f) => Err(f)
      case None =>
        var deps := acc.deps[p := fs[p]];
        match fs[p]
        case Dir(names) => AddAll(fs, p, names, Bundle(acc.files, deps))
        case File(chunks) =>
          var acc' := Bundle(acc.files[p := chunks], deps);
          assert p in Unseen(fs, acc) && p !in Unseen(fs, acc');
          if Transformed(p) then AddRefs(fs, p, chunks, acc') else Ok(acc')
  }

  function AddAll(fs: Fs, dir: Path, names: seq<string>, acc: Bundle): (r: Result<Bundle, Failure>)
    requires dir in fs
    ensures r.Ok? ==> acc.files.Keys <= r.value.files.Keys
    decreases Unseen(fs, acc), 0, Below(fs, dir), 0, |names|
  {
    if names == [] then Ok(acc)
    else
      assert dir in Below(fs, dir) && dir !in Below(fs, dir + [names[0]]);
      assert Below(fs, dir + [names[0]]) <= Below(fs, dir);
      match Add(fs, dir + [names[0]], acc)
      case Err(f) => Err(f)
      case Ok(acc') => AddAll(fs, dir, names[1..], acc')
  }

  function AddRefs(fs: Fs, source: Path, chunks: seq<Chunk>, acc: Bundle): (r: Result<Bundle, Failure>)
    ensures r.Ok? ==> acc.files.Keys <= r.value.files.Keys
    decreases Unseen(fs, acc), 1, fs.Keys * {}, 0, |chunks|
  {
    if chunks == [] then Ok(acc)
    else if !chunks[0].Ref? then AddRefs(fs, source, chunks[1..], acc)
    else
      var target := Canonical(chunks[0].specifier, source);
      match Add(fs, target, acc)
      case Ok(acc') => AddRefs(fs, source, chunks[1..], acc')
      case Err(f) =>
        if f != Missing then Err(f)
        else AddRefs(fs, source, chunks[1..], Bundle(acc.files, acc.deps + MissingDeps(fs, target)))
  }

  function ModuleDir(moduleId: string): Path {
    ["modules", moduleId]
  }

  predicate IsModuleId(s: string) {
    s != "" && 'a' <= s[0] <= 'z' &&
    forall i | 0 <= i < |s| :: 'a' <= s[i] <= 'z' || '0' <= s[i] <= '9' || s[i] == '_' || s[i] == '-'
  }

  /** `bundle` without its cache. */
  function EvalBundle(fs: Fs, moduleId: string): Result<Bundle, Failure> {
    if IsModuleId(moduleId) then Add(fs, ModuleDir(moduleId), Bundle(map[], map[]))
    else Err(InvalidModule)
  }

  // ---- assets -----------------------------------------------------------------

  /** `asset` without its cache. */
  function EvalAsset(fs: Fs, url: Path, visiting: set<Path>): Result<Rendered, Failure>
    decreases fs.Keys - visiting, 0, 0
  {
    if url in visiting then Err(Cyclic)
    else
      match Locate(fs, url)
      case Some(f) => Err(f)
      case None =>
        if fs[url].Dir? then Err(IsADirectory)
        else
          var own := RecordOf(fs, url) + RecordOf(fs, Parent(url));
          assert url in fs.Keys - visiting && url !in fs.Keys - (visiting + {url});
          if Transformed(url) then
            match EvalChunks(fs, url, fs[url].chunks, visiting + {url})
            case Err(f) => Err(f)
            case Ok(r) => Ok(Rendered(r.body, own + r.deps))
          else Ok(Rendered(VerbatimBody(fs[url].chunks), own))
  }

  function VerbatimBody(chunks: seq<Chunk>): seq<Piece> {
    seq(|chunks|, i requires 0 <= i < |chunks| => Verbatim(chunks[i]))
  }

  /** `transform`: the chunks in order, and everything they depended on. */
  function EvalChunks(fs: Fs, url: Path, chunks: seq<Chunk>, visiting: set<Path>): Result<Rendered, Failure>
    decreases fs.Keys - visiting, 2, |chunks|
  {
    if chunks == [] then Ok(Rendered([], map[]))
    else
      match EvalChunk(fs, url, chunks[0], visiting)
      case Err(f) => Err(f)
      case Ok(head) =>
        match EvalChunks(fs, url, chunks[1..], visiting)
        case Err(f) => Err(f)
        case Ok(rest) => Ok(Rendered(head.body + rest.body, head.deps + rest.deps))
  }

  /** `reference` for a rewritten reference, `bundle` for a placeholder, otherwise the source text. */
  function EvalChunk(fs: Fs, url: Path, chunk: Chunk, visiting: set<Path>): (r: Result<Rendered, Failure>)
    ensures r.Ok? ==> |r.value.body| == 1
    decreases fs.Keys - visiting, 1, 0
  {
    match chunk
    case Text(_) => Ok(Rendered([Verbatim(chunk)], map[]))
    case Ref(kind, specifier) =>
      if !Rewrites(url, kind) then Ok(Rendered([Verbatim(chunk)], map[]))
      else
        var target := Canonical(specifier, url);
        (match EvalAsset(fs, target, visiting)
         case Ok(r) => Ok(Rendered([Link(target, A2(r.body))], r.deps))
         case Err(f) =>
           if f == Missing then Ok(Rendered([Unversioned(specifier)], MissingDeps(fs, target)))
           else Err(f))
    case Placeholder(moduleId) =>
      if !HasExtension(url, ".js") then Ok(Rendered([Verbatim(chunk)], map[]))
      else
        match EvalBundle(fs, moduleId)
        case Ok(b) => Ok(Rendered([BundleTag(M2(b.files))], b.deps))
        case Err(f) => Err(f)
  }
}
