/** Which file a specifier names: dot segments by section 5.2.4 of RFC 3986, from the directory of the referring file. */
module AssetPaths {
  import opened Wrappers
  import opened AssetModel
  import opened AssetTheory
  import opened AssetVersions

  predicate PlainNames(names: seq<string>) {
    forall n | n in names :: n != "." && n != ".."
  }

  function Ups(k: nat): seq<string> {
    seq(k, _ => "..")
  }

  /** The directory k levels up; above the root there is only the root. */
  function Ancestor(dir: Path, k: nat): Path {
    if k <= |dir| then dir[..|dir| - k] else []
  }

  lemma {:induction false} NamesDescend(base: Path, names: seq<string>)
    requires PlainNames(names)
    ensures Resolve(base, names) == base + names
    decreases names
  {
    if names != [] {
      assert names[0] in names && forall n | n in names[1..] :: n in names;
      NamesDescend(base + [names[0]], names[1..]);
      assert names == [names[0]] + names[1..];
    }
  }

  /** k times `..` and then plain names: the names below the k-th ancestor, the root being its own parent. */
  lemma {:induction false} UpsThenNames(base: Path, k: nat, names: seq<string>)
    requires PlainNames(names)
    ensures Resolve(base, Ups(k) + names) == Ancestor(base, k) + names
    decreases k
  {
    if k == 0 {
      assert Ups(0) + names == names;
      NamesDescend(base, names);
    } else {
      var up := if base == [] then [] else Parent(base);
      assert Ups(k) + names == [".."] + (Ups(k - 1) + names);
      UpsThenNames(up, k - 1, names);
      assert Ancestor(base, k) == Ancestor(up, k - 1);
    }
  }

  lemma {:induction false} ResolveTwice(base: Path, a: seq<string>, b: seq<string>)
    ensures Resolve(base, a + b) == Resolve(Resolve(base, a), b)
    decreases a
  {
    if a == [] {
      assert a + b == b;
    } else {
      assert (a + b)[1..] == a[1..] + b;
      var up := if base == [] then [] else Parent(base);
      ResolveTwice(base, a[1..], b);
      ResolveTwice(up, a[1..], b);
      ResolveTwice(base + [a[0]], a[1..], b);
    }
  }

  /** A single dot changes nothing, and a name followed by two dots cancels, wherever they stand. */
  lemma DotsCancel(base: Path, a: seq<string>, name: string, b: seq<string>)
    requires name != "." && name != ".."
    ensures Resolve(base, a + ["."] + b) == Resolve(base, a + b)
    ensures Resolve(base, a + [name, ".."] + b) == Resolve(base, a + b)
  {
    var at := Resolve(base, a);
    ResolveTwice(base, a, b);
    ResolveTwice(base, a, ["."] + b);
    assert a + ["."] + b == a + (["."] + b) && (["."] + b)[1..] == b;
    ResolveTwice(base, a, [name, ".."] + b);
    assert a + [name, ".."] + b == a + ([name, ".."] + b);
    assert ([name, ".."] + b)[1..] == [".."] + b && ([".."] + b)[1..] == b;
    assert Parent(at + [name]) == at;
  }

  /** A relative specifier is read from the directory of its file, an absolute one from the root, whatever its file. */
  lemma CanonicalExact(source: Path, k: nat, names: seq<string>)
    requires source != [] && PlainNames(names)
    ensures Canonical(Specifier(false, Ups(k) + names), source) == Ancestor(Parent(source), k) + names
    ensures Canonical(Specifier(true, Ups(k) + names), source) == names
  {
    UpsThenNames(Parent(source), k, names);
    UpsThenNames([], k, names);
    assert Ancestor([], k) == [];
    assert [] + names == names;
  }

  /** The references each kind of file has: tags and imports in pages, imports, styles and probes in scripts, urls in styles. */
  predicate IsReferenceOf(url: Path, kind: RefKind) {
    || (HasExtension(url, ".html") && (kind.Tag? || kind.Import?))
    || (HasExtension(url, ".js") && (kind.Import? || kind.CssLiteral? || kind.Probe?))
    || (HasExtension(url, ".css") && kind.CssUrl?)
  }

  /**
   In a rendered file, such a reference has become a link to exactly the file it names, with
   the version that file has by itself, if that file renders; if there is no such file, the
   reference stands as it was written.
   */
  lemma ReferenceIsLinked(fs: Fs, url: Path, i: nat, kind: RefKind, absolute: bool, k: nat, names: seq<string>)
    requires WellFormed(fs) && EvalAsset(fs, url, {}).Ok? && IsReferenceOf(url, kind) && PlainNames(names)
    requires i < |fs[url].chunks| && fs[url].chunks[i] == Ref(kind, Specifier(absolute, Ups(k) + names))
    ensures var target := if absolute then names else Ancestor(Parent(url), k) + names;
      var body := EvalAsset(fs, url, {}).value.body;
      && |body| == |fs[url].chunks|
      && (EvalAsset(fs, target, {}).Ok? ==> body[i] == Link(target, A2(EvalAsset(fs, target, {}).value.body)))
      && (target !in fs ==> body[i] == Unversioned(Specifier(absolute, Ups(k) + names)))
  {
    hide WellFormed, EvalAsset, Ancestor, Ups, PlainNames, Canonical, IsReferenceOf, Rewrites, Transformed;
    ReferenceRewrites(url, kind);
    CanonicalExact(url, k, names);
    var target := Canonical(Specifier(absolute, Ups(k) + names), url);
    RenderedLength(fs, url);
    PieceAt(fs, url, i, target);
    if target !in fs { AbsentFails(fs, target); }
  }

  lemma ReferenceRewrites(url: Path, kind: RefKind)
    requires IsReferenceOf(url, kind)
    ensures url != [] && Transformed(url) && Rewrites(url, kind)
  {
  }

  lemma RenderedLength(fs: Fs, url: Path)
    requires EvalAsset(fs, url, {}).Ok? && url != [] && Transformed(url)
    ensures url in fs && fs[url].File? && |EvalAsset(fs, url, {}).value.body| == |fs[url].chunks|
  {
    assert {} + {url} == {url};
    BodyLength(fs, url, fs[url].chunks, {url});
  }

  lemma AbsentFails(fs: Fs, target: Path)
    requires target !in fs
    ensures EvalAsset(fs, target, {}).Err?
  {
  }

  lemma ReferenceIsEdge(fs: Fs, url: Path, i: nat, kind: RefKind, k: nat, names: seq<string>)
    requires url in fs && fs[url].File? && IsReferenceOf(url, kind) && PlainNames(names)
    requires i < |fs[url].chunks| && fs[url].chunks[i] == Ref(kind, Specifier(false, Ups(k) + names))
    ensures Edge(fs, url, Ancestor(Parent(url), k) + names)
  {
    hide Ancestor, Ups, PlainNames;
    CanonicalExact(url, k, names);
    assert fs[url].chunks[i] in fs[url].chunks;
  }

  /** Where nothing dangles, an existing file is always linked so. */
  lemma ExistingFileIsLinked(fs: Fs, url: Path, i: nat, kind: RefKind, k: nat, names: seq<string>)
    requires WellFormed(fs) && EvalAsset(fs, url, {}).Ok? && IsReferenceOf(url, kind) && PlainNames(names) && Tidy(fs, url)
    requires i < |fs[url].chunks| && fs[url].chunks[i] == Ref(kind, Specifier(false, Ups(k) + names))
    requires Ancestor(Parent(url), k) + names in fs
    ensures var target := Ancestor(Parent(url), k) + names;
      && EvalAsset(fs, target, {}).Ok?
      && |EvalAsset(fs, url, {}).value.body| == |fs[url].chunks|
      && EvalAsset(fs, url, {}).value.body[i] == Link(target, A2(EvalAsset(fs, target, {}).value.body))
  {
    hide Tidy, WellFormed, EvalAsset, Ancestor, Ups, PlainNames;
    var target := Ancestor(Parent(url), k) + names;
    RenderedIsFile(fs, url, {});
    ReferenceIsEdge(fs, url, i, kind, k, names);
    ReferenceRenders(fs, url, target);
    ReferenceIsLinked(fs, url, i, kind, false, k, names);
  }

  /** Everything else stands as it was written, except that a placeholder in a script becomes the version of its module. */
  lemma NothingElseIsRewritten(fs: Fs, url: Path, i: nat)
    requires WellFormed(fs) && EvalAsset(fs, url, {}).Ok? && i < |fs[url].chunks|
    ensures var body, chunk := EvalAsset(fs, url, {}).value.body, fs[url].chunks[i];
      && |body| == |fs[url].chunks|
      && (chunk.Text? || (chunk.Ref? && !IsReferenceOf(url, chunk.kind)) || (chunk.Placeholder? && !HasExtension(url, ".js")) ==>
            body[i] == Verbatim(chunk))
      && (chunk.Placeholder? && HasExtension(url, ".js") ==>
            EvalBundle(fs, chunk.moduleId).Ok? && body[i] == BundleTag(M2(EvalBundle(fs, chunk.moduleId).value.files)))
  {
    if Transformed(url) {
      assert {} + {url} == {url};
      BodyLength(fs, url, fs[url].chunks, {url});
      BodyAt(fs, url, fs[url].chunks, {url}, i);
    }
  }
}
