/**
 * The extra resources of the installer build: for each bundled instrument
 * extension, the catalog entry with that id and the highest version, and the
 * list of files copied into the installer in a fixed order.
 *
 * Downloads are left out: the catalog is a parameter, and so is the hash of
 * the zip file that would be downloaded for an entry.
 */
module Installer {
  import opened Wrappers
  import Util

  datatype Extension = Extension(id: string, version: string, name: string, download: string, sha256: string)

  /** An entry of `extraResources`: where a file comes from, and its name in the installer. */
  datatype Resource = Resource(from: string, to: string)

  /** How `getExtraResource` ends: an early return, a throw, or the resource list. */
  datatype Outcome =
    | ExtensionMissing(id: string)
    | Thrown(message: string)
    | Resources(resources: seq<Resource>)

  /** advanced-measurements-extension, bb3 and h24005, in this order. */
  const INSTRUMENT_EXTENSION_IDS: seq<string> := [
    "b278d8da-1c17-4baa-9837-1761b2481c2b",
    "687b6dee-2093-4c36-afb7-cfc7ea2bf262",
    "d0964223-a599-43f6-8aa2-4eb52f76a395"
  ]

  const EXTRA_RESOURCES_DIR: string := "./installation/extra-resources/"
  const CATALOG_VERSION_PATH: string := "./installation/extra-resources/catalog-version.json"
  const CATALOG_PATH: string := "./installation/extra-resources/catalog.json"
  const GRAMMAR_PATH: string := "./resources/expression-grammar.pegjs"

  // ---------------------------------------------------------------------------
  // Choosing the extension

  /** A version comparison: negative, zero or positive as the first is older, the same or newer. */
  type Comparison = (string, string) -> int

  /**
   * What the choice below needs of the comparison: every version equals itself,
   * swapping negates, and "not newer" is transitive, strictly so when either
   * step is strict.
   */
  ghost predicate TotalPreorder(cmp: Comparison)
  {
    (forall a :: cmp(a, a) == 0) &&
    (forall a, b :: cmp(b, a) == -cmp(a, b)) &&
    (forall a, b, c :: cmp(a, b) <= 0 && cmp(b, c) <= 0 ==>
      cmp(a, c) <= 0 && (cmp(a, b) < 0 || cmp(b, c) < 0 ==> cmp(a, c) < 0))
  }

  /** `compareVersions` is such a comparison. */
  lemma CompareVersionsIsPreorder()
    ensures TotalPreorder(Util.CompareVersions)
  {
    ReflexiveAll();
    AntisymmetricAll();
    TransitiveAll();
  }

  lemma ReflexiveAll()
    ensures forall a :: Util.CompareVersions(a, a) == 0
  {
    forall a ensures Util.CompareVersions(a, a) == 0 {
      Util.CompareVersionsReflexive(a);
    }
  }

  lemma AntisymmetricAll()
    ensures forall a, b :: Util.CompareVersions(b, a) == -Util.CompareVersions(a, b)
  {
    forall a, b ensures Util.CompareVersions(b, a) == -Util.CompareVersions(a, b) {
      Util.CompareVersionsAntisymmetric(a, b);
    }
  }

  lemma TransitiveAll()
    ensures forall a, b, c :: Util.CompareVersions(a, b) <= 0 && Util.CompareVersions(b, c) <= 0 ==>
      Util.CompareVersions(a, c) <= 0 &&
      (Util.CompareVersions(a, b) < 0 || Util.CompareVersions(b, c) < 0 ==> Util.CompareVersions(a, c) < 0)
  {
    forall a, b, c | Util.CompareVersions(a, b) <= 0 && Util.CompareVersions(b, c) <= 0
      ensures Util.CompareVersions(a, c) <= 0
      ensures Util.CompareVersions(a, b) < 0 || Util.CompareVersions(b, c) < 0 ==> Util.CompareVersions(a, c) < 0
    {
      Util.CompareVersionsTransitive(a, b, c);
    }
  }

  /**
   * The index the `forEach` over the first `n` catalog entries leaves in
   * `foundExtension`: an entry with the id replaces the current choice only
   * when its version is strictly greater.
   */
  function BestUpTo(catalog: seq<Extension>, id: string, n: nat, cmp: Comparison): (r: Option<nat>)
    requires n <= |catalog|
    ensures r.Some? ==> r.value < n
  {
    if n == 0 then None
    else
      var previous := BestUpTo(catalog, id, n - 1, cmp);
      var e := catalog[n - 1];
      if e.id == id && (previous.None? || cmp(e.version, catalog[previous.value].version) > 0)
      then Some(n - 1)
      else previous
  }

  /** The entry `getExtraResource` picks for `id`, comparing with `compareVersions`. */
  function Best(catalog: seq<Extension>, id: string): Option<nat>
  {
    BestUpTo(catalog, id, |catalog|, Util.CompareVersions)
  }

  /**
   * Entry `k` of the first `n` has the id and a version no entry with the id
   * exceeds, and every earlier entry with the id has a strictly smaller version.
   */
  predicate IsGreatest(catalog: seq<Extension>, id: string, n: nat, k: nat, cmp: Comparison)
    requires n <= |catalog|
  {
    k < n && catalog[k].id == id &&
    (forall j :: 0 <= j < n && catalog[j].id == id ==> cmp(catalog[j].version, catalog[k].version) <= 0) &&
    (forall j :: 0 <= j < k && catalog[j].id == id ==> cmp(catalog[j].version, catalog[k].version) < 0)
  }

  /**
   * The chosen entry is the greatest, and the first among equals, since a tie
   * keeps the earlier choice; there is no choice only when no entry has the id.
   */
  lemma {:induction false} BestUpToIsGreatest(catalog: seq<Extension>, id: string, n: nat, cmp: Comparison)
    requires n <= |catalog| && TotalPreorder(cmp)
    ensures BestUpTo(catalog, id, n, cmp).None? <==> forall j :: 0 <= j < n ==> catalog[j].id != id
    ensures BestUpTo(catalog, id, n, cmp).Some? ==> IsGreatest(catalog, id, n, BestUpTo(catalog, id, n, cmp).value, cmp)
  {
    if n > 0 {
      BestUpToIsGreatest(catalog, id, n - 1, cmp);
      var previous := BestUpTo(catalog, id, n - 1, cmp);
      var e := catalog[n - 1];
      if e.id != id {
        if previous.Some? {
          KeepChoice(catalog, id, n, previous.value, cmp);
        }
      } else if previous.None? {
        assert cmp(e.version, e.version) == 0;
        assert IsGreatest(catalog, id, n, n - 1, cmp);
      } else if cmp(e.version, catalog[previous.value].version) > 0 {
        NewChoice(catalog, id, n, previous.value, cmp);
      } else {
        KeepChoice(catalog, id, n, previous.value, cmp);
      }
    }
  }

  /** An entry with another id, or a version not greater, keeps the choice. */
  lemma KeepChoice(catalog: seq<Extension>, id: string, n: nat, k: nat, cmp: Comparison)
    requires 0 < n <= |catalog| && IsGreatest(catalog, id, n - 1, k, cmp)
    requires catalog[n - 1].id == id ==> cmp(catalog[n - 1].version, catalog[k].version) <= 0
    ensures IsGreatest(catalog, id, n, k, cmp)
  {
  }

  /** An entry with a strictly greater version becomes the choice. */
  lemma NewChoice(catalog: seq<Extension>, id: string, n: nat, k: nat, cmp: Comparison)
    requires 0 < n <= |catalog| && IsGreatest(catalog, id, n - 1, k, cmp) && TotalPreorder(cmp)
    requires catalog[n - 1].id == id && cmp(catalog[n - 1].version, catalog[k].version) > 0
    ensures IsGreatest(catalog, id, n, n - 1, cmp)
  {
    var e := catalog[n - 1];
    assert cmp(e.version, e.version) == 0;
    assert cmp(catalog[k].version, e.version) < 0;
    forall j | 0 <= j < n - 1 && catalog[j].id == id
      ensures cmp(catalog[j].version, e.version) < 0
    {
      assert cmp(catalog[j].version, catalog[k].version) <= 0;
    }
  }

  /** The choice with `compareVersions`: the greatest version with the id, the first of equals. */
  lemma BestIsGreatest(catalog: seq<Extension>, id: string)
    ensures Best(catalog, id).None? <==> forall j :: 0 <= j < |catalog| ==> catalog[j].id != id
    ensures Best(catalog, id).Some? ==> IsGreatest(catalog, id, |catalog|, Best(catalog, id).value, Util.CompareVersions)
  {
    CompareVersionsIsPreorder();
    BestUpToIsGreatest(catalog, id, |catalog|, Util.CompareVersions);
  }

  /** The `forEach` loop itself. */
  method SelectExtension(catalog: seq<Extension>, id: string) returns (found: Option<nat>)
    ensures found == Best(catalog, id)
  {
    found := None;
    var i := 0;
    while i < |catalog|
      invariant 0 <= i <= |catalog|
      invariant found == BestUpTo(catalog, id, i, Util.CompareVersions)
    {
      var e := catalog[i];
      if e.id == id {
        if found.None? {
          found := Some(i);
        } else {
          var c := Util.CompareVersionsLoop(e.version, catalog[found.value].version);
          if c > 0 {
            found := Some(i);
          }
        }
      }
      i := i + 1;
    }
  }

  // ---------------------------------------------------------------------------
  // The resource list

  function ZipFileName(e: Extension): string
  {
    e.name + "-" + e.version + ".zip"
  }

  /**
   * The zip paths the loop over `ids` collects, or how it stops: an id
   * without an entry returns early, and a downloaded file whose hash differs
   * from the entry's throws.
   */
  function ExtensionPaths(catalog: seq<Extension>, ids: seq<string>, hashOf: Extension -> string): (r: Result<seq<string>, Outcome>)
    ensures r.Err? ==> !r.error.Resources?
    ensures r.Ok? ==> |r.value| == |ids|
  {
    if |ids| == 0 then Ok([])
    else match ExtensionPaths(catalog, ids[..|ids| - 1], hashOf)
      case Err(stop) => Err(stop)
      case Ok(paths) =>
        var id := ids[|ids| - 1];
        match Best(catalog, id)
        case None => Err(ExtensionMissing(id))
        case Some(k) =>
          var e := catalog[k];
          if hashOf(e) != e.sha256 then Err(Thrown("Invalid hash for the extension zip file:" + ZipFileName(e)))
          else Ok(paths + [EXTRA_RESOURCES_DIR + ZipFileName(e)])
  }

  /** `path.basename` of a path that does not end in '/': the text after the last '/'. */
  function Basename(path: string): (r: string)
    ensures |r| <= |path| && r == path[|path| - |r|..]
    ensures '/' !in r
  {
    if |path| == 0 || path[|path| - 1] == '/' then ""
    else
      var front := Basename(path[..|path| - 1]);
      assert path[..|path| - 1][|path| - 1 - |front|..] == path[|path| - 1 - |front|..|path| - 1];
      front + [path[|path| - 1]]
  }

  /** A name without '/' is its own basename under any directory. */
  lemma {:induction false} BasenameOfJoin(dir: string, name: string)
    requires '/' !in name
    ensures Basename(dir + "/" + name) == name
    decreases |name|
  {
    var p := dir + "/" + name;
    if |name| == 0 {
      assert p[|p| - 1] == '/';
    } else {
      var front := name[..|name| - 1];
      assert p[..|p| - 1] == dir + "/" + front;
      BasenameOfJoin(dir, front);
      assert name == front + [name[|name| - 1]];
    }
  }

  function ToResources(paths: seq<string>): (r: seq<Resource>)
    ensures |r| == |paths|
    ensures forall i :: 0 <= i < |paths| ==> r[i] == Resource(paths[i], Basename(paths[i]))
  {
    seq(|paths|, i requires 0 <= i < |paths| => Resource(paths[i], Basename(paths[i])))
  }

  function ExtraResources(catalog: seq<Extension>, ids: seq<string>, hashOf: Extension -> string): Outcome
  {
    match ExtensionPaths(catalog, ids, hashOf)
    case Err(stop) => stop
    case Ok(paths) => Resources(ToResources([CATALOG_VERSION_PATH, CATALOG_PATH] + paths + [GRAMMAR_PATH]))
  }

  /** `getExtraResource` after the downloads: the loop over the ids, then the list. */
  method GetExtraResource(catalog: seq<Extension>, ids: seq<string>, hashOf: Extension -> string) returns (r: Outcome)
    ensures r == ExtraResources(catalog, ids, hashOf)
  {
    var extensions: seq<string> := [];
    var i := 0;
    while i < |ids|
      invariant 0 <= i <= |ids|
      invariant ExtensionPaths(catalog, ids[..i], hashOf) == Ok(extensions)
    {
      assert ids[..i + 1][..i] == ids[..i];
      var found := SelectExtension(catalog, ids[i]);
      if found.None? {
        StopPropagates(catalog, ids, hashOf, i + 1);
        return ExtensionMissing(ids[i]);
      }
      var e := catalog[found.value];
      if hashOf(e) != e.sha256 {
        StopPropagates(catalog, ids, hashOf, i + 1);
        return Thrown("Invalid hash for the extension zip file:" + ZipFileName(e));
      }
      extensions := extensions + [EXTRA_RESOURCES_DIR + ZipFileName(e)];
      i := i + 1;
    }
    assert ids[..i] == ids;
    var all := [CATALOG_VERSION_PATH, CATALOG_PATH] + extensions + [GRAMMAR_PATH];
    r := Resources(ToResources(all));
  }

  /**
   * When every id has an entry and every hash matches, the resources are the
   * catalog version, the catalog, one zip per id in id order (the greatest
   * version of that id), then the grammar.
   */
  lemma {:induction false} ExtensionPathsInOrder(catalog: seq<Extension>, ids: seq<string>, hashOf: Extension -> string)
    requires ExtensionPaths(catalog, ids, hashOf).Ok?
    ensures var paths := ExtensionPaths(catalog, ids, hashOf).value;
      |paths| == |ids| &&
      forall i :: 0 <= i < |ids| ==>
        Best(catalog, ids[i]).Some? &&
        paths[i] == EXTRA_RESOURCES_DIR + ZipFileName(catalog[Best(catalog, ids[i]).value])
  {
    if |ids| > 0 {
      var front := ids[..|ids| - 1];
      ExtensionPathsInOrder(catalog, front, hashOf);
      assert forall i :: 0 <= i < |front| ==> front[i] == ids[i];
    }
  }

  lemma ResourceOrder(catalog: seq<Extension>, ids: seq<string>, hashOf: Extension -> string)
    requires ExtraResources(catalog, ids, hashOf).Resources?
    ensures var rs := ExtraResources(catalog, ids, hashOf).resources;
      |rs| == |ids| + 3 &&
      rs[0] == Resource(CATALOG_VERSION_PATH, "catalog-version.json") &&
      rs[1] == Resource(CATALOG_PATH, "catalog.json") &&
      rs[|rs| - 1] == Resource(GRAMMAR_PATH, "expression-grammar.pegjs") &&
      forall i :: 0 <= i < |ids| ==>
        Best(catalog, ids[i]).Some? &&
        rs[i + 2].from == EXTRA_RESOURCES_DIR + ZipFileName(catalog[Best(catalog, ids[i]).value])
  {
    ExtensionPathsInOrder(catalog, ids, hashOf);
    ListShape(ExtensionPaths(catalog, ids, hashOf).value);
  }

  lemma ListShape(paths: seq<string>)
    ensures var rs := ToResources([CATALOG_VERSION_PATH, CATALOG_PATH] + paths + [GRAMMAR_PATH]);
      |rs| == |paths| + 3 &&
      rs[0] == Resource(CATALOG_VERSION_PATH, "catalog-version.json") &&
      rs[1] == Resource(CATALOG_PATH, "catalog.json") &&
      rs[|rs| - 1] == Resource(GRAMMAR_PATH, "expression-grammar.pegjs") &&
      forall i :: 0 <= i < |paths| ==> rs[i + 2].from == paths[i]
  {
    ConstantBasenames();
    var all := [CATALOG_VERSION_PATH, CATALOG_PATH] + paths + [GRAMMAR_PATH];
    assert forall i :: 0 <= i < |paths| ==> all[i + 2] == paths[i];
  }

  lemma ConstantBasenames()
    ensures Basename(CATALOG_VERSION_PATH) == "catalog-version.json"
    ensures Basename(CATALOG_PATH) == "catalog.json"
    ensures Basename(GRAMMAR_PATH) == "expression-grammar.pegjs"
  {
    BasenameOfSuffix(CATALOG_VERSION_PATH, "catalog-version.json");
    BasenameOfSuffix(CATALOG_PATH, "catalog.json");
    BasenameOfSuffix(GRAMMAR_PATH, "expression-grammar.pegjs");
  }

  /** A path ending in '/' and then a name without '/' has that name as its basename. */
  lemma BasenameOfSuffix(path: string, name: string)
    requires '/' !in name && |name| < |path|
    requires path[|path| - |name| - 1] == '/' && path[|path| - |name|..] == name
    ensures Basename(path) == name
  {
    var dir := path[..|path| - |name| - 1];
    assert path == dir + "/" + name;
    BasenameOfJoin(dir, name);
  }

  /** Once the loop stops at a prefix of the ids, the whole loop stops the same way. */
  lemma {:induction false} StopPropagates(catalog: seq<Extension>, ids: seq<string>, hashOf: Extension -> string, k: nat)
    requires k <= |ids| && ExtensionPaths(catalog, ids[..k], hashOf).Err?
    ensures ExtensionPaths(catalog, ids, hashOf) == ExtensionPaths(catalog, ids[..k], hashOf)
    decreases |ids| - k
  {
    if k < |ids| {
      assert ids[..|ids| - 1][..k] == ids[..k];
      StopPropagates(catalog, ids[..|ids| - 1], hashOf, k);
    } else {
      assert ids[..k] == ids;
    }
  }

  /** An id with no catalog entry stops the build of the list at that id. */
  lemma MissingStops(catalog: seq<Extension>, ids: seq<string>, hashOf: Extension -> string, k: nat)
    requires k < |ids| && ExtensionPaths(catalog, ids[..k], hashOf).Ok?
    requires forall j :: 0 <= j < |catalog| ==> catalog[j].id != ids[k]
    ensures ExtensionPaths(catalog, ids[..k + 1], hashOf) == Err(ExtensionMissing(ids[k]))
  {
    BestIsGreatest(catalog, ids[k]);
    assert ids[..k + 1][..k] == ids[..k];
  }
}
