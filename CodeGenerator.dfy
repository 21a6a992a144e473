/**
 * The emission policy of the code generator: which regions become which
 * files, the fixed chain of text substitutions applied to each file, the
 * argument string handed to graphql-codegen, and the order of the external
 * commands. The output directory is a map from path to content and the
 * command executor records the (command, arguments) pairs it is given.
 */
module CodeGeneration {
  import opened Wrappers
  import opened Text
  import opened Replace
  import opened Regions
  import opened RegionParser

  const MODELS_REGION := "input types"
  /** Regions that never get a file of their own. */
  const RESERVED: set<string> := {"fragments", "input types", "Query"}
  const GENERATED_SUFFIX := ".generated.cs"
  const CLASSES_FILE := "Classes.cs"
  const GRAPHQL_GLOB := "*.graphql"
  const HEADER_OPTION := "--header"
  const MISSING_CLASSES := "Generated Classes.cs file not found"

  // The substitutions, each applied to every occurrence, in this order.
  const GENERATED_NAMESPACE := "namespace Generated"
  const OLD_USING := "using Agoda.CodeGen.GraphQL"
  const NEW_USING := "using Agoda.Graphql.Client"
  const MISSPELT_TAG := "</sumary>"
  const SUMMARY_TAG := "</summary>"

  // ---------------------------------------------------------------------------
  // Paths.
  // ---------------------------------------------------------------------------

  /** Path.Combine with the Unix separator: a rooted second part replaces the first. */
  function PathCombine(first: string, second: string): string
  {
    if first == [] then second
    else if second == [] then first
    else if second[0] == '/' then second
    else if first[|first| - 1] == '/' then first + second
    else first + "/" + second
  }

  /** A combined path ends with its last part. */
  lemma CombineEndsWithName(first: string, second: string)
    ensures EndsWith(PathCombine(first, second), second)
  {
    var p := PathCombine(first, second);
    assert p[|p| - |second|..] == second;
  }

  /** Under one directory, distinct relative names give distinct paths. */
  lemma CombineInjective(dir: string, a: string, b: string)
    requires a != [] && b != [] && a[0] != '/' && b[0] != '/'
    requires PathCombine(dir, a) == PathCombine(dir, b)
    ensures a == b
  {
    var pa, pb := PathCombine(dir, a), PathCombine(dir, b);
    var k := |pa| - |a|;
    assert |pa| - |b| == k;
    assert a == pa[k..] == pb[k..] == b;
  }

  // ---------------------------------------------------------------------------
  // The content of a generated file.
  // ---------------------------------------------------------------------------

  /** What "namespace Generated" becomes. */
  function NamespaceLine(baseNamespace: string): string
  {
    "\nnamespace " + baseNamespace
  }

  /** The three substitutions of GenerateFile, applied in order. */
  function Rewrite(source: string, baseNamespace: string): string
  {
    var s1 := ReplaceAll(source, GENERATED_NAMESPACE, NamespaceLine(baseNamespace));
    var s2 := ReplaceAll(s1, OLD_USING, NEW_USING);
    ReplaceAll(s2, MISSPELT_TAG, SUMMARY_TAG)
  }

  /** What GenerateFile writes for a region. */
  function FileContent(region: Region, baseNamespace: string): string
  {
    Rewrite(region.GetSourceCode(), baseNamespace)
  }

  /** A string disjoint from a pattern (and no longer than anything it is in) does not contain it. */
  lemma DisjointExcludes(x: string, q: string)
    requires Disjoint(x, q)
    ensures !Contains(x, q)
  {
    forall i | 0 <= i <= |x| && Occurs(x, q, i) ensures false {
      NoOverlap(x, x, q, 0, i);
    }
  }

  lemma NewUsingMissesOld()
    ensures Disjoint(NEW_USING, OLD_USING)
  {
    var u, v := NEW_USING, OLD_USING;
    forall d | 0 <= d < |u| && u[d] == v[0] ensures !AgreeAt(u, v, d) {
      assert d == 0;
      assert u[12] != v[12];
    }
    assert forall e :: 0 < e < |v| ==> v[e] != u[0];
    DisjointByAnchors(u, v);
  }

  lemma SummaryMissesMisspelt()
    ensures Disjoint(SUMMARY_TAG, MISSPELT_TAG)
  {
    var u, v := SUMMARY_TAG, MISSPELT_TAG;
    forall d | 0 <= d < |u| && u[d] == v[0] ensures !AgreeAt(u, v, d) {
      assert d == 0;
      assert u[5] != v[5];
    }
    assert forall e :: 0 < e < |v| ==> v[e] != u[0];
    DisjointByAnchors(u, v);
  }

  lemma SummaryMissesOldUsing()
    ensures Disjoint(SUMMARY_TAG, OLD_USING)
  {
    var u, v := SUMMARY_TAG, OLD_USING;
    forall d | 0 <= d < |u| && u[d] == v[0] ensures !AgreeAt(u, v, d) {
      assert d == 3;
      assert u[4] != v[1];
    }
    assert forall e :: 0 < e < |v| ==> v[e] != u[0];
    DisjointByAnchors(u, v);
  }

  lemma NewUsingMissesNamespace()
    ensures Disjoint(NEW_USING, GENERATED_NAMESPACE)
  {
    var u, v := NEW_USING, GENERATED_NAMESPACE;
    forall d | 0 <= d < |u| && u[d] == v[0] ensures !AgreeAt(u, v, d) {
      if d == 3 {
        assert u[4] != v[1];
      } else {
        assert d == 24;
        assert u[25] != v[1];
      }
    }
    assert forall e :: 0 < e < |v| ==> v[e] != u[0];
    DisjointByAnchors(u, v);
  }

  lemma SummaryMissesNamespace()
    ensures Disjoint(SUMMARY_TAG, GENERATED_NAMESPACE)
  {
    var u, v := SUMMARY_TAG, GENERATED_NAMESPACE;
    assert forall d :: 0 <= d < |u| ==> u[d] != v[0];
    assert forall e :: 0 < e < |v| ==> v[e] != u[0];
    DisjointByAnchors(u, v);
  }

  lemma OldUsingMissesNamespace()
    ensures Disjoint(OLD_USING, GENERATED_NAMESPACE)
  {
    var u, v := OLD_USING, GENERATED_NAMESPACE;
    forall d | 0 <= d < |u| && u[d] == v[0] ensures !AgreeAt(u, v, d) {
      if d == 3 {
        assert u[4] != v[1];
      } else {
        assert d == 18;
        assert u[19] != v[1];
      }
    }
    assert forall e :: 0 < e < |v| ==> v[e] != u[0];
    DisjointByAnchors(u, v);
  }

  lemma NewUsingMissesMisspelt()
    ensures Disjoint(NEW_USING, MISSPELT_TAG)
  {
    var u, v := NEW_USING, MISSPELT_TAG;
    assert forall d :: 0 <= d < |u| ==> u[d] != v[0];
    forall e | 0 < e < |v| && v[e] == u[0] ensures !AgreeAt(u, v, -e) {
      assert e == 3;
      assert u[1] != v[4];
    }
    DisjointByAnchors(u, v);
  }

  lemma MisspeltMissesNamespace()
    ensures Disjoint(MISSPELT_TAG, GENERATED_NAMESPACE)
  {
    var u, v := MISSPELT_TAG, GENERATED_NAMESPACE;
    assert forall d :: 0 <= d < |u| ==> u[d] != v[0];
    assert forall e :: 0 < e < |v| ==> v[e] != u[0];
    DisjointByAnchors(u, v);
  }

  lemma MisspeltMissesOldUsing()
    ensures Disjoint(MISSPELT_TAG, OLD_USING)
  {
    var u, v := MISSPELT_TAG, OLD_USING;
    forall d | 0 <= d < |u| && u[d] == v[0] ensures !AgreeAt(u, v, d) {
      assert d == 3;
      assert u[4] != v[1];
    }
    assert forall e :: 0 < e < |v| ==> v[e] != u[0];
    DisjointByAnchors(u, v);
  }

  /**
   * After the rewrite no misspelt closing tag and no old using directive is
   * left, whatever the source and the namespace.
   */
  lemma RewriteRemovesStaleText(source: string, baseNamespace: string)
    ensures !Contains(Rewrite(source, baseNamespace), MISSPELT_TAG)
    ensures !Contains(Rewrite(source, baseNamespace), OLD_USING)
  {
    var s1 := ReplaceAll(source, GENERATED_NAMESPACE, NamespaceLine(baseNamespace));
    var s2 := ReplaceAll(s1, OLD_USING, NEW_USING);
    SummaryMissesMisspelt();
    ReplaceEliminates(s2, MISSPELT_TAG, SUMMARY_TAG);
    NewUsingMissesOld();
    ReplaceEliminates(s1, OLD_USING, NEW_USING);
    SummaryMissesOldUsing();
    ReplaceKeepsAbsent(s2, MISSPELT_TAG, SUMMARY_TAG, OLD_USING);
  }

  /**
   * No "namespace Generated" is left when the namespace line cannot form one
   * itself (as it can for a namespace such as "Generated").
   */
  lemma RewriteRemovesGeneratedNamespace(source: string, baseNamespace: string)
    requires Disjoint(NamespaceLine(baseNamespace), GENERATED_NAMESPACE)
    ensures !Contains(Rewrite(source, baseNamespace), GENERATED_NAMESPACE)
  {
    var s1 := ReplaceAll(source, GENERATED_NAMESPACE, NamespaceLine(baseNamespace));
    var s2 := ReplaceAll(s1, OLD_USING, NEW_USING);
    ReplaceEliminates(source, GENERATED_NAMESPACE, NamespaceLine(baseNamespace));
    NewUsingMissesNamespace();
    ReplaceKeepsAbsent(s1, OLD_USING, NEW_USING, GENERATED_NAMESPACE);
    SummaryMissesNamespace();
    ReplaceKeepsAbsent(s2, MISSPELT_TAG, SUMMARY_TAG, GENERATED_NAMESPACE);
  }

  /**
   * A source that declares "namespace Generated" comes out declaring the base
   * namespace, provided that declaration is not itself rewritten.
   */
  lemma RewriteDeclaresBaseNamespace(source: string, baseNamespace: string)
    requires Contains(source, GENERATED_NAMESPACE)
    requires Disjoint("namespace " + baseNamespace, OLD_USING)
    requires Disjoint("namespace " + baseNamespace, MISSPELT_TAG)
    ensures Contains(Rewrite(source, baseNamespace), "namespace " + baseNamespace)
  {
    var t := "namespace " + baseNamespace;
    var s1 := ReplaceAll(source, GENERATED_NAMESPACE, NamespaceLine(baseNamespace));
    var s2 := ReplaceAll(s1, OLD_USING, NEW_USING);
    ReplaceIntroduces(source, GENERATED_NAMESPACE, NamespaceLine(baseNamespace));
    assert Occurs(NamespaceLine(baseNamespace), t, 1);
    ContainsTrans(s1, NamespaceLine(baseNamespace), t);
    ReplaceKeepsPresent(s1, OLD_USING, NEW_USING, t);
    ReplaceKeepsPresent(s2, MISSPELT_TAG, SUMMARY_TAG, t);
  }

  /** The corrected using directive and closing tag appear wherever their stale forms did. */
  lemma RewriteKeepsCorrections(source: string, baseNamespace: string)
    ensures Contains(source, OLD_USING) ==> Contains(Rewrite(source, baseNamespace), NEW_USING)
    ensures Contains(source, MISSPELT_TAG) ==> Contains(Rewrite(source, baseNamespace), SUMMARY_TAG)
  {
    var s1 := ReplaceAll(source, GENERATED_NAMESPACE, NamespaceLine(baseNamespace));
    var s2 := ReplaceAll(s1, OLD_USING, NEW_USING);
    if Contains(source, OLD_USING) {
      OldUsingMissesNamespace();
      ReplaceKeepsPresent(source, GENERATED_NAMESPACE, NamespaceLine(baseNamespace), OLD_USING);
      ReplaceIntroduces(s1, OLD_USING, NEW_USING);
      NewUsingMissesMisspelt();
      ReplaceKeepsPresent(s2, MISSPELT_TAG, SUMMARY_TAG, NEW_USING);
    }
    if Contains(source, MISSPELT_TAG) {
      MisspeltMissesNamespace();
      ReplaceKeepsPresent(source, GENERATED_NAMESPACE, NamespaceLine(baseNamespace), MISSPELT_TAG);
      MisspeltMissesOldUsing();
      ReplaceKeepsPresent(s1, OLD_USING, NEW_USING, MISSPELT_TAG);
      ReplaceIntroduces(s2, MISSPELT_TAG, SUMMARY_TAG);
    }
  }

  const TEST_NAMESPACE := "Test.Namespace"

  lemma TestNamespaceLineMissesGenerated()
    ensures Disjoint(NamespaceLine(TEST_NAMESPACE), GENERATED_NAMESPACE)
  {
    var u, v := NamespaceLine(TEST_NAMESPACE), GENERATED_NAMESPACE;
    forall d | 0 <= d < |u| && u[d] == v[0] ensures !AgreeAt(u, v, d) {
      assert d == 1;
      assert u[11] != v[10];
    }
    assert forall e :: 0 < e < |v| ==> v[e] != u[0];
    DisjointByAnchors(u, v);
  }

  lemma TestDeclarationMissesOldUsing()
    ensures Disjoint("namespace " + TEST_NAMESPACE, OLD_USING)
  {
    var u, v := "namespace " + TEST_NAMESPACE, OLD_USING;
    assert forall d :: 0 <= d < |u| ==> u[d] != v[0];
    forall e | 0 < e < |v| && v[e] == u[0] ensures !AgreeAt(u, v, -e) {
      if e == 3 {
        assert u[1] != v[4];
      } else {
        assert e == 18;
        assert u[1] != v[19];
      }
    }
    DisjointByAnchors(u, v);
  }

  lemma TestDeclarationMissesMisspelt()
    ensures Disjoint("namespace " + TEST_NAMESPACE, MISSPELT_TAG)
  {
    var u, v := "namespace " + TEST_NAMESPACE, MISSPELT_TAG;
    assert forall d :: 0 <= d < |u| ==> u[d] != v[0];
    assert forall e :: 0 < e < |v| ==> v[e] != u[0];
    DisjointByAnchors(u, v);
  }

  /** With the namespace "Test.Namespace", "namespace Generated" is replaced by its declaration. */
  lemma RewriteWithTestNamespace(source: string)
    ensures !Contains(Rewrite(source, TEST_NAMESPACE), GENERATED_NAMESPACE)
    ensures Contains(source, GENERATED_NAMESPACE) ==>
      Contains(Rewrite(source, TEST_NAMESPACE), "namespace " + TEST_NAMESPACE)
  {
    TestNamespaceLineMissesGenerated();
    RewriteRemovesGeneratedNamespace(source, TEST_NAMESPACE);
    if Contains(source, GENERATED_NAMESPACE) {
      TestDeclarationMissesOldUsing();
      TestDeclarationMissesMisspelt();
      RewriteDeclaresBaseNamespace(source, TEST_NAMESPACE);
    }
  }

  // ---------------------------------------------------------------------------
  // Which regions become which files.
  // ---------------------------------------------------------------------------

  /** FirstOrDefault by name: the first region with that name, if any. */
  function FirstNamed(regions: seq<Region>, name: string): (r: Option<Region>)
    ensures r.None? <==> forall i :: 0 <= i < |regions| ==> regions[i].name != name
    ensures r.Some? ==> exists i ::
      (0 <= i < |regions| && regions[i] == r.value && regions[i].name == name
       && forall j :: 0 <= j < i ==> regions[j].name != name)
  {
    if regions == [] then None
    else if regions[0].name == name then Some(regions[0])
    else
      var r := FirstNamed(regions[1..], name);
      assert r.Some? ==> exists i ::
        (0 <= i < |regions[1..]| && regions[1..][i] == r.value
         && regions[1..][i].name == name && forall j :: 0 <= j < i ==> regions[1..][j].name != name);
      r
  }

  /** The file a non-reserved region is written to. */
  function RegionFileName(name: string): string
  {
    name + GENERATED_SUFFIX
  }

  /** One call of GenerateFile: the file name it is given and the content it writes. */
  datatype Write = Write(fileName: string, content: string)

  /** The model file's write: present exactly when some region is called "input types". */
  function ModelWrites(regions: seq<Region>, modelFile: string, baseNamespace: string): seq<Write>
  {
    match FirstNamed(regions, MODELS_REGION)
    case None => []
    case Some(models) => [Write(modelFile, FileContent(models, baseNamespace))]
  }

  /** One write per region whose name is not reserved, in parse order. */
  function RegionWrites(regions: seq<Region>, baseNamespace: string): seq<Write>
  {
    if regions == [] then []
    else
      var n := |regions| - 1;
      var region := regions[n];
      RegionWrites(regions[..n], baseNamespace)
        + (if region.name in RESERVED then [] else [Write(RegionFileName(region.name), FileContent(region, baseNamespace))])
  }

  /** Taking one more region adds its write after any earlier writes, unless its name is reserved. */
  lemma RegionWritesStep(front: seq<Write>, regions: seq<Region>, i: int, baseNamespace: string)
    requires 0 <= i < |regions|
    ensures front + RegionWrites(regions[..i + 1], baseNamespace) == front + RegionWrites(regions[..i], baseNamespace)
      + (if regions[i].name in RESERVED then [] else [Write(RegionFileName(regions[i].name), FileContent(regions[i], baseNamespace))])
  {
    assert regions[..i + 1][..i] == regions[..i];
  }

  /** Every write ProcessRegions makes, in order: the model file first, then the region files. */
  function Plan(regions: seq<Region>, modelFile: string, baseNamespace: string): seq<Write>
  {
    ModelWrites(regions, modelFile, baseNamespace) + RegionWrites(regions, baseNamespace)
  }

  /** The number of regions that get a file of their own. */
  function OtherCount(regions: seq<Region>): nat
  {
    if regions == [] then 0
    else OtherCount(regions[..|regions| - 1]) + (if regions[|regions| - 1].name in RESERVED then 0 else 1)
  }

  /** There is no model write exactly when no region is called "input types". */
  lemma ModelWriteIffInputTypes(regions: seq<Region>, modelFile: string, baseNamespace: string)
    ensures ModelWrites(regions, modelFile, baseNamespace) == [] <==>
      forall i :: 0 <= i < |regions| ==> regions[i].name != MODELS_REGION
  {
  }

  /** When there is one, the model write renders the first region called "input types". */
  lemma ModelWriteRendersFirst(regions: seq<Region>, modelFile: string, baseNamespace: string, i: int)
    requires 0 <= i < |regions| && regions[i].name == MODELS_REGION
    requires forall j :: 0 <= j < i ==> regions[j].name != MODELS_REGION
    ensures ModelWrites(regions, modelFile, baseNamespace) == [Write(modelFile, FileContent(regions[i], baseNamespace))]
  {
    var r := FirstNamed(regions, MODELS_REGION);
    var k :| 0 <= k < |regions| && regions[k] == r.value && regions[k].name == MODELS_REGION
      && forall j :: 0 <= j < k ==> regions[j].name != MODELS_REGION;
    assert k == i;
  }

  lemma {:induction false} RegionWritesCounted(regions: seq<Region>, baseNamespace: string)
    ensures |RegionWrites(regions, baseNamespace)| == OtherCount(regions)
  {
    if regions != [] {
      RegionWritesCounted(regions[..|regions| - 1], baseNamespace);
    }
  }

  /**
   * Every region with a name that is not reserved gets exactly one write, at
   * its place among those regions in parse order.
   */
  lemma {:induction false} RegionWriteAt(regions: seq<Region>, baseNamespace: string, i: int)
    requires 0 <= i < |regions| && regions[i].name !in RESERVED
    ensures |RegionWrites(regions, baseNamespace)| == OtherCount(regions)
    ensures OtherCount(regions[..i]) < OtherCount(regions)
    ensures RegionWrites(regions, baseNamespace)[OtherCount(regions[..i])] ==
      Write(RegionFileName(regions[i].name), FileContent(regions[i], baseNamespace))
  {
    var n := |regions| - 1;
    RegionWritesCounted(regions, baseNamespace);
    RegionWritesCounted(regions[..n], baseNamespace);
    if i < n {
      assert regions[..n][..i] == regions[..i];
      RegionWriteAt(regions[..n], baseNamespace, i);
    } else {
      assert regions[..i] == regions[..n];
    }
  }

  /** Every region write renders some region whose name is not reserved. */
  lemma {:induction false} RegionWritesFromOthers(regions: seq<Region>, baseNamespace: string, k: int)
    requires 0 <= k < |RegionWrites(regions, baseNamespace)|
    ensures exists i ::
      (0 <= i < |regions| && regions[i].name !in RESERVED
       && RegionWrites(regions, baseNamespace)[k] == Write(RegionFileName(regions[i].name), FileContent(regions[i], baseNamespace)))
  {
    var n := |regions| - 1;
    if k < |RegionWrites(regions[..n], baseNamespace)| {
      RegionWritesFromOthers(regions[..n], baseNamespace, k);
      var i :| 0 <= i < n && regions[..n][i].name !in RESERVED
        && RegionWrites(regions[..n], baseNamespace)[k] == Write(RegionFileName(regions[..n][i].name), FileContent(regions[..n][i], baseNamespace));
      assert regions[..n][i] == regions[i];
    } else {
      assert RegionWrites(regions, baseNamespace)[k] == Write(RegionFileName(regions[n].name), FileContent(regions[n], baseNamespace));
    }
  }

  lemma RegionFileNameInjective(a: string, b: string)
    requires RegionFileName(a) == RegionFileName(b)
    ensures a == b
  {
    assert a == RegionFileName(a)[..|a|] == RegionFileName(b)[..|b|] == b;
  }

  /** No region write goes to the file of a reserved name ("fragments", "input types", "Query"). */
  lemma NoFileForReservedRegions(regions: seq<Region>, baseNamespace: string, k: int, name: string)
    requires 0 <= k < |RegionWrites(regions, baseNamespace)| && name in RESERVED
    ensures RegionWrites(regions, baseNamespace)[k].fileName != RegionFileName(name)
  {
    RegionWritesFromOthers(regions, baseNamespace, k);
    var i :| 0 <= i < |regions| && regions[i].name !in RESERVED
      && RegionWrites(regions, baseNamespace)[k] == Write(RegionFileName(regions[i].name), FileContent(regions[i], baseNamespace));
    if RegionFileName(regions[i].name) == RegionFileName(name) {
      RegionFileNameInjective(regions[i].name, name);
    }
  }

  // ---------------------------------------------------------------------------
  // The output directory.
  // ---------------------------------------------------------------------------

  /** The output directory after the writes, in order: each write replaces what was at its path. */
  function ApplyWrites(files: map<string, string>, dir: string, writes: seq<Write>): map<string, string>
  {
    if writes == [] then files
    else
      var n := |writes| - 1;
      ApplyWrites(files, dir, writes[..n])[PathCombine(dir, writes[n].fileName) := writes[n].content]
  }

  /** One more write replaces the content at its path. */
  lemma ApplyWritesSnoc(files: map<string, string>, dir: string, writes: seq<Write>, w: Write)
    ensures ApplyWrites(files, dir, writes + [w]) == ApplyWrites(files, dir, writes)[PathCombine(dir, w.fileName) := w.content]
  {
    assert (writes + [w])[..|writes|] == writes;
  }

  /** The last write to a path decides its content. */
  lemma {:induction false} LastWriteWins(files: map<string, string>, dir: string, writes: seq<Write>, i: int)
    requires 0 <= i < |writes|
    requires forall j :: i < j < |writes| ==> PathCombine(dir, writes[j].fileName) != PathCombine(dir, writes[i].fileName)
    ensures PathCombine(dir, writes[i].fileName) in ApplyWrites(files, dir, writes)
    ensures ApplyWrites(files, dir, writes)[PathCombine(dir, writes[i].fileName)] == writes[i].content
  {
    var n := |writes| - 1;
    if i < n {
      LastWriteWins(files, dir, writes[..n], i);
    }
  }

  /** A path no write goes to keeps what it had, and stays absent if it was absent. */
  lemma {:induction false} UnwrittenPathKept(files: map<string, string>, dir: string, writes: seq<Write>, path: string)
    requires forall j :: 0 <= j < |writes| ==> PathCombine(dir, writes[j].fileName) != path
    ensures path in ApplyWrites(files, dir, writes) <==> path in files
    ensures path in files ==> ApplyWrites(files, dir, writes)[path] == files[path]
  {
    if writes != [] {
      UnwrittenPathKept(files, dir, writes[..|writes| - 1], path);
    }
  }

  /** Every path written by a region write ends with ".generated.cs". */
  lemma RegionPathsGenerated(regions: seq<Region>, dir: string, baseNamespace: string, j: int)
    requires 0 <= j < |RegionWrites(regions, baseNamespace)|
    ensures EndsWith(PathCombine(dir, RegionWrites(regions, baseNamespace)[j].fileName), GENERATED_SUFFIX)
  {
    RegionWritesFromOthers(regions, baseNamespace, j);
    var w := RegionWrites(regions, baseNamespace)[j];
    var p := PathCombine(dir, w.fileName);
    CombineEndsWithName(dir, w.fileName);
    assert p[|p| - |GENERATED_SUFFIX|..] == w.fileName[|w.fileName| - |GENERATED_SUFFIX|..];
  }

  /**
   * When the model file's path was not there before and is not a
   * ".generated.cs" path, it is in the output exactly when some region is
   * called "input types", and then holds the first such region, rendered.
   */
  lemma ModelFileIffInputTypes(files: map<string, string>, dir: string, regions: seq<Region>,
                               modelFile: string, baseNamespace: string)
    requires PathCombine(dir, modelFile) !in files
    requires !EndsWith(PathCombine(dir, modelFile), GENERATED_SUFFIX)
    ensures PathCombine(dir, modelFile) in ApplyWrites(files, dir, Plan(regions, modelFile, baseNamespace))
      <==> exists i :: 0 <= i < |regions| && regions[i].name == MODELS_REGION
    ensures forall i ::
      (0 <= i < |regions| && regions[i].name == MODELS_REGION
       && (forall j :: 0 <= j < i ==> regions[j].name != MODELS_REGION)) ==>
      ApplyWrites(files, dir, Plan(regions, modelFile, baseNamespace))[PathCombine(dir, modelFile)]
        == FileContent(regions[i], baseNamespace)
  {
    var path := PathCombine(dir, modelFile);
    var models := ModelWrites(regions, modelFile, baseNamespace);
    var others := RegionWrites(regions, baseNamespace);
    var plan := Plan(regions, modelFile, baseNamespace);
    forall j | 0 <= j < |others| ensures PathCombine(dir, others[j].fileName) != path {
      RegionPathsGenerated(regions, dir, baseNamespace, j);
    }
    if models == [] {
      UnwrittenPathKept(files, dir, plan, path);
    } else {
      assert plan[0] == models[0] && plan[0].fileName == modelFile;
      forall j | 0 < j < |plan| ensures PathCombine(dir, plan[j].fileName) != path {
        assert plan[j] == others[j - 1];
      }
      LastWriteWins(files, dir, plan, 0);
      forall i | 0 <= i < |regions| && regions[i].name == MODELS_REGION
        && (forall j :: 0 <= j < i ==> regions[j].name != MODELS_REGION)
        ensures ApplyWrites(files, dir, plan)[path] == FileContent(regions[i], baseNamespace)
      {
        ModelWriteRendersFirst(regions, modelFile, baseNamespace, i);
      }
    }
  }

  // ---------------------------------------------------------------------------
  // The graphql-codegen command line.
  // ---------------------------------------------------------------------------

  /** A `--header "Key: Value"` flag. */
  function HeaderFlag(header: (string, string)): string
  {
    HEADER_OPTION + " \"" + header.0 + ": " + header.1 + "\""
  }

  /** One flag per header, in order; none when there are no headers. */
  function HeaderFlags(headers: Option<seq<(string, string)>>): seq<string>
  {
    match headers
    case None => []
    case Some(hs) => seq(|hs|, i requires 0 <= i < |hs| => HeaderFlag(hs[i]))
  }

  /** The argument string of the graphql-codegen call. */
  function CodegenArguments(schemaUrl: string, template: string, outputPath: string,
                            headers: Option<seq<(string, string)>>): string
  {
    "graphql-codegen " + "--schema " + schemaUrl + " " + "--template " + template + " "
      + "--out " + outputPath + " " + Join(' ', HeaderFlags(headers)) + " " + PathCombine(outputPath, GRAPHQL_GLOB)
  }

  /**
   * The argument string starts with the graphql-codegen call and ends with the
   * ".graphql" files of the output directory.
   */
  lemma ArgumentsLayout(schemaUrl: string, template: string, outputPath: string, headers: Option<seq<(string, string)>>)
    ensures StartsWith(CodegenArguments(schemaUrl, template, outputPath, headers), "graphql-codegen --schema ")
    ensures EndsWith(CodegenArguments(schemaUrl, template, outputPath, headers), " " + PathCombine(outputPath, GRAPHQL_GLOB))
  {
    var front := "graphql-codegen " + "--schema ";
    var glob := PathCombine(outputPath, GRAPHQL_GLOB);
    assert front == "graphql-codegen --schema ";
    var a := front;
    assert a[..|front|] == front;
    PrefixGrows(a, schemaUrl, front);
    a := a + schemaUrl;
    PrefixGrows(a, " ", front);
    a := a + " ";
    PrefixGrows(a, "--template ", front);
    a := a + "--template ";
    PrefixGrows(a, template, front);
    a := a + template;
    PrefixGrows(a, " ", front);
    a := a + " ";
    PrefixGrows(a, "--out ", front);
    a := a + "--out ";
    PrefixGrows(a, outputPath, front);
    a := a + outputPath;
    PrefixGrows(a, " ", front);
    a := a + " ";
    PrefixGrows(a, Join(' ', HeaderFlags(headers)), front);
    a := a + Join(' ', HeaderFlags(headers));
    PrefixGrows(a, " ", front);
    PrefixGrows(a + " ", glob, front);
    assert (a + " " + glob)[|a|..] == " " + glob;
  }

  /** A prefix of a string is a prefix of anything that extends it. */
  lemma PrefixGrows(x: string, y: string, prefix: string)
    requires StartsWith(x, prefix)
    ensures StartsWith(x + y, prefix)
  {
    assert (x + y)[..|prefix|] == x[..|prefix|];
  }

  /** Each header becomes a `--header "Key: Value"` flag of the command line. */
  lemma HeaderFlagsPresent(schemaUrl: string, template: string, outputPath: string,
                           hs: seq<(string, string)>, i: int)
    requires 0 <= i < |hs|
    ensures Contains(CodegenArguments(schemaUrl, template, outputPath, Some(hs)), HeaderFlag(hs[i]))
  {
    var flags := HeaderFlags(Some(hs));
    JoinContains(' ', flags, i);
    var before := "graphql-codegen " + "--schema " + schemaUrl + " " + "--template " + template + " "
      + "--out " + outputPath + " ";
    var after := " " + PathCombine(outputPath, GRAPHQL_GLOB);
    ContainsInConcat(before, Join(' ', flags), after, HeaderFlag(hs[i]));
    assert before + Join(' ', flags) + after == CodegenArguments(schemaUrl, template, outputPath, Some(hs));
  }

  /**
   * Two strings without `q` make none when joined at a character `q` does
   * not have: no occurrence can straddle the seam.
   */
  lemma FreeConcat(x: string, y: string, q: string)
    requires |q| > 0 && !Contains(x, q) && !Contains(y, q)
    requires (x != [] && x[|x| - 1] !in q) || (y != [] && y[0] !in q)
    ensures !Contains(x + y, q)
  {
    var xy := x + y;
    forall i | 0 <= i <= |xy| ensures !Occurs(xy, q, i) {
      if 0 <= i && i + |q| <= |xy| {
        var w := xy[i..i + |q|];
        if i + |q| <= |x| {
          assert w == x[i..i + |q|];
          assert !Occurs(x, q, i);
        } else if i >= |x| {
          assert w == y[i - |x|..i - |x| + |q|];
          assert !Occurs(y, q, i - |x|);
        } else if x != [] && x[|x| - 1] !in q {
          assert w[|x| - 1 - i] == x[|x| - 1];
        } else {
          assert w[|x| - i] == y[0];
        }
      }
    }
  }

  lemma CodegenWordsHaveNoHeader()
    ensures !Contains("graphql-codegen ", HEADER_OPTION)
    ensures !Contains("--schema ", HEADER_OPTION)
    ensures !Contains("--template ", HEADER_OPTION)
    ensures !Contains("--out ", HEADER_OPTION)
    ensures !Contains(" ", HEADER_OPTION)
    ensures !Contains("/", HEADER_OPTION)
    ensures !Contains(GRAPHQL_GLOB, HEADER_OPTION)
  {
    var v := HEADER_OPTION;
    var u := "graphql-codegen ";
    forall d | 0 <= d < |u| && u[d] == v[0] ensures !AgreeAt(u, v, d) {
      assert d == 7;
      assert u[8] != v[1];
    }
    assert forall e :: 0 < e < |v| ==> v[e] != u[0];
    DisjointByAnchors(u, v);
    DisjointExcludes(u, v);
    OptionHasNoHeader("--schema ");
    OptionHasNoHeader("--template ");
    OptionHasNoHeader("--out ");
    assert forall d :: 0 <= d < |GRAPHQL_GLOB| ==> GRAPHQL_GLOB[d] != v[0];
    assert forall e :: 0 < e < |v| ==> v[e] != GRAPHQL_GLOB[0];
    DisjointByAnchors(GRAPHQL_GLOB, v);
    DisjointExcludes(GRAPHQL_GLOB, v);
  }

  /** An option "--x..." whose third character is neither '-' nor 'h' holds no "--header". */
  lemma OptionHasNoHeader(u: string)
    requires |u| >= 3 && u[0] == '-' && u[1] == '-' && u[2] != '-' && u[2] != 'h'
    requires forall d :: 2 <= d < |u| ==> u[d] != '-'
    ensures !Contains(u, HEADER_OPTION)
  {
    var v := HEADER_OPTION;
    forall d | 0 <= d < |u| && u[d] == v[0] ensures !AgreeAt(u, v, d) {
      assert u[2] != v[2 - d];
    }
    forall e | 0 < e < |v| && v[e] == u[0] ensures !AgreeAt(u, v, -e) {
      assert e == 1;
      assert u[1] != v[2];
    }
    DisjointByAnchors(u, v);
    DisjointExcludes(u, v);
  }

  lemma GlobPathHasNoHeader(outputPath: string)
    requires !Contains(outputPath, HEADER_OPTION)
    ensures !Contains(PathCombine(outputPath, GRAPHQL_GLOB), HEADER_OPTION)
  {
    CodegenWordsHaveNoHeader();
    if outputPath != [] {
      if outputPath[|outputPath| - 1] == '/' {
        FreeConcat(outputPath, GRAPHQL_GLOB, HEADER_OPTION);
      } else {
        FreeConcat(outputPath, "/", HEADER_OPTION);
        FreeConcat(outputPath + "/", GRAPHQL_GLOB, HEADER_OPTION);
      }
    }
  }

  /**
   * Without headers (none given, or an empty set), and with a schema URL,
   * template and output path that do not spell it themselves, the command line
   * has no "--header".
   */
  lemma NoHeaderWithoutHeaders(schemaUrl: string, template: string, outputPath: string,
                               headers: Option<seq<(string, string)>>)
    requires headers == None || headers == Some([])
    requires !Contains(schemaUrl, HEADER_OPTION) && !Contains(template, HEADER_OPTION)
    requires !Contains(outputPath, HEADER_OPTION)
    ensures !Contains(CodegenArguments(schemaUrl, template, outputPath, headers), HEADER_OPTION)
  {
    var q := HEADER_OPTION;
    CodegenWordsHaveNoHeader();
    GlobPathHasNoHeader(outputPath);
    assert HeaderFlags(headers) == [];
    var a0 := "graphql-codegen ";
    var a1 := a0 + "--schema ";
    FreeConcat(a0, "--schema ", q);
    var a2 := a1 + schemaUrl;
    FreeConcat(a1, schemaUrl, q);
    var a3 := a2 + " ";
    FreeConcat(a2, " ", q);
    var a4 := a3 + "--template ";
    FreeConcat(a3, "--template ", q);
    var a5 := a4 + template;
    FreeConcat(a4, template, q);
    var a6 := a5 + " ";
    FreeConcat(a5, " ", q);
    var a7 := a6 + "--out ";
    FreeConcat(a6, "--out ", q);
    var a8 := a7 + outputPath;
    FreeConcat(a7, outputPath, q);
    var a9 := a8 + " ";
    FreeConcat(a8, " ", q);
    var a10 := a9 + "";
    assert a10 == a9;
    var a11 := a10 + " ";
    FreeConcat(a10, " ", q);
    var a12 := a11 + PathCombine(outputPath, GRAPHQL_GLOB);
    FreeConcat(a11, PathCombine(outputPath, GRAPHQL_GLOB), q);
    assert a12 == CodegenArguments(schemaUrl, template, outputPath, headers);
  }

  // ---------------------------------------------------------------------------
  // The external commands.
  // ---------------------------------------------------------------------------

  /** One call of the command executor. */
  datatype Command = Command(command: string, arguments: string)

  const INSTALL_PNPM := Command("npm", "install -g pnpm")
  const INSTALL_CODEGEN := Command("pnpm", "install @graphql-codegen/cli @graphql-codegen/typescript")

  /** The commands GenerateCode runs, in order. */
  function CodegenCommands(schemaUrl: string, template: string, outputPath: string,
                           headers: Option<seq<(string, string)>>): seq<Command>
  {
    [INSTALL_PNPM, INSTALL_CODEGEN, Command("pnpm", CodegenArguments(schemaUrl, template, outputPath, headers))]
  }

  /** How many of the commands run the named program. */
  function CountCalls(commands: seq<Command>, program: string): nat
  {
    if commands == [] then 0
    else CountCalls(commands[..|commands| - 1], program) + (if commands[|commands| - 1].command == program then 1 else 0)
  }

  /**
   * Without headers the command trace is: npm installs pnpm, pnpm installs the
   * code generator, and pnpm runs graphql-codegen with no "--header"; pnpm is
   * called exactly twice.
   */
  lemma TraceWithoutHeaders(schemaUrl: string, template: string, outputPath: string,
                            headers: Option<seq<(string, string)>>)
    requires headers == None || headers == Some([])
    requires !Contains(schemaUrl, HEADER_OPTION) && !Contains(template, HEADER_OPTION)
    requires !Contains(outputPath, HEADER_OPTION)
    ensures var trace := CodegenCommands(schemaUrl, template, outputPath, headers);
      CountCalls(trace, "pnpm") == 2 && trace[1].arguments == "install @graphql-codegen/cli @graphql-codegen/typescript"
      && StartsWith(trace[2].arguments, "graphql-codegen") && !Contains(trace[2].arguments, HEADER_OPTION)
  {
    var trace := CodegenCommands(schemaUrl, template, outputPath, headers);
    var t1, t2 := trace[..1], trace[..2];
    assert t1[..0] == [] && t2[..1] == t1 && trace[..2] == t2;
    assert CountCalls(t1, "pnpm") == 0;
    assert CountCalls(t2, "pnpm") == 1;
    ArgumentsLayout(schemaUrl, template, outputPath, headers);
    NoHeaderWithoutHeaders(schemaUrl, template, outputPath, headers);
  }

  // ---------------------------------------------------------------------------
  // The generator.
  // ---------------------------------------------------------------------------

  /** How a run ends: normally, or with the exception's message. */
  datatype Outcome = Completed | Failed(message: string)

  /** The message of the exception raised when the generator left no Classes.cs behind. */
  function MissingClassesMessage(outputPath: string): string
  {
    MISSING_CLASSES + " at " + PathCombine(outputPath, CLASSES_FILE)
  }

  /** The message says what is missing and where it was looked for. */
  lemma MissingClassesMessageNamesPath(outputPath: string)
    ensures Contains(MissingClassesMessage(outputPath), MISSING_CLASSES)
    ensures Contains(MissingClassesMessage(outputPath), PathCombine(outputPath, CLASSES_FILE))
  {
    var m := MissingClassesMessage(outputPath);
    var prefix := MISSING_CLASSES + " at ";
    assert Occurs(m, MISSING_CLASSES, 0);
    assert m[|prefix|..] == PathCombine(outputPath, CLASSES_FILE);
    assert Occurs(m, PathCombine(outputPath, CLASSES_FILE), |prefix|);
  }

  // ---------------------------------------------------------------------------
  // The generated Classes.cs of the scenarios in CodeGeneratorTests.cs.
  // ---------------------------------------------------------------------------

  const MODEL_FILE_OF_TESTS := "Models.cs"
  const TEST_QUERY_FILE := "TestQuery.generated.cs"

  /**
   * The Classes.cs the tests have the generator leave behind, with an "input
   * types" region and a TestQuery region; the tests indent the region lines by
   * four spaces, here any blank indentation.
   */
  function ClassesWithModels(indent: string): seq<string>
  {
    ["", GENERATED_NAMESPACE, "{",
     indent + REGION_START + " " + MODELS_REGION, indent + "public class TestModel {}", indent + REGION_END,
     "",
     indent + REGION_START + " " + "TestQuery", indent + "public class TestQuery {}", indent + REGION_END,
     "}"]
  }

  /** The same file with the TestQuery region only. */
  function ClassesWithoutModels(indent: string): seq<string>
  {
    ["", GENERATED_NAMESPACE, "{",
     indent + REGION_START + " " + "TestQuery", indent + "public class TestQuery {}", indent + REGION_END,
     "}"]
  }

  /** The unindented lines of the fixtures are no markers. */
  lemma FixturePlainLines()
    ensures !IsMarker("") && !IsMarker(GENERATED_NAMESPACE) && !IsMarker("{") && !IsMarker("}")
  {
    UnindentedPlain("");
    UnindentedPlain(GENERATED_NAMESPACE);
    UnindentedPlain("{");
    UnindentedPlain("}");
  }

  /** The marker lines and the member line of one indented fixture region. */
  lemma FixtureRegionLines(indent: string, name: string, member: string)
    requires IsBlank(indent) && '#' !in name
    requires name != [] && !IsWhiteSpace(name[0]) && !IsWhiteSpace(name[|name| - 1])
    requires member != [] && !IsWhiteSpace(member[0]) && member[0] != '#'
    ensures IsRegionStart(indent + REGION_START + " " + name)
    ensures RegionName(indent + REGION_START + " " + name) == name
    ensures IsRegionEnd(indent + REGION_END) && !IsMarker(indent + member)
  {
    NamedStart(indent, name);
    IndentedEnd(indent);
    IndentedPlain(indent, member);
  }

  /** ClassesWithModels cut into the pieces TwoRegions reads. */
  lemma ClassesWithModelsLayout(indent: string)
    ensures ClassesWithModels(indent) ==
      ["", GENERATED_NAMESPACE, "{"] + [indent + REGION_START + " " + MODELS_REGION]
      + [indent + "public class TestModel {}"] + [indent + REGION_END] + [""]
      + [indent + REGION_START + " " + "TestQuery"] + [indent + "public class TestQuery {}"]
      + [indent + REGION_END] + ["}"]
  {
  }

  /** The two regions of ClassesWithModels; the second also carries the blank line between them. */
  lemma RegionsWithModels(indent: string)
    requires IsBlank(indent)
    ensures ParseLines(ClassesWithModels(indent)) == [
      Region(MODELS_REGION, ["", GENERATED_NAMESPACE, "{", indent + "public class TestModel {}"]),
      Region("TestQuery", ["", GENERATED_NAMESPACE, "{", "", indent + "public class TestQuery {}"])]
  {
    var pre := ["", GENERATED_NAMESPACE, "{"];
    var open1, open2 := indent + REGION_START + " " + MODELS_REGION, indent + REGION_START + " " + "TestQuery";
    var close := indent + REGION_END;
    var body1, body2 := [indent + "public class TestModel {}"], [indent + "public class TestQuery {}"];
    ClassesWithModelsLayout(indent);
    FixtureRegionLines(indent, MODELS_REGION, "public class TestModel {}");
    FixtureRegionLines(indent, "TestQuery", "public class TestQuery {}");
    assert ParseLines(pre + [open1] + body1 + [close] + [""] + [open2] + body2 + [close] + ["}"]) ==
      [Region(MODELS_REGION, pre + body1), Region("TestQuery", pre + [""] + body2)] by {
      FixturePlainLines();
      TwoRegions(pre, open1, body1, close, [""], open2, body2, close, ["}"]);
    }
    assert pre + body1 == ["", GENERATED_NAMESPACE, "{", indent + "public class TestModel {}"];
    assert pre + [""] + body2 == ["", GENERATED_NAMESPACE, "{", "", indent + "public class TestQuery {}"];
  }

  /** The one region of ClassesWithoutModels. */
  lemma RegionsWithoutModels(indent: string)
    requires IsBlank(indent)
    ensures ParseLines(ClassesWithoutModels(indent)) ==
      [Region("TestQuery", ["", GENERATED_NAMESPACE, "{", indent + "public class TestQuery {}"])]
  {
    FixturePlainLines();
    IndentedPlain(indent, "public class TestQuery {}");
    IndentedEnd(indent);
    NamedStart(indent, "TestQuery");
    var pre := ["", GENERATED_NAMESPACE, "{"];
    var body := [indent + "public class TestQuery {}"];
    OneRegion(pre, indent + REGION_START + " " + "TestQuery", body, indent + REGION_END, ["}"]);
    assert pre + [indent + REGION_START + " " + "TestQuery"] + body + [indent + REGION_END] + ["}"]
      == ClassesWithoutModels(indent);
    assert pre + body == ["", GENERATED_NAMESPACE, "{", indent + "public class TestQuery {}"];
  }

  /** Models.cs is not a ".generated.cs" path, wherever the output goes. */
  lemma ModelFileOfTestsNotGenerated(dir: string)
    ensures !EndsWith(PathCombine(dir, MODEL_FILE_OF_TESTS), GENERATED_SUFFIX)
  {
    var p := PathCombine(dir, MODEL_FILE_OF_TESTS);
    CombineEndsWithName(dir, MODEL_FILE_OF_TESTS);
    assert p[|p| - 9] == 'M';
    if |GENERATED_SUFFIX| <= |p| {
      assert p[|p| - |GENERATED_SUFFIX|..][4] == p[|p| - 9];
    }
  }

  /** The file the TestQuery region goes to, and the only region write of either fixture. */
  lemma {:induction false} TestQueryWrite(regions: seq<Region>, query: Region)
    requires |regions| >= 1 && regions[|regions| - 1] == query && query.name == "TestQuery"
    requires forall i :: 0 <= i < |regions| - 1 ==> regions[i].name in RESERVED
    ensures RegionWrites(regions, TEST_NAMESPACE) == [Write(TEST_QUERY_FILE, FileContent(query, TEST_NAMESPACE))]
  {
    var n := |regions| - 1;
    assert RegionWrites(regions[..n], TEST_NAMESPACE) == [] by {
      RegionWritesCounted(regions[..n], TEST_NAMESPACE);
      NoOthers(regions[..n]);
    }
    assert RegionFileName("TestQuery") == TEST_QUERY_FILE;
  }

  lemma {:induction false} NoOthers(regions: seq<Region>)
    requires forall i :: 0 <= i < |regions| ==> regions[i].name in RESERVED
    ensures OtherCount(regions) == 0
  {
    if regions != [] {
      NoOthers(regions[..|regions| - 1]);
    }
  }

  /** A plan over an "input types" region and a TestQuery region writes both files. */
  lemma ModelsAndQueryWritten(files: map<string, string>, dir: string, models: Region, query: Region)
    requires models.name == MODELS_REGION && query.name == "TestQuery"
    requires PathCombine(dir, MODEL_FILE_OF_TESTS) !in files
    ensures var out := ApplyWrites(files, dir, Plan([models, query], MODEL_FILE_OF_TESTS, TEST_NAMESPACE));
      && PathCombine(dir, MODEL_FILE_OF_TESTS) in out
      && out[PathCombine(dir, MODEL_FILE_OF_TESTS)] == FileContent(models, TEST_NAMESPACE)
      && PathCombine(dir, TEST_QUERY_FILE) in out
  {
    var regions := [models, query];
    var plan := Plan(regions, MODEL_FILE_OF_TESTS, TEST_NAMESPACE);
    ModelFileOfTestsNotGenerated(dir);
    ModelFileIffInputTypes(files, dir, regions, MODEL_FILE_OF_TESTS, TEST_NAMESPACE);
    assert regions[0].name == MODELS_REGION;
    ModelWriteRendersFirst(regions, MODEL_FILE_OF_TESTS, TEST_NAMESPACE, 0);
    TestQueryWrite(regions, query);
    assert plan[1].fileName == TEST_QUERY_FILE && |plan| == 2;
    LastWriteWins(files, dir, plan, 1);
  }

  /** The "input types" region of the first fixture, rewritten, declares the test namespace instead of "namespace Generated". */
  lemma ModelsOfFixtureRewritten(indent: string)
    ensures var c := FileContent(Region(MODELS_REGION, ["", GENERATED_NAMESPACE, "{", indent + "public class TestModel {}"]), TEST_NAMESPACE);
      Contains(c, "namespace " + TEST_NAMESPACE) && !Contains(c, GENERATED_NAMESPACE)
  {
    var models := Region(MODELS_REGION, ["", GENERATED_NAMESPACE, "{", indent + "public class TestModel {}"]);
    assert !IsWhiteSpace(models.lines[1][0]);
    KeptLineRendered(models, 1);
    RewriteWithTestNamespace(models.GetSourceCode());
  }

  /**
   * With the first fixture, Models.cs appears and declares "namespace
   * Test.Namespace" instead of "namespace Generated", and TestQuery gets its
   * own file.
   */
  lemma GenerationWithModels(files: map<string, string>, dir: string, indent: string)
    requires IsBlank(indent) && PathCombine(dir, MODEL_FILE_OF_TESTS) !in files
    ensures var out := ApplyWrites(files, dir, Plan(ParseLines(ClassesWithModels(indent)), MODEL_FILE_OF_TESTS, TEST_NAMESPACE));
      && PathCombine(dir, MODEL_FILE_OF_TESTS) in out
      && Contains(out[PathCombine(dir, MODEL_FILE_OF_TESTS)], "namespace " + TEST_NAMESPACE)
      && !Contains(out[PathCombine(dir, MODEL_FILE_OF_TESTS)], GENERATED_NAMESPACE)
      && PathCombine(dir, TEST_QUERY_FILE) in out
  {
    RegionsWithModels(indent);
    var regions := ParseLines(ClassesWithModels(indent));
    ModelsAndQueryWritten(files, dir, regions[0], regions[1]);
    assert regions == [regions[0], regions[1]];
    ModelsOfFixtureRewritten(indent);
  }

  /** With the second fixture, no Models.cs appears, and TestQuery gets its own file. */
  lemma GenerationWithoutModels(files: map<string, string>, dir: string, indent: string)
    requires IsBlank(indent) && PathCombine(dir, MODEL_FILE_OF_TESTS) !in files
    ensures var out := ApplyWrites(files, dir, Plan(ParseLines(ClassesWithoutModels(indent)), MODEL_FILE_OF_TESTS, TEST_NAMESPACE));
      && PathCombine(dir, MODEL_FILE_OF_TESTS) !in out
      && PathCombine(dir, TEST_QUERY_FILE) in out
  {
    RegionsWithoutModels(indent);
    var regions := ParseLines(ClassesWithoutModels(indent));
    var plan := Plan(regions, MODEL_FILE_OF_TESTS, TEST_NAMESPACE);
    ModelFileOfTestsNotGenerated(dir);
    ModelFileIffInputTypes(files, dir, regions, MODEL_FILE_OF_TESTS, TEST_NAMESPACE);
    TestQueryWrite(regions, regions[0]);
    assert ModelWrites(regions, MODEL_FILE_OF_TESTS, TEST_NAMESPACE) == [];
    assert plan == [Write(TEST_QUERY_FILE, FileContent(regions[0], TEST_NAMESPACE))];
    LastWriteWins(files, dir, plan, 0);
  }

  /** The output directory: file contents by path. */
  class FileStore {
    var files: map<string, string>

    constructor(files: map<string, string>)
      ensures this.files == files
    {
      this.files := files;
    }

    /** File.WriteAllText: creates or replaces the file. */
    method WriteAllText(path: string, content: string)
      modifies this
      ensures files == old(files)[path := content]
    {
      files := files[path := content];
    }
  }

  /** A command executor that records its calls; every command succeeds. */
  class CommandLog {
    var calls: seq<Command>

    constructor()
      ensures calls == []
    {
      calls := [];
    }

    method ExecuteAsync(command: string, arguments: string)
      modifies this
      ensures calls == old(calls) + [Command(command, arguments)]
    {
      calls := calls + [Command(command, arguments)];
    }
  }

  class CodeGenerator {
    const schemaUrl: string
    const inputPath: string
    const outputPath: string
    const baseNamespace: string
    const headers: Option<seq<(string, string)>>
    const template: string
    const modelFile: string
    const executor: CommandLog
    const store: FileStore

    constructor(schemaUrl: string, inputPath: string, outputPath: string, baseNamespace: string,
                headers: Option<seq<(string, string)>>, template: string, modelFile: string,
                executor: CommandLog, store: FileStore)
      ensures this.schemaUrl == schemaUrl && this.inputPath == inputPath && this.outputPath == outputPath
      ensures this.baseNamespace == baseNamespace && this.headers == headers && this.template == template
      ensures this.modelFile == modelFile && this.executor == executor && this.store == store
    {
      this.schemaUrl := schemaUrl;
      this.inputPath := inputPath;
      this.outputPath := outputPath;
      this.baseNamespace := baseNamespace;
      this.headers := headers;
      this.template := template;
      this.modelFile := modelFile;
      this.executor := executor;
      this.store := store;
    }

    /**
     * Runs the external generator, then splits what it produced. `classes` is
     * the Classes.cs it leaves in the output directory, as lines, or None when
     * it leaves none.
     */
    method GenerateAsync(classes: Option<seq<string>>) returns (outcome: Outcome)
      modifies executor, store
      ensures executor.calls == old(executor.calls) + CodegenCommands(schemaUrl, template, outputPath, headers)
      ensures classes.None? ==> outcome == Failed(MissingClassesMessage(outputPath)) && store.files == old(store.files)
      ensures classes.Some? ==>
        outcome == Completed
        && store.files == ApplyWrites(old(store.files), outputPath, Plan(ParseLines(classes.value), modelFile, baseNamespace))
    {
      GenerateCode();
      outcome := ProcessRegions(classes);
    }

    method GenerateCode()
      modifies executor
      ensures executor.calls == old(executor.calls) + CodegenCommands(schemaUrl, template, outputPath, headers)
    {
      executor.ExecuteAsync("npm", "install -g pnpm");
      executor.ExecuteAsync("pnpm", "install @graphql-codegen/cli @graphql-codegen/typescript");
      var args := CodegenArguments(schemaUrl, template, outputPath, headers);
      executor.ExecuteAsync("pnpm", args);
    }

    /**
     * Writes the model file from the first "input types" region, then one
     * "<name>.generated.cs" per region whose name is not reserved; fails,
     * writing nothing, when there is no Classes.cs.
     */
    method ProcessRegions(classes: Option<seq<string>>) returns (outcome: Outcome)
      modifies store
      ensures classes.None? ==> outcome == Failed(MissingClassesMessage(outputPath)) && store.files == old(store.files)
      ensures classes.Some? ==>
        outcome == Completed
        && store.files == ApplyWrites(old(store.files), outputPath, Plan(ParseLines(classes.value), modelFile, baseNamespace))
    {
      if classes.None? {
        return Failed(MissingClassesMessage(outputPath));
      }
      var regions := Parse(classes);
      var models := FirstNamed(regions, MODELS_REGION);
      if models.Some? {
        GenerateFile(modelFile, models.value);
      }
      ghost var modelWrites := ModelWrites(regions, modelFile, baseNamespace);
      assert modelWrites == [] + modelWrites;
      for i := 0 to |regions|
        invariant store.files == ApplyWrites(old(store.files), outputPath, modelWrites + RegionWrites(regions[..i], baseNamespace))
      {
        var region := regions[i];
        RegionWritesStep(modelWrites, regions, i, baseNamespace);
        ghost var before := modelWrites + RegionWrites(regions[..i], baseNamespace);
        if region.name !in RESERVED {
          GenerateFile(RegionFileName(region.name), region);
          ghost var w := Write(RegionFileName(region.name), FileContent(region, baseNamespace));
          ApplyWritesSnoc(old(store.files), outputPath, before, w);
        } else {
          assert before + [] == before;
        }
      }
      assert regions[..|regions|] == regions;
      return Completed;
    }

    /** Writes the region, rendered and rewritten, to the named file of the output directory. */
    method GenerateFile(fileName: string, region: Region)
      modifies store
      ensures store.files == old(store.files)[PathCombine(outputPath, fileName) := FileContent(region, baseNamespace)]
    {
      var content := FileContent(region, baseNamespace);
      store.WriteAllText(PathCombine(outputPath, fileName), content);
    }
  }
}
