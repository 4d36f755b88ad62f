/** `buildInstructions`: the deployment bundle assembled from the compiled
    script directory, the package manifest and a fixed bootstrap stub.
    The directory listing and the file texts are inputs. */
module Bundle {
  import opened Base

  /** One file of a deployment; the source promises that either `url` or
      `content` is present. */
  datatype DeploymentFile = DeploymentFile(
    path: string,
    url: Option<string>,
    content: Option<string>,
    sourceName: Option<string>,
    kind: Option<string>,
    isUnused: Option<bool>)

  /** `meta` is an object the builder always leaves empty; it is modelled as
      a map from keys to their JSON text. */
  datatype DeploymentInstructions = DeploymentInstructions(
    meta: map<string, string>,
    files: seq<DeploymentFile>,
    error: Option<string>)

  /** A name returned by `readdirSync` on the script directory, with the
      text `readFileSync` returns for it. */
  datatype DirEntry = DirEntry(name: string, text: string)

  const ScriptPrefix := "script/"
  const ManifestPath := "package.json"
  const StubPath := "script/compiled.js"
  const StubContent := "require(\"./tdlite.js\");\n"
  const BadSettings := "bad compiler settings"

  /** `/\.js$/.test(fn)` */
  predicate IsScript(name: string) {
    EndsWith(name, ".js")
  }

  /** The entry at position `i` of the listing is a script. */
  predicate ScriptAt(dir: seq<DirEntry>, i: nat)
    requires i < |dir|
  {
    IsScript(dir[i].name)
  }

  /** A file carried inline, with every optional field but `content` absent. */
  function Inline(path: string, text: string): DeploymentFile {
    DeploymentFile(path, None, Some(text), None, None, None)
  }

  /** Exactly one of `content` and `url` is present. */
  predicate InlineOnly(f: DeploymentFile) {
    f.content.Some? && f.url.None?
  }

  /** The file the loop pushes for one directory entry, if any. */
  function EntryFiles(e: DirEntry): seq<DeploymentFile> {
    if IsScript(e.name) then [Inline(ScriptPrefix + e.name, e.text)] else []
  }

  /** The files pushed by the loop over the listing from position `from`
      on, in listing order. */
  function ScriptFilesFrom(dir: seq<DirEntry>, from: nat): seq<DeploymentFile>
    requires from <= |dir|
    decreases |dir| - from
  {
    if from == |dir| then [] else EntryFiles(dir[from]) + ScriptFilesFrom(dir, from + 1)
  }

  /** The files pushed by the loop over the whole listing. */
  function ScriptFiles(dir: seq<DirEntry>): seq<DeploymentFile> {
    ScriptFilesFrom(dir, 0)
  }

  /** The whole file list of a successful build. */
  function BundleFiles(dir: seq<DirEntry>, manifest: string): seq<DeploymentFile> {
    ScriptFiles(dir) + [Inline(ManifestPath, manifest), Inline(StubPath, StubContent)]
  }

  /** The number of listed names that end in `.js`. */
  function CountScripts(dir: seq<DirEntry>): nat {
    |set i | 0 <= i < |dir| && IsScript(dir[i].name)|
  }

  /** `buildInstructions(settings)`: `settingsTruthy` is the truthiness of
      the settings argument, `dir` the listing of the script directory with
      each file's text, `manifest` the text of `../package.json`. */
  method BuildInstructions(settingsTruthy: bool, dir: seq<DirEntry>, manifest: string)
    returns (r: Result<DeploymentInstructions>)
    ensures !settingsTruthy ==> r == Failure(BadSettings)
    ensures settingsTruthy ==>
      r == Success(DeploymentInstructions(map[], BundleFiles(dir, manifest), None))
  {
    if !settingsTruthy {
      return Failure(BadSettings);
    }
    var files: seq<DeploymentFile> := [];
    var i := 0;
    while i < |dir|
      invariant 0 <= i <= |dir|
      invariant files + ScriptFilesFrom(dir, i) == ScriptFiles(dir)
    {
      var fn := dir[i].name;
      if IsScript(fn) {
        files := files + [Inline(ScriptPrefix + fn, dir[i].text)];
      }
      i := i + 1;
    }
    assert files == ScriptFiles(dir);
    files := files + [Inline(ManifestPath, manifest)];
    files := files + [Inline(StubPath, StubContent)];
    assert files == BundleFiles(dir, manifest);
    return Success(DeploymentInstructions(map[], files, None));
  }

  /** The positions of the `.js` entries from position `from` on, in
      listing order. */
  function ScriptPositions(dir: seq<DirEntry>, from: nat): (idx: seq<nat>)
    requires from <= |dir|
    ensures forall j :: 0 <= j < |idx| ==> from <= idx[j] < |dir|
    decreases |dir| - from
  {
    if from == |dir| then []
    else (if ScriptAt(dir, from) then [from] else []) + ScriptPositions(dir, from + 1)
  }

  predicate Increasing(idx: seq<nat>) {
    forall j, k :: 0 <= j < k < |idx| ==> idx[j] < idx[k]
  }

  lemma {:induction false} ScriptPositionsIncreasing(dir: seq<DirEntry>, from: nat)
    requires from <= |dir|
    ensures Increasing(ScriptPositions(dir, from))
    decreases |dir| - from
  {
    if from < |dir| {
      var rest := ScriptPositions(dir, from + 1);
      ScriptPositionsIncreasing(dir, from + 1);
      var head := if ScriptAt(dir, from) then [from] else [];
      var idx := head + rest;
      var h := |head|;
      forall j, k | 0 <= j < k < |idx| ensures idx[j] < idx[k] {
        assert idx[k] == rest[k - h];
        if j >= h {
          assert idx[j] == rest[j - h];
        }
      }
    }
  }

  /** The `.js` entries, and only they, have a position in the list. */
  lemma {:induction false} ScriptPositionsExact(dir: seq<DirEntry>, from: nat)
    requires from <= |dir|
    ensures forall j :: 0 <= j < |ScriptPositions(dir, from)| ==> ScriptAt(dir, ScriptPositions(dir, from)[j])
    ensures forall i :: from <= i < |dir| && ScriptAt(dir, i) ==> i in ScriptPositions(dir, from)
    decreases |dir| - from
  {
    if from < |dir| {
      var rest := ScriptPositions(dir, from + 1);
      ScriptPositionsExact(dir, from + 1);
      var head := if ScriptAt(dir, from) then [from] else [];
      var idx := head + rest;
      forall j | 0 <= j < |idx| ensures ScriptAt(dir, idx[j]) {
        if j >= |head| {
          assert idx[j] == rest[j - |head|];
        }
      }
      forall i | from <= i < |dir| && ScriptAt(dir, i) ensures i in idx {
        if i > from {
          assert i in rest;
        }
      }
    }
  }

  /** The `j`-th script file is the inlined `j`-th `.js` entry. */
  lemma {:induction false} ScriptFilesAtPositions(dir: seq<DirEntry>, from: nat)
    requires from <= |dir|
    ensures |ScriptFilesFrom(dir, from)| == |ScriptPositions(dir, from)|
    ensures forall j :: 0 <= j < |ScriptFilesFrom(dir, from)| ==>
      ScriptFilesFrom(dir, from)[j] == Inline(ScriptPrefix + dir[ScriptPositions(dir, from)[j]].name,
                                              dir[ScriptPositions(dir, from)[j]].text)
    decreases |dir| - from
  {
    if from < |dir| {
      var rest := ScriptPositions(dir, from + 1);
      var files := ScriptFilesFrom(dir, from + 1);
      ScriptFilesAtPositions(dir, from + 1);
      var head := EntryFiles(dir[from]);
      var h := |head|;
      var idx := (if ScriptAt(dir, from) then [from] else []) + rest;
      var all := head + files;
      forall j | 0 <= j < |all|
        ensures all[j] == Inline(ScriptPrefix + dir[idx[j]].name, dir[idx[j]].text)
      {
        if j >= h {
          assert idx[j] == rest[j - h] && all[j] == files[j - h];
        }
      }
    }
  }

  /** The script part of the bundle selects, in listing order, exactly the
      entries whose name ends in `.js`: `idx` lists their positions. */
  lemma ScriptFilesSelect(dir: seq<DirEntry>) returns (idx: seq<nat>)
    ensures |idx| == |ScriptFiles(dir)|
    ensures Increasing(idx)
    ensures forall j :: 0 <= j < |idx| ==>
      (idx[j] < |dir| && ScriptAt(dir, idx[j])
       && ScriptFiles(dir)[j] == Inline(ScriptPrefix + dir[idx[j]].name, dir[idx[j]].text))
    ensures forall i :: 0 <= i < |dir| && ScriptAt(dir, i) ==> i in idx
  {
    idx := ScriptPositions(dir, 0);
    ScriptPositionsIncreasing(dir, 0);
    ScriptPositionsExact(dir, 0);
    ScriptFilesAtPositions(dir, 0);
  }

  /** A successful build carries one file per `.js` name plus the manifest and
      the stub, each inline, with the manifest and the stub last. */
  lemma BundleShape(dir: seq<DirEntry>, manifest: string)
    ensures |BundleFiles(dir, manifest)| == CountScripts(dir) + 2
    ensures forall f :: f in BundleFiles(dir, manifest) ==> InlineOnly(f)
    ensures forall j :: 0 <= j < |ScriptFiles(dir)| ==>
      StartsWith(BundleFiles(dir, manifest)[j].path, ScriptPrefix)
    ensures var fs := BundleFiles(dir, manifest);
      fs[|fs| - 2] == Inline(ManifestPath, manifest)
      && fs[|fs| - 1] == Inline(StubPath, StubContent)
  {
    var idx := ScriptFilesSelect(dir);
    var fs := BundleFiles(dir, manifest);
    SelectedCount(dir, idx);
    forall j | 0 <= j < |ScriptFiles(dir)|
      ensures StartsWith(fs[j].path, ScriptPrefix) && InlineOnly(fs[j])
    {
      assert fs[j] == ScriptFiles(dir)[j];
      assert (ScriptPrefix + dir[idx[j]].name)[..|ScriptPrefix|] == ScriptPrefix;
    }
    forall f | f in fs ensures InlineOnly(f) {
      var j :| 0 <= j < |fs| && fs[j] == f;
    }
  }

  /** The positions selected by `ScriptFilesSelect` are exactly the `.js`
      entries, so there are `CountScripts(dir)` of them. */
  lemma SelectedCount(dir: seq<DirEntry>, idx: seq<nat>)
    requires forall j, k :: 0 <= j < k < |idx| ==> idx[j] < idx[k]
    requires forall j :: 0 <= j < |idx| ==> idx[j] < |dir| && IsScript(dir[idx[j]].name)
    requires forall i :: 0 <= i < |dir| && IsScript(dir[i].name) ==> i in idx
    ensures |idx| == CountScripts(dir)
  {
    var chosen := set i | 0 <= i < |dir| && IsScript(dir[i].name);
    assert chosen == set j | 0 <= j < |idx| :: idx[j];
    DistinctCard(idx);
  }

  /** A strictly increasing sequence has as many distinct elements as entries. */
  lemma {:induction false} DistinctCard(idx: seq<nat>)
    requires forall j, k :: 0 <= j < k < |idx| ==> idx[j] < idx[k]
    ensures |set j | 0 <= j < |idx| :: idx[j]| == |idx|
  {
    if idx != [] {
      var last := |idx| - 1;
      DistinctCard(idx[..last]);
      var front := set j | 0 <= j < last :: idx[..last][j];
      assert (set j | 0 <= j < |idx| :: idx[j]) == front + {idx[last]};
      assert idx[last] !in front;
    }
  }

  /** Paths are unique within a bundle when no two `.js` entries share a name
      and none is called `compiled.js` (see `CompiledJsCollides` for why the
      second condition is needed). */
  lemma BundlePathsUnique(dir: seq<DirEntry>, manifest: string)
    requires forall i, k :: 0 <= i < k < |dir| && IsScript(dir[i].name) ==> dir[i].name != dir[k].name
    requires forall i :: 0 <= i < |dir| ==> dir[i].name != "compiled.js"
    ensures var fs := BundleFiles(dir, manifest);
      forall j, k :: 0 <= j < k < |fs| ==> fs[j].path != fs[k].path
  {
    var idx := ScriptFilesSelect(dir);
    var fs := BundleFiles(dir, manifest);
    var n := |ScriptFiles(dir)|;
    forall j, k | 0 <= j < k < |fs| ensures fs[j].path != fs[k].path {
      if k < n {
        assert fs[j] == ScriptFiles(dir)[j] && fs[k] == ScriptFiles(dir)[k];
        PrefixCancel(ScriptPrefix, dir[idx[j]].name, dir[idx[k]].name);
      } else if j < n {
        var name := dir[idx[j]].name;
        assert fs[j] == ScriptFiles(dir)[j];
        assert fs[j].path == ScriptPrefix + name;
        if k == n {
          assert fs[k] == Inline(ManifestPath, manifest);
          assert fs[j].path[0] == 's' && fs[k].path[0] == 'p';
        } else {
          PrefixCancel(ScriptPrefix, name, "compiled.js");
        }
      }
    }
  }

  lemma PrefixCancel(p: string, a: string, b: string)
    requires a != b
    ensures p + a != p + b
  {
    assert (p + a)[|p|..] == a;
    assert (p + b)[|p|..] == b;
  }

  /** Every `.js` entry at or after `from` is pushed, inlined. */
  lemma {:induction false} ScriptListed(dir: seq<DirEntry>, from: nat, p: nat)
    requires from <= p < |dir| && ScriptAt(dir, p)
    ensures Inline(ScriptPrefix + dir[p].name, dir[p].text) in ScriptFilesFrom(dir, from)
    decreases |dir| - from
  {
    if from < p {
      ScriptListed(dir, from + 1, p);
    }
  }

  /** A listed `compiled.js` collides with the stub: the bundle then has two
      files at `script/compiled.js`. */
  lemma CompiledJsCollides(dir: seq<DirEntry>, p: nat, manifest: string)
    requires p < |dir| && dir[p].name == "compiled.js"
    ensures var fs := BundleFiles(dir, manifest);
      exists j, k :: 0 <= j < k < |fs| && fs[j].path == StubPath && fs[k].path == StubPath
  {
    var fs := BundleFiles(dir, manifest);
    var scripts := ScriptFiles(dir);
    assert ScriptPrefix + "compiled.js" == StubPath;
    assert ScriptAt(dir, p) by {
      assert dir[p].name[|dir[p].name| - 3..] == ".js";
    }
    ScriptListed(dir, 0, p);
    var j :| 0 <= j < |scripts| && scripts[j] == Inline(StubPath, dir[p].text);
    assert fs[j] == scripts[j];
    assert fs[|fs| - 1].path == StubPath;
  }

  /** `a.js`, `b.js` and `c.txt` give the two scripts, the manifest and the
      stub, and nothing for `c.txt`. */
  lemma ThreeEntryExample(ta: string, tb: string, tc: string, manifest: string)
    ensures BundleFiles([DirEntry("a.js", ta), DirEntry("b.js", tb), DirEntry("c.txt", tc)], manifest)
         == [Inline("script/a.js", ta), Inline("script/b.js", tb),
             Inline("package.json", manifest), Inline("script/compiled.js", StubContent)]
  {
    var d := [DirEntry("a.js", ta), DirEntry("b.js", tb), DirEntry("c.txt", tc)];
    assert !IsScript("c.txt") by {
      assert "c.txt"[2..] != ".js";
    }
    assert ScriptFilesFrom(d, 2) == [];
    ScriptEntry("b.js", tb, "script/b.js");
    assert ScriptFilesFrom(d, 1) == [Inline("script/b.js", tb)];
    ScriptEntry("a.js", ta, "script/a.js");
    assert ScriptFilesFrom(d, 0) == [Inline("script/a.js", ta), Inline("script/b.js", tb)];
  }

  /** A one-letter `.js` name is pushed under `path`. */
  lemma ScriptEntry(name: string, text: string, path: string)
    requires |name| == 4 && name[1..] == ".js" && path == ScriptPrefix + name
    ensures EntryFiles(DirEntry(name, text)) == [Inline(path, text)]
  {
  }
}
