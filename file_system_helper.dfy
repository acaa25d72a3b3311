/**
 * `FileSystemHelper`: directory materialisation over an abstract file system,
 * a map from path strings to what exists there, plus the log of documents
 * `saveYaml` has written.
 */
module FileSystemHelper {
  import opened Wrappers
  import opened PhpStrings
  import opened YamlDocument

  /** What exists at a path: a directory, or a file whose content decodes to a top-level mapping or not. */
  datatype Node = Dir | File(yaml: Option<Document>)

  /** One document persisted by `saveYaml`: destination root, path below it, the document written. */
  datatype Saved = Saved(dest: string, relPath: string, yaml: Document)

  /** A snapshot of the file system. */
  datatype Disk = Disk(nodes: map<string, Node>, saved: seq<Saved>)

  /** The two `LogicException`s `makeDir` throws. */
  datatype FsError = DirExists(path: string) | FileExists(path: string)

  datatype Status = Done | Failed(error: FsError)

  /** The directory separator (the model is of a Unix host, where it is "/"). */
  const Sep: char := '/'

  predicate IsFile(nodes: map<string, Node>, path: string)
  {
    path in nodes && nodes[path].File?
  }

  /** The entry for `path` is the same in both maps (or absent from both). */
  predicate SameAt(after: map<string, Node>, before: map<string, Node>, path: string)
  {
    (path in after <==> path in before) && (path in before ==> after[path] == before[path])
  }

  /** `basePath . DIRECTORY_SEPARATOR . filePath`: where `saveYaml` writes and `processRules` reads. */
  function JoinPath(basePath: string, filePath: string): string
  {
    basePath + [Sep] + filePath
  }

  /** The directory components of `filePath`: `explode` it and drop the file name. */
  function DirParts(filePath: string): seq<string>
  {
    var parts := Explode(Sep, filePath);
    parts[..|parts| - 1]
  }

  /** The value of `$dirPath` after `k` turns of the loop: base, then "/" and one component per turn. */
  function PathPrefix(basePath: string, dirs: seq<string>, k: nat): string
    requires k <= |dirs|
    decreases k
  {
    if k == 0 then basePath else PathPrefix(basePath, dirs, k - 1) + "/" + dirs[k - 1]
  }

  /** Every directory `createMissingDir` asks for, in the order it asks: the base, then each prefix. */
  function DirChain(basePath: string, filePath: string): seq<string>
  {
    var dirs := DirParts(filePath);
    seq(|dirs| + 1, k requires 0 <= k <= |dirs| => PathPrefix(basePath, dirs, k))
  }

  /** The index of the first path of `chain` that exists as a file, or `|chain|` if none does. */
  function FirstFile(nodes: map<string, Node>, chain: seq<string>): (k: nat)
    ensures k <= |chain|
    ensures forall j :: 0 <= j < k ==> !IsFile(nodes, chain[j])
    ensures k < |chain| ==> IsFile(nodes, chain[k])
    decreases |chain|
  {
    if chain == [] || IsFile(nodes, chain[0]) then 0
    else 1 + FirstFile(nodes, chain[1..])
  }

  /** `nodes` after each of `paths`, in order, has been made a directory. */
  function WithDirs(nodes: map<string, Node>, paths: seq<string>): map<string, Node>
    decreases |paths|
  {
    if paths == [] then nodes
    else WithDirs(nodes, paths[..|paths| - 1])[paths[|paths| - 1] := Dir]
  }

  /** The paths made directories are directories; every other path is as it was. */
  lemma {:induction false} WithDirsLookup(nodes: map<string, Node>, paths: seq<string>, p: string)
    ensures p in paths ==> p in WithDirs(nodes, paths) && WithDirs(nodes, paths)[p] == Dir
    ensures p !in paths ==> SameAt(WithDirs(nodes, paths), nodes, p)
    decreases |paths|
  {
    if paths != [] {
      var init := paths[..|paths| - 1];
      assert paths == init + [paths[|paths| - 1]];
      WithDirsLookup(nodes, init, p);
    }
  }

  /**
   * The effect of `createMissingDir`: the prefixes before the first file are
   * made directories; that file, if any, makes the call fail.
   */
  function MaterialiseDirs(nodes: map<string, Node>, basePath: string, filePath: string): (map<string, Node>, Status)
  {
    var chain := DirChain(basePath, filePath);
    var k := FirstFile(nodes, chain);
    (WithDirs(nodes, chain[..k]), if k == |chain| then Done else Failed(FileExists(chain[k])))
  }

  lemma {:induction false} PathPrefixGrows(basePath: string, dirs: seq<string>, i: nat, j: nat)
    requires i < j <= |dirs|
    ensures PathPrefix(basePath, dirs, i) < PathPrefix(basePath, dirs, j)
    decreases j
  {
    if i < j - 1 {
      PathPrefixGrows(basePath, dirs, i, j - 1);
    }
  }

  /**
   * Directories are asked for parent before child: the chain starts at the
   * base, each entry extends the previous one by "/" and one component, and
   * every entry is a proper prefix of every later one.
   */
  lemma ChainOrder(basePath: string, filePath: string)
    ensures var chain := DirChain(basePath, filePath);
      && |chain| == |DirParts(filePath)| + 1
      && chain[0] == basePath
      && (forall k :: 0 <= k < |chain| - 1 ==> chain[k + 1] == chain[k] + "/" + DirParts(filePath)[k])
      && (forall i, j :: 0 <= i < j < |chain| ==> chain[i] < chain[j])
  {
    var chain := DirChain(basePath, filePath);
    forall i, j | 0 <= i < j < |chain|
      ensures chain[i] < chain[j]
    {
      PathPrefixGrows(basePath, DirParts(filePath), i, j);
    }
  }

  lemma {:induction false} PathPrefixThenRest(basePath: string, parts: seq<string>, k: nat)
    requires 1 <= |parts| && k <= |parts| - 1
    ensures PathPrefix(basePath, parts[..|parts| - 1], k) + "/" + Implode("/", parts[k..]) == basePath + "/" + Implode("/", parts)
    decreases k
  {
    if k > 0 {
      PathPrefixThenRest(basePath, parts, k - 1);
      assert parts[k - 1..][1..] == parts[k..];
    }
  }

  /** The file is written just below the last directory of the chain. */
  lemma ChainReachesTarget(basePath: string, filePath: string)
    ensures var chain := DirChain(basePath, filePath); var parts := Explode(Sep, filePath);
      JoinPath(basePath, filePath) == chain[|chain| - 1] + "/" + parts[|parts| - 1]
  {
    var parts := Explode(Sep, filePath);
    ImplodeExplode(Sep, filePath);
    PathPrefixThenRest(basePath, parts, |parts| - 1);
    assert parts[|parts| - 1..] == [parts[|parts| - 1]];
  }

  /** The last component, the file name, is never asked for as a directory. */
  lemma FileNameNotInChain(basePath: string, filePath: string)
    ensures JoinPath(basePath, filePath) !in DirChain(basePath, filePath)
  {
    var chain := DirChain(basePath, filePath);
    ChainOrder(basePath, filePath);
    ChainReachesTarget(basePath, filePath);
    forall k | 0 <= k < |chain|
      ensures |chain[k]| < |JoinPath(basePath, filePath)|
    {
      if k < |chain| - 1 {
        assert chain[k] < chain[|chain| - 1];
      }
    }
  }

  /** A file path without a separator asks only for the base directory. */
  lemma NoSeparatorOnlyBase(basePath: string, filePath: string)
    requires Sep !in filePath
    ensures DirChain(basePath, filePath) == [basePath]
  {
    ExplodeWithoutSeparator(Sep, filePath);
  }

  /** The entries of the chain are pairwise different paths. */
  lemma ChainDistinct(basePath: string, filePath: string)
    ensures var chain := DirChain(basePath, filePath);
      forall i, j :: 0 <= i < j < |chain| ==> chain[i] != chain[j]
  {
    ChainOrder(basePath, filePath);
  }

  /**
   * What `createMissingDir` does to the chain. On success every path of the
   * chain is a directory. On failure the first file of the chain is named, the
   * prefixes before it are directories, and it and the later ones are as they
   * were.
   */
  lemma CreateMissingDirOutcome(nodes: map<string, Node>, basePath: string, filePath: string)
    ensures var chain := DirChain(basePath, filePath);
      var (after, st) := MaterialiseDirs(nodes, basePath, filePath);
      && (st.Done? <==> forall j :: 0 <= j < |chain| ==> !IsFile(nodes, chain[j]))
      && (st.Done? ==> forall j :: 0 <= j < |chain| ==> chain[j] in after && after[chain[j]] == Dir)
      && (st.Failed? ==> exists k :: (0 <= k < |chain| && st == Failed(FileExists(chain[k]))
            && IsFile(nodes, chain[k])
            && (forall j :: 0 <= j < k ==> chain[j] in after && after[chain[j]] == Dir)
            && (forall j :: k <= j < |chain| ==> SameAt(after, nodes, chain[j]))))
  {
    var chain := DirChain(basePath, filePath);
    var k := FirstFile(nodes, chain);
    var after := WithDirs(nodes, chain[..k]);
    ChainDistinct(basePath, filePath);
    forall j | 0 <= j < k
      ensures chain[j] in after && after[chain[j]] == Dir
    {
      assert chain[j] in chain[..k];
      WithDirsLookup(nodes, chain[..k], chain[j]);
    }
    forall j | k <= j < |chain|
      ensures SameAt(after, nodes, chain[j])
    {
      assert chain[j] !in chain[..k];
      WithDirsLookup(nodes, chain[..k], chain[j]);
    }
    if k < |chain| {
      assert IsFile(nodes, chain[k]);
    } else {
      assert chain[..k] == chain;
    }
  }

  /**
   * `createMissingDir` touches nothing outside the chain; in particular the
   * file path itself is left as it was.
   */
  lemma CreateMissingDirFrame(nodes: map<string, Node>, basePath: string, filePath: string)
    ensures var chain := DirChain(basePath, filePath);
      var after := MaterialiseDirs(nodes, basePath, filePath).0;
      && (forall p :: p !in chain ==> SameAt(after, nodes, p))
      && SameAt(after, nodes, JoinPath(basePath, filePath))
  {
    var chain := DirChain(basePath, filePath);
    var k := FirstFile(nodes, chain);
    FileNameNotInChain(basePath, filePath);
    forall p | p !in chain
      ensures SameAt(WithDirs(nodes, chain[..k]), nodes, p)
    {
      assert p !in chain[..k];
      WithDirsLookup(nodes, chain[..k], p);
    }
  }

  /** The file system: what exists at each path, and the log of saved documents. */
  class FileSystem {
    var nodes: map<string, Node>
    var saved: seq<Saved>

    constructor (nodes: map<string, Node>)
      ensures this.nodes == nodes && saved == []
    {
      this.nodes := nodes;
      saved := [];
    }

    function State(): Disk
      reads this
    {
      Disk(nodes, saved)
    }

    /**
     * `makeDir`: an existing directory is accepted when `ignoreExist` holds and
     * is an error otherwise; an existing file is an error; otherwise exactly
     * `dir` is added as a directory.
     */
    method MakeDir(dir: string, ignoreExist: bool) returns (st: Status)
      modifies this
      ensures dir !in old(nodes) ==> st == Done
      ensures dir in old(nodes) && old(nodes)[dir].Dir? ==> st == (if ignoreExist then Done else Failed(DirExists(dir)))
      ensures IsFile(old(nodes), dir) ==> st == Failed(FileExists(dir))
      ensures nodes == if st.Done? then old(nodes)[dir := Dir] else old(nodes)
      ensures saved == old(saved)
    {
      if dir in nodes {
        if nodes[dir].Dir? {
          if ignoreExist {
            assert nodes[dir := Dir] == nodes;
            return Done;
          }
          return Failed(DirExists(dir));
        }
        return Failed(FileExists(dir));
      }
      nodes := nodes[dir := Dir];
      st := Done;
    }

    /** `createMissingDir`: make the base directory, then each directory of the file path in turn. */
    method CreateMissingDir(basePath: string, filePath: string) returns (st: Status)
      modifies this
      ensures (nodes, st) == MaterialiseDirs(old(nodes), basePath, filePath)
      ensures saved == old(saved)
    {
      var pathParts := Explode(Sep, filePath);
      pathParts := pathParts[..|pathParts| - 1];
      ghost var chain := DirChain(basePath, filePath);
      ghost var firstFile := FirstFile(old(nodes), chain);
      MaterialiseStep(nodes, basePath, filePath, 0);
      assert chain[0] == basePath && chain[..0] == [];
      st := MakeDir(basePath, true);
      if st.Failed? {
        return;
      }
      var dirPath := basePath;
      var i := 0;
      while i < |pathParts|
        invariant 0 <= i <= |pathParts|
        invariant dirPath == chain[i]
        invariant firstFile > i
        invariant nodes == WithDirs(old(nodes), chain[..i + 1])
        invariant st == Done && saved == old(saved)
      {
        ChainNext(basePath, filePath, i);
        MaterialiseStep(old(nodes), basePath, filePath, i + 1);
        dirPath := dirPath + "/" + pathParts[i];
        st := MakeDir(dirPath, true);
        if st.Failed? {
          return;
        }
        i := i + 1;
      }
      MaterialiseDone(old(nodes), basePath, filePath);
    }
  }

  /**
   * The `i`-th request of the chain, reached with every earlier path a
   * directory: it sees the path as it was before the call; a file there is
   * where `MaterialiseDirs` stops, anything else becomes a directory.
   */
  lemma MaterialiseStep(nodes: map<string, Node>, basePath: string, filePath: string, i: nat)
    requires i < |DirChain(basePath, filePath)| && FirstFile(nodes, DirChain(basePath, filePath)) >= i
    ensures var chain := DirChain(basePath, filePath); var current := WithDirs(nodes, chain[..i]);
      && SameAt(current, nodes, chain[i])
      && (IsFile(nodes, chain[i]) ==> MaterialiseDirs(nodes, basePath, filePath) == (current, Failed(FileExists(chain[i]))))
      && (!IsFile(nodes, chain[i]) ==>
            FirstFile(nodes, chain) > i && current[chain[i] := Dir] == WithDirs(nodes, chain[..i + 1]))
  {
    var chain := DirChain(basePath, filePath);
    ChainDistinct(basePath, filePath);
    assert chain[i] !in chain[..i];
    WithDirsLookup(nodes, chain[..i], chain[i]);
    assert chain[..i + 1][..i] == chain[..i];
  }

  /** Past the last request without meeting a file, `MaterialiseDirs` has made the whole chain. */
  lemma MaterialiseDone(nodes: map<string, Node>, basePath: string, filePath: string)
    requires FirstFile(nodes, DirChain(basePath, filePath)) == |DirChain(basePath, filePath)|
    ensures MaterialiseDirs(nodes, basePath, filePath) == (WithDirs(nodes, DirChain(basePath, filePath)), Done)
  {
    var chain := DirChain(basePath, filePath);
    assert chain[..|chain|] == chain;
  }

  /** Each turn of the loop extends the previous directory by "/" and the next component. */
  lemma ChainNext(basePath: string, filePath: string, i: nat)
    requires i < |DirParts(filePath)|
    ensures var chain := DirChain(basePath, filePath); chain[i + 1] == chain[i] + "/" + DirParts(filePath)[i]
  {
  }
}
