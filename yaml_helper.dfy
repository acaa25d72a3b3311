/**
 * `YamlHelper`: top-level property removal, loading a document and saving one
 * below a destination root.
 */
module YamlHelper {
  import opened Wrappers
  import opened YamlDocument
  import opened FileSystemHelper

  /** One line of the `removeProps` report: the property and whether it was found ("found" / "not fount"). */
  datatype PropReport = PropReport(prop: string, found: bool)

  function Names(props: seq<string>): set<string>
  {
    set p | p in props
  }

  /** The document with every top-level entry whose key is in `names` unset; the rest keep their order. */
  function Without(d: Document, names: set<string>): Document
    decreases |d|
  {
    if d == [] then []
    else (if d[0].key in names then [] else [d[0]]) + Without(d[1..], names)
  }

  /**
   * The report of `removeProps(d, props)`: one line per name, in order; a name
   * is found when it is a key of `d` and was not named (and so removed) before.
   */
  function PropReports(d: Document, props: seq<string>): seq<PropReport>
  {
    seq(|props|, i requires 0 <= i < |props| => PropReport(props[i], props[i] in Keys(d) && props[i] !in props[..i]))
  }

  /**
   * The surviving entries are exactly the entries of `d` whose key is not
   * named, each with its value untouched (nested mappings are not entered).
   */
  lemma {:induction false} WithoutEntries(d: Document, names: set<string>)
    ensures forall e :: e in Without(d, names) <==> e in d && e.key !in names
    ensures Keys(Without(d, names)) == Keys(d) - names
    decreases |d|
  {
    if d != [] {
      WithoutEntries(d[1..], names);
      assert d == [d[0]] + d[1..];
    }
  }

  /** Removal keeps the relative order: it distributes over concatenation. */
  lemma {:induction false} WithoutKeepsOrder(a: Document, b: Document, names: set<string>)
    ensures Without(a + b, names) == Without(a, names) + Without(b, names)
    decreases |a|
  {
    if a == [] {
      assert a + b == b;
    } else {
      assert (a + b)[0] == a[0] && (a + b)[1..] == a[1..] + b;
      WithoutKeepsOrder(a[1..], b, names);
    }
  }

  /** Removing one set of names and then another is removing both. */
  lemma {:induction false} WithoutTwice(d: Document, first: set<string>, second: set<string>)
    ensures Without(Without(d, first), second) == Without(d, first + second)
    decreases |d|
  {
    if d != [] {
      WithoutTwice(d[1..], first, second);
      if d[0].key !in first {
        var once := Without(d, first);
        assert once == [d[0]] + Without(d[1..], first);
        assert once[0] == d[0] && once[1..] == Without(d[1..], first);
        assert Without(once, second) == (if d[0].key in second then [] else [d[0]]) + Without(once[1..], second);
      } else {
        assert Without(d, first) == Without(d[1..], first);
      }
    }
  }

  /** A document none of whose keys is named is left as it is. */
  lemma {:induction false} WithoutNothingNamed(d: Document, names: set<string>)
    requires Keys(d) !! names
    ensures Without(d, names) == d
    decreases |d|
  {
    if d != [] {
      assert d[0] in d;
      assert Keys(d[1..]) <= Keys(d) by {
        forall k | k in Keys(d[1..]) ensures k in Keys(d) {
          var e :| e in d[1..] && e.key == k;
          assert e in d;
        }
      }
      WithoutNothingNamed(d[1..], names);
      assert d == [d[0]] + d[1..];
    }
  }

  /** The result of a removal is still a PHP array: its keys stay distinct. */
  lemma {:induction false} WithoutDistinct(d: Document, names: set<string>)
    requires DistinctKeys(d)
    ensures DistinctKeys(Without(d, names))
    decreases |d|
  {
    if d != [] {
      assert DistinctKeys(d[1..]) by {
        forall i, j | 0 <= i < j < |d[1..]| ensures d[1..][i].key != d[1..][j].key {
          assert d[1..][i] == d[i + 1] && d[1..][j] == d[j + 1];
        }
      }
      WithoutDistinct(d[1..], names);
      WithoutEntries(d[1..], names);
      if d[0].key !in names {
        var rest := Without(d[1..], names);
        forall j | 0 <= j < |rest| ensures rest[j].key != d[0].key {
          assert rest[j] in rest;
          var k :| 1 <= k < |d| && d[k] == rest[j];
        }
      }
    }
  }

  /**
   * Line `i` says found exactly when `props[i]` is a key of the document as it
   * stands after the names before it were removed; a repeated name is
   * therefore never found the second time.
   */
  lemma PropFoundAtThatPoint(d: Document, props: seq<string>, i: nat)
    requires i < |props|
    ensures |PropReports(d, props)| == |props| && PropReports(d, props)[i].prop == props[i]
    ensures PropReports(d, props)[i].found <==> props[i] in Keys(Without(d, Names(props[..i])))
    ensures forall j :: 0 <= j < i && props[j] == props[i] ==> !PropReports(d, props)[i].found
  {
    WithoutEntries(d, Names(props[..i]));
    assert forall j :: 0 <= j < i ==> props[j] == props[..i][j];
  }

  /**
   * Removing the same names a second time leaves the document as the first
   * removal left it, and reports every name as not found.
   */
  lemma RemovePropsIdempotent(d: Document, props: seq<string>)
    ensures Without(Without(d, Names(props)), Names(props)) == Without(d, Names(props))
    ensures forall i :: 0 <= i < |props| ==> !PropReports(Without(d, Names(props)), props)[i].found
  {
    WithoutTwice(d, Names(props), Names(props));
    assert Names(props) + Names(props) == Names(props);
    WithoutEntries(d, Names(props));
  }

  /**
   * `removeProps`: for each name in order, unset the key if it exists and
   * record whether it did. The result is the document without the named keys,
   * and the report is `PropReports`.
   */
  method RemoveProps(yaml: Document, props: seq<string>) returns (result: Document, report: seq<PropReport>)
    ensures result == Without(yaml, Names(props))
    ensures report == PropReports(yaml, props)
  {
    result := yaml;
    report := [];
    RemoveStart(yaml, props);
    for i := 0 to |props|
      invariant result == Without(yaml, Names(props[..i]))
      invariant report == PropReports(yaml, props[..i])
    {
      var prop := props[i];
      var propFound := false;
      RemoveStep(yaml, props, i);
      if prop in Keys(result) {
        result := Without(result, {prop});
        propFound := true;
      }
      report := report + [PropReport(prop, propFound)];
    }
    assert props[..|props|] == props;
  }

  lemma RemoveStart(yaml: Document, props: seq<string>)
    ensures yaml == Without(yaml, Names(props[..0])) && [] == PropReports(yaml, props[..0])
  {
    assert Names(props[..0]) == {};
    WithoutNothingNamed(yaml, {});
  }

  /** One turn of the `removeProps` loop, on the specification side. */
  lemma RemoveStep(yaml: Document, props: seq<string>, i: nat)
    requires i < |props|
    ensures var current := Without(yaml, Names(props[..i]));
      && (props[i] in Keys(current) <==> props[i] in Keys(yaml) && props[i] !in props[..i])
      && (props[i] in Keys(current) ==> Without(current, {props[i]}) == Without(yaml, Names(props[..i + 1])))
      && (props[i] !in Keys(current) ==> current == Without(yaml, Names(props[..i + 1])))
      && PropReports(yaml, props[..i + 1])
         == PropReports(yaml, props[..i]) + [PropReport(props[i], props[i] in Keys(yaml) && props[i] !in props[..i])]
  {
    var prop := props[i];
    var current := Without(yaml, Names(props[..i]));
    WithoutEntries(yaml, Names(props[..i]));
    WithoutTwice(yaml, Names(props[..i]), {prop});
    assert props[..i + 1] == props[..i] + [prop];
    assert Names(props[..i + 1]) == Names(props[..i]) + {prop};
    if prop !in Keys(current) {
      WithoutNothingNamed(current, {prop});
    }
    assert props[..i + 1][..i] == props[..i];
  }

  /** `getYaml`: the decoded document stored at `path`, if `path` is a file holding a top-level mapping. */
  function Load(nodes: map<string, Node>, path: string): Option<Document>
  {
    if path in nodes && nodes[path].File? then nodes[path].yaml else None
  }

  /**
   * The effect of `saveYaml`: materialise the directories, then write the
   * document at the target path. Writing onto an existing directory fails
   * silently, as `file_put_contents` does.
   */
  function SaveEffect(disk: Disk, basePath: string, filePath: string, yaml: Document): (Disk, Status)
  {
    var (nodes, st) := MaterialiseDirs(disk.nodes, basePath, filePath);
    var target := JoinPath(basePath, filePath);
    if st.Failed? then (Disk(nodes, disk.saved), st)
    else if target in nodes && nodes[target].Dir? then (Disk(nodes, disk.saved), Done)
    else (Disk(nodes[target := File(Some(yaml))], disk.saved + [Saved(basePath, filePath, yaml)]), Done)
  }

  /** No file blocks a directory `saveYaml` creates, and no directory stands at its target. */
  predicate Writable(nodes: map<string, Node>, basePath: string, filePath: string)
  {
    && (forall j :: 0 <= j < |DirChain(basePath, filePath)| ==> !IsFile(nodes, DirChain(basePath, filePath)[j]))
    && !(JoinPath(basePath, filePath) in nodes && nodes[JoinPath(basePath, filePath)].Dir?)
  }

  /**
   * A save fails exactly when a file blocks a directory on the way. One that
   * gets past the directories writes the current document where `getYaml`
   * reads it back, unless a directory already stands there; one that does not
   * writes nothing. Either way the log only grows, and paths outside the
   * directory chain and the target are untouched.
   */
  lemma SavePersists(disk: Disk, basePath: string, filePath: string, yaml: Document)
    ensures var (after, st) := SaveEffect(disk, basePath, filePath, yaml);
      var target := JoinPath(basePath, filePath);
      && (st.Done? <==> forall j :: 0 <= j < |DirChain(basePath, filePath)| ==> !IsFile(disk.nodes, DirChain(basePath, filePath)[j]))
      && (st.Done? && !(target in disk.nodes && disk.nodes[target].Dir?) ==>
            Load(after.nodes, target) == Some(yaml) && after.saved == disk.saved + [Saved(basePath, filePath, yaml)])
      && (st.Failed? ==> after.saved == disk.saved && SameAt(after.nodes, disk.nodes, target))
      && (target in disk.nodes && disk.nodes[target].Dir? ==> after.saved == disk.saved)
      && (forall p :: p !in DirChain(basePath, filePath) && p != target ==> SameAt(after.nodes, disk.nodes, p))
  {
    CreateMissingDirOutcome(disk.nodes, basePath, filePath);
    CreateMissingDirFrame(disk.nodes, basePath, filePath);
  }

  /** `saveYaml`: create the missing directories, write the document, report the target path. */
  method SaveYaml(fs: FileSystem, basePath: string, filePath: string, yaml: Document) returns (st: Status, targetPath: string)
    modifies fs
    ensures (fs.State(), st) == SaveEffect(old(fs.State()), basePath, filePath, yaml)
    ensures targetPath == JoinPath(basePath, filePath)
  {
    targetPath := JoinPath(basePath, filePath);
    st := fs.CreateMissingDir(basePath, filePath);
    if st.Failed? {
      return;
    }
    if !(targetPath in fs.nodes && fs.nodes[targetPath].Dir?) {
      fs.nodes := fs.nodes[targetPath := File(Some(yaml))];
      fs.saved := fs.saved + [Saved(basePath, filePath, yaml)];
    }
  }
}
