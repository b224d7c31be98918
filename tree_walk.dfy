/**
 * What `recursive_repo_file_fetch` computes, as functions of the listing the
 * repository-contents API returns: which files it stages, where, in which
 * order, and which contents requests it makes on the way.
 */
module TreeWalk {
  import opened RubyText

  type Bytes = seq<bv8>

  /**
   * One entry of a contents listing. A file carries the decoded bytes the
   * contents API serves for it; a directory carries the listing the API
   * returns for its path; any other type (symlink, submodule) only its name.
   */
  datatype Entry =
    | File(name: string, content: Bytes)
    | Dir(name: string, children: seq<Entry>)
    | Other(name: string)

  /** A file written under the staging folder: its local path and the bytes written there. */
  datatype StagedFile = StagedFile(path: string, content: Bytes)

  /** A call to the repository-contents API: a directory listing or a file fetch, by repository path. */
  datatype Request = ListDir(path: string) | GetFile(path: string)

  /** Terraform configuration: a name ending in ".tf" or ".tf.json". */
  predicate IsTerraform(name: string)
  {
    EndsWith(name, ".tf") || EndsWith(name, ".tf.json")
  }

  /** The repository path of an entry named `name` listed under `base`; the root is the empty path. */
  function FetchPath(base: string, name: string): (path: string)
    ensures EndsWith(path, name)
  {
    EndsWithConcat(if base == "" then "" else base + "/", name);
    if base == "" then name else base + "/" + name
  }

  /**
   * At the root the fetch path is the bare name; below it, the path's
   * '/'-separated segments are those of the base followed by those of the name.
   */
  lemma FetchPathSegments(base: string, name: string)
    ensures base == "" ==> FetchPath(base, name) == name
    ensures base != "" ==> RawSplit(FetchPath(base, name), '/') == RawSplit(base, '/') + RawSplit(name, '/')
  {
    if base != "" {
      RawSplitAtSeparator(base, name, '/');
    }
  }

  /** The local path a fetched file is written to. */
  function StagingPath(folder: string, path: string): (local: string)
    ensures EndsWith(local, path)
    ensures |local| > |folder| && local[..|folder| + 1] == folder + "/"
    ensures |local| == |folder| + 1 + |path|
  {
    EndsWithConcat(folder + "/", path);
    assert (folder + "/" + path)[..|folder| + 1] == folder + "/";
    folder + "/" + path
  }

  /** The files staged for listing `es` under `base`, in the order they are written (pre-order, listing order). */
  function Staged(es: seq<Entry>, base: string, folder: string): (r: seq<StagedFile>)
    decreases es
  {
    if es == [] then [] else EntryStaged(es[0], base, folder) + Staged(es[1..], base, folder)
  }

  /** The files staged for one entry of a listing under `base`. */
  function EntryStaged(e: Entry, base: string, folder: string): (r: seq<StagedFile>)
    decreases e
  {
    match e
    case File(name, content) =>
      if IsTerraform(name) then [StagedFile(StagingPath(folder, FetchPath(base, name)), content)] else []
    case Dir(name, children) => Staged(children, FetchPath(base, name), folder)
    case Other(_) => []
  }

  /** The contents requests made while walking `es` under `base`, in order. */
  function Requests(es: seq<Entry>, base: string): (r: seq<Request>)
    decreases es
  {
    if es == [] then [] else EntryRequests(es[0], base) + Requests(es[1..], base)
  }

  /** The contents requests one entry of a listing causes: a fetch for a Terraform file, a listing and the walk below it for a directory. */
  function EntryRequests(e: Entry, base: string): (r: seq<Request>)
    decreases e
  {
    match e
    case File(name, _) => if IsTerraform(name) then [GetFile(FetchPath(base, name))] else []
    case Dir(name, children) => [ListDir(FetchPath(base, name))] + Requests(children, FetchPath(base, name))
    case Other(_) => []
  }

  /** The local paths of staged files, in order: the accumulator's contents. */
  function Paths(s: seq<StagedFile>): (r: seq<string>)
    ensures |r| == |s|
    ensures forall i :: 0 <= i < |s| ==> r[i] == s[i].path
  {
    if s == [] then [] else [s[0].path] + Paths(s[1..])
  }

  lemma PathsAppend(a: seq<StagedFile>, b: seq<StagedFile>)
    ensures Paths(a + b) == Paths(a) + Paths(b)
  {
  }

  /** Walking a listing piece by piece stages the same files as walking it whole. */
  lemma {:induction false} StagedAppend(a: seq<Entry>, b: seq<Entry>, base: string, folder: string)
    ensures Staged(a + b, base, folder) == Staged(a, base, folder) + Staged(b, base, folder)
    decreases |a|
  {
    if a == [] {
      assert a + b == b;
    } else {
      var e, rest := a[0], a[1..];
      assert a + b == [e] + (rest + b);
      assert a == [e] + rest;
      StagedAppend(rest, b, base, folder);
      StagedCons(e, rest + b, base, folder);
      StagedCons(e, rest, base, folder);
      ConcatAssoc(EntryStaged(e, base, folder), Staged(rest, base, folder), Staged(b, base, folder));
    }
  }

  /** The walk of a non-empty listing: its first entry's files, then the rest's. */
  lemma StagedCons(e: Entry, rest: seq<Entry>, base: string, folder: string)
    ensures Staged([e] + rest, base, folder) == EntryStaged(e, base, folder) + Staged(rest, base, folder)
  {
    assert ([e] + rest)[0] == e;
    assert ([e] + rest)[1..] == rest;
  }

  lemma {:induction false} RequestsAppend(a: seq<Entry>, b: seq<Entry>, base: string)
    ensures Requests(a + b, base) == Requests(a, base) + Requests(b, base)
    decreases |a|
  {
    if a == [] {
      assert a + b == b;
    } else {
      var e, rest := a[0], a[1..];
      assert a + b == [e] + (rest + b);
      assert a == [e] + rest;
      RequestsAppend(rest, b, base);
      RequestsCons(e, rest + b, base);
      RequestsCons(e, rest, base);
      ConcatAssoc(EntryRequests(e, base), Requests(rest, base), Requests(b, base));
    }
  }

  /** The requests of a non-empty listing: its first entry's, then the rest's. */
  lemma RequestsCons(e: Entry, rest: seq<Entry>, base: string)
    ensures Requests([e] + rest, base) == EntryRequests(e, base) + Requests(rest, base)
  {
    assert ([e] + rest)[0] == e;
    assert ([e] + rest)[1..] == rest;
  }

  /** Every file in a tree with its repository path, Terraform or not, in pre-order. */
  datatype FileAt = FileAt(path: string, name: string, content: Bytes)

  /** A reference walk without the filter: every file of the tree, whatever its name, directories entered whatever theirs. */
  function AllFiles(es: seq<Entry>, base: string): (r: seq<FileAt>)
    ensures forall f :: f in r ==> EndsWith(f.path, f.name)
    decreases es
  {
    if es == [] then [] else EntryFiles(es[0], base) + AllFiles(es[1..], base)
  }

  function EntryFiles(e: Entry, base: string): (r: seq<FileAt>)
    ensures forall f :: f in r ==> EndsWith(f.path, f.name)
    decreases e
  {
    match e
    case File(name, content) => [FileAt(FetchPath(base, name), name, content)]
    case Dir(name, children) => AllFiles(children, FetchPath(base, name))
    case Other(_) => []
  }

  /** The Terraform files of `fs`, in order, each staged under `folder` at its repository path. */
  function Keep(fs: seq<FileAt>, folder: string): (r: seq<StagedFile>)
    ensures forall f :: f in fs && IsTerraform(f.name) ==> StagedFile(StagingPath(folder, f.path), f.content) in r
    ensures forall s :: s in r ==> exists f :: f in fs && IsTerraform(f.name) && s == StagedFile(StagingPath(folder, f.path), f.content)
    ensures |r| <= |fs|
  {
    if fs == [] then []
    else
      var f := fs[0];
      (if IsTerraform(f.name) then [StagedFile(StagingPath(folder, f.path), f.content)] else []) + Keep(fs[1..], folder)
  }

  lemma {:induction false} KeepAppend(a: seq<FileAt>, b: seq<FileAt>, folder: string)
    ensures Keep(a + b, folder) == Keep(a, folder) + Keep(b, folder)
    decreases |a|
  {
    if a == [] {
      assert a + b == b;
    } else {
      var f, rest := a[0], a[1..];
      assert a + b == [f] + (rest + b);
      assert a == [f] + rest;
      KeepAppend(rest, b, folder);
      KeepCons(f, rest + b, folder);
      KeepCons(f, rest, folder);
      var head := if IsTerraform(f.name) then [StagedFile(StagingPath(folder, f.path), f.content)] else [];
      ConcatAssoc(head, Keep(rest, folder), Keep(b, folder));
    }
  }

  lemma KeepCons(f: FileAt, rest: seq<FileAt>, folder: string)
    ensures Keep([f] + rest, folder)
            == (if IsTerraform(f.name) then [StagedFile(StagingPath(folder, f.path), f.content)] else []) + Keep(rest, folder)
  {
    assert ([f] + rest)[0] == f;
    assert ([f] + rest)[1..] == rest;
  }

  /**
   * The walk stages exactly the Terraform files among all files of the tree,
   * in pre-order and listing order, each at folder + "/" + its repository
   * path: the filter is on file names only and is applied once.
   */
  lemma {:induction false} StagedIsFilteredPreorder(es: seq<Entry>, base: string, folder: string)
    ensures Staged(es, base, folder) == Keep(AllFiles(es, base), folder)
    decreases es
  {
    if es != [] {
      StagedIsFilteredPreorder(es[1..], base, folder);
      KeepAppend(EntryFiles(es[0], base), AllFiles(es[1..], base), folder);
      match es[0]
      case File(name, content) =>
      case Dir(name, children) =>
        StagedIsFilteredPreorder(children, FetchPath(base, name), folder);
      case Other(_) =>
    }
  }

  /** Every staged path lies under the staging folder and names a Terraform file. */
  lemma StagedPathShape(es: seq<Entry>, base: string, folder: string, s: StagedFile)
    requires s in Staged(es, base, folder)
    ensures |s.path| > |folder| && s.path[..|folder| + 1] == folder + "/"
    ensures EndsWith(s.path, ".tf") || EndsWith(s.path, ".tf.json")
  {
    StagedIsFilteredPreorder(es, base, folder);
    var f :| f in AllFiles(es, base) && IsTerraform(f.name) && s == StagedFile(StagingPath(folder, f.path), f.content);
    assert (folder + "/" + f.path)[..|folder| + 1] == folder + "/";
    EndsWithTransitive(s.path, f.path, f.name);
    if EndsWith(f.name, ".tf") {
      EndsWithTransitive(s.path, f.name, ".tf");
    } else {
      EndsWithTransitive(s.path, f.name, ".tf.json");
    }
  }

  /** The paths the walk fetches file contents for. */
  function Fetched(rs: seq<Request>): (r: seq<string>)
    ensures |r| <= |rs|
  {
    if rs == [] then []
    else (if rs[0].GetFile? then [rs[0].path] else []) + Fetched(rs[1..])
  }

  lemma {:induction false} FetchedAppend(a: seq<Request>, b: seq<Request>)
    ensures Fetched(a + b) == Fetched(a) + Fetched(b)
    decreases |a|
  {
    if a == [] {
      assert a + b == b;
    } else {
      assert (a + b)[0] == a[0];
      assert (a + b)[1..] == a[1..] + b;
      FetchedAppend(a[1..], b);
    }
  }

  /** Each repository path staged under `folder`, in order. */
  function UnderFolder(folder: string, paths: seq<string>): (r: seq<string>)
    ensures |r| == |paths|
  {
    if paths == [] then [] else [StagingPath(folder, paths[0])] + UnderFolder(folder, paths[1..])
  }

  lemma {:induction false} UnderFolderAppend(folder: string, a: seq<string>, b: seq<string>)
    ensures UnderFolder(folder, a + b) == UnderFolder(folder, a) + UnderFolder(folder, b)
    decreases |a|
  {
    if a == [] {
      assert a + b == b;
    } else {
      assert (a + b)[0] == a[0];
      assert (a + b)[1..] == a[1..] + b;
      UnderFolderAppend(folder, a[1..], b);
    }
  }

  /**
   * File contents are fetched for exactly the files that are staged, in the
   * same order: a file whose name does not match is never fetched.
   */
  lemma {:induction false} FetchedExactlyStaged(es: seq<Entry>, base: string, folder: string)
    ensures Paths(Staged(es, base, folder)) == UnderFolder(folder, Fetched(Requests(es, base)))
    decreases es
  {
    if es != [] {
      FetchedExactlyStaged(es[1..], base, folder);
      EntryFetchedExactlyStaged(es[0], base, folder);
      PathsAppend(EntryStaged(es[0], base, folder), Staged(es[1..], base, folder));
      FetchedAppend(EntryRequests(es[0], base), Requests(es[1..], base));
      UnderFolderAppend(folder, Fetched(EntryRequests(es[0], base)), Fetched(Requests(es[1..], base)));
    }
  }

  lemma {:induction false} EntryFetchedExactlyStaged(e: Entry, base: string, folder: string)
    ensures Paths(EntryStaged(e, base, folder)) == UnderFolder(folder, Fetched(EntryRequests(e, base)))
    decreases e
  {
    match e
    case File(name, _) =>
    case Dir(name, children) =>
      var p := FetchPath(base, name);
      FetchedExactlyStaged(children, p, folder);
      FetchedAppend([ListDir(p)], Requests(children, p));
      assert Fetched([ListDir(p)]) == [] by {
        assert [ListDir(p)][1..] == [];
      }
      assert [] + Fetched(Requests(children, p)) == Fetched(Requests(children, p));
    case Other(_) =>
  }

  /** How many Terraform files a tree holds, counted by name alone. */
  function TerraformCount(es: seq<Entry>): nat
    decreases es
  {
    if es == [] then 0 else EntryTerraformCount(es[0]) + TerraformCount(es[1..])
  }

  function EntryTerraformCount(e: Entry): nat
    decreases e
  {
    match e
    case File(name, _) => if IsTerraform(name) then 1 else 0
    case Dir(_, children) => TerraformCount(children)
    case Other(_) => 0
  }

  /**
   * The number of staged files depends on neither the base path nor the
   * staging folder nor any directory name: every directory is entered.
   */
  lemma {:induction false} StagedCountIsTerraformCount(es: seq<Entry>, base: string, folder: string)
    ensures |Staged(es, base, folder)| == TerraformCount(es)
    decreases es
  {
    if es != [] {
      StagedCountIsTerraformCount(es[1..], base, folder);
      match es[0]
      case File(_, _) =>
      case Dir(name, children) =>
        StagedCountIsTerraformCount(children, FetchPath(base, name), folder);
      case Other(_) =>
    }
  }

  /** Writing the staged files one after another onto a disk: each write replaces what was at its path. */
  function WriteAll(disk: map<string, Bytes>, writes: seq<StagedFile>): map<string, Bytes>
    decreases |writes|
  {
    if writes == [] then disk
    else WriteAll(disk[writes[0].path := writes[0].content], writes[1..])
  }

  /**
   * After the writes the disk holds the old files and every written path;
   * a path nobody wrote keeps its bytes, and the final write's bytes are at its path.
   */
  lemma {:induction false} WriteAllContents(disk: map<string, Bytes>, writes: seq<StagedFile>)
    ensures forall k :: k in WriteAll(disk, writes) <==> k in disk || k in Paths(writes)
    ensures forall k :: k in disk && k !in Paths(writes) ==> WriteAll(disk, writes)[k] == disk[k]
    ensures writes != [] ==> writes[|writes| - 1].path in WriteAll(disk, writes)
                             && WriteAll(disk, writes)[writes[|writes| - 1].path] == writes[|writes| - 1].content
    decreases |writes|
  {
    if writes != [] {
      var rest := writes[1..];
      var next := disk[writes[0].path := writes[0].content];
      WriteAllContents(next, rest);
      assert Paths(writes) == [writes[0].path] + Paths(rest);
      if rest != [] {
        assert writes[|writes| - 1] == rest[|rest| - 1];
      }
    }
  }

  /** The last write to a path wins: whatever came earlier, the disk holds that write's bytes. */
  lemma {:induction false} WriteAllLastWriteWins(disk: map<string, Bytes>, writes: seq<StagedFile>)
    ensures forall i :: 0 <= i < |writes| && LastWriteTo(writes, i) ==>
              writes[i].path in WriteAll(disk, writes) && WriteAll(disk, writes)[writes[i].path] == writes[i].content
    decreases |writes|
  {
    if writes != [] {
      var rest := writes[1..];
      var next := disk[writes[0].path := writes[0].content];
      WriteAllContents(next, rest);
      WriteAllLastWriteWins(next, rest);
      forall i | 0 <= i < |writes| && LastWriteTo(writes, i)
        ensures writes[i].path in WriteAll(disk, writes) && WriteAll(disk, writes)[writes[i].path] == writes[i].content
      {
        if i == 0 {
          assert writes[0].path !in Paths(rest) by {
            forall j | 0 <= j < |rest| ensures Paths(rest)[j] != writes[0].path {
              assert rest[j] == writes[j + 1];
            }
          }
        } else {
          assert rest[i - 1] == writes[i];
          assert LastWriteTo(rest, i - 1) by {
            forall j | i - 1 < j < |rest| ensures rest[j].path != rest[i - 1].path {
              assert rest[j] == writes[j + 1];
            }
          }
        }
      }
    }
  }

  /** No write after the `i`-th one goes to the same path. */
  predicate LastWriteTo(writes: seq<StagedFile>, i: nat)
    requires i < |writes|
  {
    forall j :: i < j < |writes| ==> writes[j].path != writes[i].path
  }

  lemma {:induction false} WriteAllAppend(disk: map<string, Bytes>, a: seq<StagedFile>, b: seq<StagedFile>)
    ensures WriteAll(disk, a + b) == WriteAll(WriteAll(disk, a), b)
    decreases |a|
  {
    if a == [] {
      assert a + b == b;
    } else {
      assert (a + b)[0] == a[0];
      assert (a + b)[1..] == a[1..] + b;
      WriteAllAppend(disk[a[0].path := a[0].content], a[1..], b);
    }
  }

  /**
   * A tree with a directory "a" holding "x.tf" and a directory "b" holding
   * "y.tf.json", next to a top-level "root.txt": the two Terraform files are
   * staged, in that order, and "root.txt" is not.
   */
  lemma ExampleTree(x: Bytes, y: Bytes, other: Bytes)
    ensures var tree := [Dir("a", [File("x.tf", x), Dir("b", [File("y.tf.json", y)])]), File("root.txt", other)];
            Staged(tree, "", "temp-abc123") ==
              [StagedFile("temp-abc123/a/x.tf", x), StagedFile("temp-abc123/a/b/y.tf.json", y)]
  {
    ExampleNames();
    TwoLevelTree("a", "b", "x.tf", "y.tf.json", "root.txt", x, y, other, "temp-abc123");
    ExamplePaths();
  }

  lemma ExamplePaths()
    ensures "temp-abc123" + "/" + ("a" + "/" + "x.tf") == "temp-abc123/a/x.tf"
    ensures "temp-abc123" + "/" + (("a" + "/" + "b") + "/" + "y.tf.json") == "temp-abc123/a/b/y.tf.json"
  {
  }

  lemma ExampleNames()
    ensures IsTerraform("x.tf") && IsTerraform("y.tf.json") && !IsTerraform("root.txt")
  {
    EndsWithConcat("x", ".tf");
    assert "x" + ".tf" == "x.tf";
    EndsWithConcat("y", ".tf.json");
    assert "y" + ".tf.json" == "y.tf.json";
  }

  /** The shape of the example: a directory holding a file and a sub-directory with one file, next to a root file. */
  lemma TwoLevelTree(a: string, b: string, xn: string, yn: string, on: string, x: Bytes, y: Bytes, z: Bytes, folder: string)
    requires a != "" && IsTerraform(xn) && IsTerraform(yn) && !IsTerraform(on)
    ensures Staged([Dir(a, [File(xn, x), Dir(b, [File(yn, y)])]), File(on, z)], "", folder) ==
              [StagedFile(folder + "/" + (a + "/" + xn), x), StagedFile(folder + "/" + ((a + "/" + b) + "/" + yn), y)]
  {
    var inner := [File(xn, x), Dir(b, [File(yn, y)])];
    var tree := [Dir(a, inner), File(on, z)];
    SingleFile(xn, a, folder, x);
    SingleFile(yn, a + "/" + b, folder, y);
    SingleDir(b, [File(yn, y)], a, folder);
    StagedAppend([File(xn, x)], [Dir(b, [File(yn, y)])], a, folder);
    assert [File(xn, x)] + [Dir(b, [File(yn, y)])] == inner;
    StagedAppend([Dir(a, inner)], [File(on, z)], "", folder);
    assert [Dir(a, inner)] + [File(on, z)] == tree;
    SingleDir(a, inner, "", folder);
    assert Staged([File(on, z)], "", folder) == [] by {
      assert [File(on, z)][1..] == [];
    }
  }

  /** A listing of one directory stages what the directory's own listing stages under its path. */
  lemma SingleDir(name: string, children: seq<Entry>, base: string, folder: string)
    ensures Staged([Dir(name, children)], base, folder) == Staged(children, FetchPath(base, name), folder)
  {
    assert [Dir(name, children)][1..] == [];
  }

  /** A listing of one Terraform file below the root stages that file at folder/base/name. */
  lemma SingleFile(name: string, base: string, folder: string, content: Bytes)
    requires IsTerraform(name) && base != ""
    ensures Staged([File(name, content)], base, folder) == [StagedFile(folder + "/" + (base + "/" + name), content)]
  {
    assert [File(name, content)][1..] == [];
  }
}
