/**
 * `recursive_repo_file_fetch` and the part of `handle_push_event` that drives
 * it, as the source runs them: a loop over each listing that appends staging
 * paths to a process-wide array, writes each fetched file to local disk, and
 * recurses into directories.
 */
module Harvesting {
  import opened TreeWalk

  /**
   * The state the walk changes: the process-wide array of staged paths
   * (`$files_to_upload_array`), the local disk seen as a map from path to
   * bytes, and the log of repository-contents calls made.
   */
  class Harvester {
    var files: seq<string>
    var disk: map<string, Bytes>
    var requests: seq<Request>

    constructor ()
      ensures files == [] && disk == map[] && requests == []
    {
      files := [];
      disk := map[];
      requests := [];
    }

    /**
     * Walk one listing under `basePath`: the accumulator only grows, by the
     * staging paths of this listing's Terraform files in pre-order; each of
     * them is written to disk and fetched once; each directory is listed and
     * walked.
     */
    method FetchTree(listing: seq<Entry>, basePath: string, tempFolder: string)
      modifies this
      ensures files == old(files) + Paths(Staged(listing, basePath, tempFolder))
      ensures disk == WriteAll(old(disk), Staged(listing, basePath, tempFolder))
      ensures requests == old(requests) + Requests(listing, basePath)
      decreases listing
    {
      var i := 0;
      while i < |listing|
        invariant 0 <= i <= |listing|
        invariant files == old(files) + Paths(Staged(listing[..i], basePath, tempFolder))
        invariant disk == WriteAll(old(disk), Staged(listing[..i], basePath, tempFolder))
        invariant requests == old(requests) + Requests(listing[..i], basePath)
      {
        FetchEntry(listing[i], basePath, tempFolder);
        ExtendByOne(listing, i, old(files), old(disk), old(requests), basePath, tempFolder);
        i := i + 1;
      }
      assert listing[..i] == listing;
    }

    /** The body of the loop over a listing: one entry, by its type. */
    method FetchEntry(item: Entry, basePath: string, tempFolder: string)
      modifies this
      ensures files == old(files) + Paths(EntryStaged(item, basePath, tempFolder))
      ensures disk == WriteAll(old(disk), EntryStaged(item, basePath, tempFolder))
      ensures requests == old(requests) + EntryRequests(item, basePath)
      decreases item
    {
      match item {
        case File(name, content) =>
          if IsTerraform(name) {
            var pathForFetch := FetchPath(basePath, name);
            requests := requests + [GetFile(pathForFetch)];
            var path := StagingPath(tempFolder, pathForFetch);
            disk := disk[path := content];
            files := files + [path];
            WriteOne(old(disk), StagedFile(path, content));
          }
        case Dir(name, children) =>
          var pathForFetch := FetchPath(basePath, name);
          requests := requests + [ListDir(pathForFetch)];
          FetchTree(children, pathForFetch, tempFolder);
        case Other(_) =>
      }
    }

    /**
     * Lines 194-202 of the push handler: the accumulator is emptied, the root
     * is listed, and the whole tree is walked, so the accumulator ends up
     * holding exactly the Terraform files of this push's tree.
     */
    method HarvestPush(root: seq<Entry>, tempFolder: string)
      modifies this
      ensures files == Paths(Staged(root, "", tempFolder))
      ensures disk == WriteAll(old(disk), Staged(root, "", tempFolder))
      ensures requests == old(requests) + [ListDir("")] + Requests(root, "")
    {
      files := [];
      requests := requests + [ListDir("")];
      FetchTree(root, "", tempFolder);
    }
  }

  /** Writing a single staged file is one map update. */
  lemma WriteOne(disk: map<string, Bytes>, f: StagedFile)
    ensures WriteAll(disk, [f]) == disk[f.path := f.content]
    ensures Paths([f]) == [f.path]
  {
    assert [f][1..] == [];
  }

  /** The walk of a listing prefix grows by the walk of the next entry: the step of FetchTree's loop. */
  lemma ExtendByOne(listing: seq<Entry>, i: nat, files: seq<string>, disk: map<string, Bytes>, requests: seq<Request>,
                    base: string, folder: string)
    requires i < |listing|
    ensures files + Paths(Staged(listing[..i], base, folder)) + Paths(EntryStaged(listing[i], base, folder))
            == files + Paths(Staged(listing[..i + 1], base, folder))
    ensures WriteAll(WriteAll(disk, Staged(listing[..i], base, folder)), EntryStaged(listing[i], base, folder))
            == WriteAll(disk, Staged(listing[..i + 1], base, folder))
    ensures requests + Requests(listing[..i], base) + EntryRequests(listing[i], base)
            == requests + Requests(listing[..i + 1], base)
  {
    ExtendFiles(listing, i, files, base, folder);
    ExtendDisk(listing, i, disk, base, folder);
    RequestsSnoc(listing, i, base);
  }

  lemma ExtendFiles(listing: seq<Entry>, i: nat, files: seq<string>, base: string, folder: string)
    requires i < |listing|
    ensures files + Paths(Staged(listing[..i], base, folder)) + Paths(EntryStaged(listing[i], base, folder))
            == files + Paths(Staged(listing[..i + 1], base, folder))
  {
    StagedSnoc(listing, i, base, folder);
    PathsAppend(Staged(listing[..i], base, folder), EntryStaged(listing[i], base, folder));
  }

  lemma ExtendDisk(listing: seq<Entry>, i: nat, disk: map<string, Bytes>, base: string, folder: string)
    requires i < |listing|
    ensures WriteAll(WriteAll(disk, Staged(listing[..i], base, folder)), EntryStaged(listing[i], base, folder))
            == WriteAll(disk, Staged(listing[..i + 1], base, folder))
  {
    StagedSnoc(listing, i, base, folder);
    WriteAllAppend(disk, Staged(listing[..i], base, folder), EntryStaged(listing[i], base, folder));
  }

  lemma StagedSnoc(listing: seq<Entry>, i: nat, base: string, folder: string)
    requires i < |listing|
    ensures Staged(listing[..i + 1], base, folder) == Staged(listing[..i], base, folder) + EntryStaged(listing[i], base, folder)
  {
    assert listing[..i + 1] == listing[..i] + [listing[i]];
    StagedAppend(listing[..i], [listing[i]], base, folder);
    assert Staged([listing[i]], base, folder) == EntryStaged(listing[i], base, folder) + Staged([], base, folder);
  }

  lemma RequestsSnoc(listing: seq<Entry>, i: nat, base: string)
    requires i < |listing|
    ensures Requests(listing[..i + 1], base) == Requests(listing[..i], base) + EntryRequests(listing[i], base)
  {
    assert listing[..i + 1] == listing[..i] + [listing[i]];
    RequestsAppend(listing[..i], [listing[i]], base);
    assert Requests([listing[i]], base) == EntryRequests(listing[i], base) + Requests([], base);
  }
}
