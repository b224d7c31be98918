# Webhook bridge for a GitHub App: a Dafny model of its decision logic

`server.rb` is a Sinatra app that receives GitHub webhook deliveries. It
checks each delivery's `X-Hub-Signature` against an HMAC of the raw body, and
then acts on two event types. For `issues` with action `opened` it adds the
label `needs-response`. For `push` it walks the repository's contents
listing, stages every Terraform file (`*.tf`, `*.tf.json`) under
`temp-<commit>/`, and uploads the staged files with the branch and the first
commit's author to an ingestion endpoint.

This project models the decisions in that handler. It does not model the
I/O around it. The modules are:

- `RubyText` (`ruby_text.dfy`): the Ruby semantics the handler depends on.
  `String#split` with a one-character separator drops trailing empty fields,
  so `"sha1=".split('=')` is `["sha1"]`. `end_with?` is modelled too, as are
  `Array#last` and `Array#[]`, which give nil past the end.
- `Signature` (`signature.dfy`): the signature gate of `post '/'`. A missing
  header becomes `"sha1="`. Splitting it on `=` gives the algorithm and the
  digest. The digest is compared with the server's own hex digest. The HMAC
  itself is the parameter `hexdigest`. It maps an algorithm name to the hex
  digest of the body keyed with the webhook secret, or to None when the
  crypto library does not know the name and raises.
- `TreeWalk` (`tree_walk.dfy`): what `recursive_repo_file_fetch` computes, as
  functions of the contents listing. The listing is a tree of `File`, `Dir`
  and `Other` entries. The functions give the staged files with their local
  paths and bytes, and the contents requests made. Lemmas relate them to a
  reference walk that does not filter. The model uses the same walk
  functions throughout.
- `Harvesting` (`harvesting.dfy`): the same walk in the source's imperative
  form. The class `Harvester` holds the process-wide array
  `$files_to_upload_array`, the local disk as a map from path to bytes, and
  the log of contents requests. `FetchTree` loops over a listing and
  recurses into directories. `HarvestPush` empties the array and walks from
  the root. Both are proved to produce what `TreeWalk` specifies.
- `Dispatch` (`dispatch.dfy`): the endpoint as a function from a delivery to
  an `Outcome`, which is a response plus the ordered trace of outbound calls:
  token exchange, label addition, root listing, harvest and upload.

## Behaviour on the edges

The model follows the code in each of these cases:

- Past the gate the route (server.rb:129-143) rescues nothing. A nil
  dereference therefore ends the request with Sinatra's 500, and the `'ok'`
  on line 143 is never reached. This happens for:
  - a missing `installation` (server.rb:266-268);
  - a missing `repository` or `issue` (server.rb:161-162, 170);
  - an empty `commits` (server.rb:174-176);
  - a missing `ref` (server.rb:180) or a missing `after` (server.rb:200);
  - a nil branch concatenated into the upload's command line
    (server.rb:275).

  `Response.ServerError` models these cases. The trace keeps the calls
  already made before the exception.
- A missing header becomes `"sha1="` (server.rb:118). It splits to
  `["sha1"]`, so the digest is nil and the request gets 401 (server.rb:119-121).
  A header that is present but empty splits to `[]`. The algorithm is then
  nil, the HMAC call raises, and the request ends in a 500.
- Only the first two `=`-separated fields of the header are read
  (server.rb:119). So `"<alg>=<correct digest>=<anything>"` is accepted
  just like `"<alg>=<correct digest>"`.
- `rm_rf` of the staging folder (server.rb:279) runs only after the
  command-line string for `curl` is built (server.rb:275), in the same
  method, and not in an `ensure` block. When building that string raises
  (for a nil branch), the staged files stay on disk. The trace shows this
  as a `Harvest` with no `Upload`.

## Model

| member | source | states |
|---|---|---|
| `RubyText.RawSplit` | server.rb:119 | splitting on a one-character separator always gives at least one field, and no field contains the separator |
| `RubyText.RawSplitCount` | server.rb:119 | there is exactly one field more than there are separators in the string |
| `RubyText.JoinRawSplit` | server.rb:119 | joining the fields with the separator gives the original string back |
| `RubyText.RawSplitJoin` | server.rb:119 | splitting a join of separator-free fields gives those fields back |
| `RubyText.RawSplitAtSeparator` | server.rb:180 | the fields of `p + sep + q` are the fields of `p` followed by those of `q` |
| `RubyText.DropTrailingEmpty` | server.rb:119 | Ruby's `split` result is the longest prefix of the raw fields that does not end in an empty field, and every dropped field is empty |
| `RubyText.SplitPair` | server.rb:119 | `"a=b".split('=')` is `[a, b]` when both parts are separator-free and `b` is non-empty |
| `RubyText.SplitTrailingSeparator` | server.rb:118-119 | `"a=".split('=')` is `[a]`, or `[]` when `a` is empty: a trailing empty digest disappears |
| `RubyText.SplitFirstTwo` | server.rb:119 | the split of `a=b=rest` starts with `a` and `b`, whatever `rest` is, when `b` is non-empty |
| `RubyText.Split` | server.rb:119 | Ruby's `String#split` with a one-character separator: the raw fields with the trailing empty ones dropped. It has no contract of its own; `DropTrailingEmpty`, `SplitPair`, `SplitTrailingSeparator`, `SplitFirstTwo` and `SplitEmpty` state its properties |
| `RubyText.SplitEmpty` | server.rb:180 | `split` gives an empty array exactly when the string consists only of separators, the empty string included |
| `RubyText.EndsWith` | server.rb:221 | `end_with?`. It has no contract of its own; `EndsWithConcat` and `EndsWithTransitive` state its properties, and `FetchPath`, `StagingPath` and `AllFiles` use it in theirs |
| `RubyText.At` | server.rb:119 | multiple assignment from an array reads index `i`, which is nil past the end |
| `RubyText.Last` | server.rb:180 | `last` is nil for an empty array and the final element otherwise |
| `Signature.ParseHeader` | server.rb:119 | the digest part is present only if the algorithm part is, and neither part contains `=` |
| `Signature.Check` | server.rb:118-121 | the gate accepts exactly when the header's algorithm part is present and known and its digest part equals the HMAC under that algorithm; it raises exactly when the algorithm part is nil or unknown to the HMAC; otherwise it rejects |
| `Signature.MissingHeaderNeverAccepted` | server.rb:118-121 | a request without the header is never accepted; with SHA-1 available it is rejected with 401 |
| `Signature.EmptyDigestNeverAccepted` | server.rb:118-121 | a header `"<alg>="` with an empty digest is never accepted |
| `Signature.CorrectSignatureAccepted` | server.rb:118-121 | the header `"<alg>=<HMAC of the body>"` is accepted |
| `Signature.WrongDigestRejected` | server.rb:118-121 | for a known algorithm, any non-empty, `=`-free digest other than the computed one is rejected with 401 |
| `Signature.TrailingFieldsIgnored` | server.rb:119-121 | fields after the digest are ignored: `"<alg>=<HMAC>=<anything>"` is accepted |
| `TreeWalk.FetchPath` | server.rb:225-228 | the fetch path of an entry ends with the entry's name |
| `TreeWalk.FetchPathSegments` | server.rb:245-249 | at the root the fetch path is the bare name; below the root its segments are the base's segments followed by the name's |
| `TreeWalk.StagingPath` | server.rb:231 | the local path starts with the staging folder followed by `/`, ends with the fetch path, and has exactly the length of the two plus the slash: it is `folder/path` |
| `TreeWalk.IsTerraform` | server.rb:221 | a file name is Terraform configuration when it ends in `.tf` or `.tf.json`. It has no contract of its own; `Keep` and `StagedPathShape` state what the filter lets through |
| `TreeWalk.Staged` | server.rb:210-256 | the files one call of the walk stages for a listing, in order. It has no contract of its own; `StagedAppend`, `StagedIsFilteredPreorder`, `StagedPathShape`, `FetchedExactlyStaged` and `StagedCountIsTerraformCount` state its properties |
| `TreeWalk.EntryStaged` | server.rb:214-254 | the files staged for one entry: a Terraform file, a directory's walk, or nothing. It has no contract of its own; the lemmas listed for `Staged` cover it |
| `TreeWalk.Requests` | server.rb:210-256 | the contents requests one call of the walk makes, in order. It has no contract of its own; `RequestsAppend` and `FetchedExactlyStaged` state its properties |
| `TreeWalk.EntryRequests` | server.rb:217-254 | the requests for one entry: a fetch for a Terraform file, a listing and the walk below it for a directory. It has no contract of its own; the lemmas listed for `Requests` cover it |
| `TreeWalk.Paths` | server.rb:234 | the accumulator holds each staged file's local path, one per file, in order |
| `TreeWalk.StagedAppend` | server.rb:212-255 | walking a listing in two pieces stages the concatenation of the two walks, so earlier results are never removed or reordered |
| `TreeWalk.RequestsAppend` | server.rb:212-255 | the contents requests of a listing split the same way |
| `TreeWalk.AllFiles` | server.rb:212-255 | the unfiltered reference walk pairs every file with a path that ends in its name |
| `TreeWalk.Keep` | server.rb:221-235 | every Terraform file of a file list is staged at folder + "/" + its path with its bytes, and nothing else is staged |
| `TreeWalk.StagedIsFilteredPreorder` | server.rb:210-256 | the walk stages exactly the Terraform files among all files of the tree, in pre-order and listing order |
| `TreeWalk.StagedPathShape` | server.rb:221-231 | every staged path lies under the staging folder and ends in `.tf` or `.tf.json` |
| `TreeWalk.FetchedExactlyStaged` | server.rb:218-235 | the accumulator's paths are exactly the fetched file paths placed under the staging folder, in the same order, so a non-matching file is never fetched |
| `TreeWalk.StagedCountIsTerraformCount` | server.rb:242-253 | the number of staged files is the number of Terraform-named files in the tree, whatever the directory names and base path: every directory is entered |
| `TreeWalk.WriteAll` | server.rb:233 | the staged files written one after another, each replacing what was at its path. It has no contract of its own; `WriteAllContents`, `WriteAllLastWriteWins` and `WriteAllAppend` state its properties |
| `TreeWalk.WriteAllContents` | server.rb:233 | after the writes, the disk holds the old files plus every written path; untouched paths keep their bytes; the final write's bytes are at its path |
| `TreeWalk.WriteAllLastWriteWins` | server.rb:233 | every write that no later write to the same path follows leaves its bytes on the disk: the last write to a path wins |
| `TreeWalk.WriteAllAppend` | server.rb:233 | writing two batches in turn is the same as writing their concatenation |
| `TreeWalk.ExampleTree` | server.rb:210-256 | for `a/x.tf`, `a/b/y.tf.json` and `root.txt`, only `temp-abc123/a/x.tf` and `temp-abc123/a/b/y.tf.json` are staged, in that order |
| `Harvesting.Harvester.FetchTree` | server.rb:210-256 | the loop-and-recurse walk appends exactly the walk's staging paths to the accumulator, writes those files to disk and logs the walk's requests |
| `Harvesting.Harvester.FetchEntry` | server.rb:214-254 | one listing entry: a Terraform file is fetched, written and appended; a directory is listed and walked; anything else is skipped |
| `Harvesting.Harvester.HarvestPush` | server.rb:194-202 | after the push handler's walk, the accumulator holds exactly the staging paths of this tree, whatever it held before |
| `Harvesting.ExtendByOne` | server.rb:212 | one iteration of the loop extends the accumulator, the disk and the request log by the next entry's walk |
| `Dispatch.BranchOf` | server.rb:180 | a branch, when present, is a non-empty segment without `/` |
| `Dispatch.TempFolder` | server.rb:200 | the staging folder is `temp-` followed by the pushed commit id |
| `Dispatch.TempFolderInjective` | server.rb:200 | two pushes share a staging folder exactly when they push the same commit id |
| `Dispatch.HandleIssues` | server.rb:130-136 | an `issues` event calls out only if the installation id is present, and then obtains the token first |
| `Dispatch.HandlePush` | server.rb:166-208 | a push calls out only if the installation id is present, and then obtains the token first; a push answered "ok" makes four calls, the last of which is the upload |
| `Dispatch.Handle` | server.rb:101-144 | a delivery that fails the gate makes no call and is not answered "ok"; 401 is returned exactly when the digest is rejected; only `issues` and `push` make calls |
| `Dispatch.MissingSignatureRejected` | server.rb:118-121 | a delivery without a signature header reaches no handler, makes no call and is not answered "ok"; with SHA-1 available it gets 401 |
| `Dispatch.OtherEventsIgnored` | server.rb:129-143 | an accepted event other than `issues` or `push` is answered "ok" with no call, and no authentication |
| `Dispatch.IssueLabelRule` | server.rb:130-136 | for an accepted `issues` event, the token is obtained, then exactly one label call with `["needs-response"]` is made if the action is `opened` and none otherwise; the answer is "ok" |
| `Dispatch.AtMostOneLabelCall` | server.rb:157-163 | an `issues` delivery makes at most one label call, and makes it only when the action is `opened` |
| `Dispatch.BranchIsLastSegment` | server.rb:180 | the branch of `prefix/name` is `name` |
| `Dispatch.BranchIgnoresTrailingSlash` | server.rb:180 | a trailing `/` on the ref does not change the branch |
| `Dispatch.BranchAbsent` | server.rb:180 | the branch is nil exactly when the ref consists only of slashes |
| `Dispatch.FeatureBranchExample` | server.rb:178-180 | `refs/heads/feature-x` gives branch `feature-x` |
| `Dispatch.PushDerivesMetadata` | server.rb:170-206 | a complete push is answered "ok" after the token exchange, the root listing, the harvest of the tree into `temp-<after>`, and one upload with the ref's last segment and `commits[0]`'s author name and email |
| `Dispatch.OnlyFirstCommitRead` | server.rb:174-176 | commits after the first do not change what a push does |
| `Dispatch.AcceptedAnswersOk` | server.rb:129-143 | past the gate, the answer is "ok" whenever every field the handler dereferences is present and the ref has a character other than `/`; otherwise the branch is nil and building the upload command raises |

## Left out

- The `before` filter: building the JWT and signing it with RS256 and the
  app's private key (server.rb:68-91). This is cryptography plus a clock read.
- The HMAC computation itself (server.rb:120). It is the parameter
  `hexdigest`.
- JSON parsing and its fallback to `{}` (server.rb:104-108). The payload is
  already structured. An unparseable body corresponds to a `Payload` in which
  every field is absent.
- Failures of calls to the hosting platform's API: token exchange, listing,
  file fetch and labelling. The model assumes that each call succeeds. In the
  source, a raised error would end the request with a 500.
- The `@client ||=` and `@bot_client ||=` caching (server.rb:90, 269). Every
  event records its own token exchange. Whether a later request reuses an
  earlier installation's client depends on Sinatra's per-request instances,
  which are not part of this model.
- `post_to_server` (server.rb:272-328): the `curl` and `find` shell command
  and the `rm_rf` cleanup. It appears only as the `Upload` effect, which
  carries its arguments. The upload's own re-filtering with `find` is not
  modelled, and neither is the removal of the staging folder.
- Base64 decoding of file contents (server.rb:230). A `File` entry carries the
  decoded bytes that the contents API serves.
- `make_directories_if_needed` and `FileUtils.mkdir_p` (server.rb:258-263).
  The disk is a map from file path to bytes, so directories do not exist in
  the model.
- Logging, `request.body.rewind`, routing, and loading the environment and
  configuration (server.rb:41-57, 102-103, 126-127).
- Leaf payload values, such as `full_name`, `clone_url`, the author's name and
  email, and the issue number, are modelled as present whenever their
  enclosing object is. A nil leaf that Ruby would pass on to a call is not
  modelled. A commit without an `author` object is not modelled either: a
  commit is its author.
- Concurrency: two deliveries sharing the global array or the same
  `temp-<after>` folder.
