/**
 * The webhook endpoint `post '/'` as one function of the delivery: the
 * signature gate, the case on the `X-GitHub-Event` header, and the two
 * handlers. Calls to the hosting platform's API and to the upload endpoint
 * are recorded as effects, in the order they are made; a Ruby exception
 * (a nil dereference or a concatenation with nil) ends the request with an
 * error response and no further effects.
 */
module Dispatch {
  import opened Wrappers
  import opened RubyText
  import opened Signature
  import opened TreeWalk

  /** The label added to every opened issue. */
  const NeedsResponse: string := "needs-response"

  /** The tenant identifier sent with every upload. */
  const CustomerId: string := "9dc27a01-ce32-45df-9c0f-c39254a40b2c"

  datatype Repository = Repository(fullName: string, cloneUrl: string)

  datatype Author = Author(name: string, email: string)

  /**
   * The parsed payload fields the handlers read; None where the JSON lacks
   * the object or value. `commits` lists the author of each commit of a
   * push; an absent list reads like an empty one.
   */
  datatype Payload = Payload(
    action: Option<string>,
    installationId: Option<int>,
    repository: Option<Repository>,
    issueNumber: Option<int>,
    commits: seq<Author>,
    ref: Option<string>,
    after: Option<string>)

  /** One inbound delivery: the event-type header, the signature header and the payload. */
  datatype Delivery = Delivery(event: Option<string>, signature: Option<string>, payload: Payload)

  /** Ok: 200 with body "ok". Unauthorized: 401. ServerError: 500 from an exception the route does not rescue. */
  datatype Response = Ok | Unauthorized | ServerError

  /** A call out of the server. */
  datatype Effect =
    | ExchangeToken(installationId: int)
    | AddLabels(repo: string, issue: int, labels: seq<string>)
    | ListRoot(repo: string)
    | Harvest(repo: string, folder: string, files: seq<string>)
    | Upload(repoUrl: string, branch: string, authorName: string, authorEmail: string, customerId: string, folder: string)

  datatype Outcome = Outcome(response: Response, effects: seq<Effect>)

  /** `ref.split('/').last`: nil when the ref is made of slashes only. */
  function BranchOf(ref: string): (branch: Option<string>)
    ensures branch.Some? ==> branch.value != [] && '/' !in branch.value
  {
    Last(Split(ref, '/'))
  }

  /** The local staging folder of a push, named after the pushed commit. */
  function TempFolder(after: string): (folder: string)
    ensures |folder| == |after| + 5
    ensures folder[..5] == "temp-" && folder[5..] == after
  {
    "temp-" + after
  }

  /** Two pushes share a staging folder only when they push the same commit. */
  lemma TempFolderInjective(a: string, b: string)
    ensures TempFolder(a) == TempFolder(b) <==> a == b
  {
    if TempFolder(a) == TempFolder(b) {
      assert a == TempFolder(a)[5..] == TempFolder(b)[5..] == b;
    }
  }

  /** The calls made for an `issues` event after the installation token is obtained. */
  function HandleIssues(p: Payload): (o: Outcome)
    ensures o.effects != [] <==> p.installationId.Some?
    ensures o.effects != [] ==> o.effects[0] == ExchangeToken(p.installationId.value)
  {
    match p.installationId
    case None => Outcome(ServerError, [])
    case Some(id) =>
      var auth := [ExchangeToken(id)];
      if p.action != Some("opened") then Outcome(Ok, auth)
      else if p.repository.None? || p.issueNumber.None? then Outcome(ServerError, auth)
      else Outcome(Ok, auth + [AddLabels(p.repository.value.fullName, p.issueNumber.value, [NeedsResponse])])
  }

  /** The calls made for a `push` event: authenticate, list the root, walk the tree, upload. */
  function HandlePush(p: Payload, tree: seq<Entry>): (o: Outcome)
    ensures o.effects != [] <==> p.installationId.Some?
    ensures o.effects != [] ==> o.effects[0] == ExchangeToken(p.installationId.value)
    ensures o.response == Ok ==> |o.effects| == 4 && o.effects[3].Upload?
  {
    match p.installationId
    case None => Outcome(ServerError, [])
    case Some(id) =>
      var auth := [ExchangeToken(id)];
      if p.repository.None? || p.commits == [] || p.ref.None? then Outcome(ServerError, auth)
      else
        var repo := p.repository.value;
        var author := p.commits[0];
        var branch := BranchOf(p.ref.value);
        var listed := auth + [ListRoot(repo.fullName)];
        if p.after.None? then Outcome(ServerError, listed)
        else
          var folder := TempFolder(p.after.value);
          var harvested := listed + [Harvest(repo.fullName, folder, Paths(Staged(tree, "", folder)))];
          if branch.None? then Outcome(ServerError, harvested)
          else Outcome(Ok, harvested + [Upload(repo.cloneUrl, branch.value, author.name, author.email, CustomerId, folder)])
  }

  /**
   * The endpoint. `hexdigest` is the keyed hash of this delivery's raw body;
   * `tree` is what the repository-contents API lists for the pushed repository.
   */
  function Handle(d: Delivery, hexdigest: string -> Option<string>, tree: seq<Entry>): (o: Outcome)
    ensures Check(d.signature, hexdigest) != Accepted ==> o.effects == [] && o.response != Ok
    ensures o.response == Unauthorized <==> Check(d.signature, hexdigest) == Rejected
    ensures o.effects != [] ==> d.event in {Some("issues"), Some("push")}
  {
    match Check(d.signature, hexdigest)
    case Rejected => Outcome(Unauthorized, [])
    case Raised => Outcome(ServerError, [])
    case Accepted =>
      if d.event == Some("issues") then HandleIssues(d.payload)
      else if d.event == Some("push") then HandlePush(d.payload, tree)
      else Outcome(Ok, [])
  }

  /** A delivery without a signature header reaches no handler and makes no call; with SHA-1 available it gets 401. */
  lemma MissingSignatureRejected(d: Delivery, hexdigest: string -> Option<string>, tree: seq<Entry>)
    requires d.signature.None?
    ensures Handle(d, hexdigest, tree).effects == []
    ensures Handle(d, hexdigest, tree).response != Ok
    ensures hexdigest("sha1").Some? ==> Handle(d, hexdigest, tree).response == Unauthorized
  {
    MissingHeaderNeverAccepted(hexdigest);
  }

  /** An event other than `issues` and `push` that passes the gate is answered "ok" with no call at all. */
  lemma OtherEventsIgnored(d: Delivery, hexdigest: string -> Option<string>, tree: seq<Entry>)
    requires Check(d.signature, hexdigest) == Accepted
    requires d.event != Some("issues") && d.event != Some("push")
    ensures Handle(d, hexdigest, tree) == Outcome(Ok, [])
  {
  }

  /**
   * An `issues` event with the installation, repository and issue present:
   * the token is obtained, then exactly one label call with
   * ["needs-response"] is made if the action is "opened" and none otherwise;
   * the answer is "ok" either way.
   */
  lemma IssueLabelRule(d: Delivery, hexdigest: string -> Option<string>, tree: seq<Entry>)
    requires Check(d.signature, hexdigest) == Accepted && d.event == Some("issues")
    requires d.payload.installationId.Some? && d.payload.repository.Some? && d.payload.issueNumber.Some?
    ensures Handle(d, hexdigest, tree).response == Ok
    ensures Handle(d, hexdigest, tree).effects ==
      [ExchangeToken(d.payload.installationId.value)] +
      (if d.payload.action == Some("opened")
       then [AddLabels(d.payload.repository.value.fullName, d.payload.issueNumber.value, ["needs-response"])]
       else [])
  {
  }

  /** The number of label calls in a trace. */
  function LabelCalls(effects: seq<Effect>): nat
  {
    if effects == [] then 0 else (if effects[0].AddLabels? then 1 else 0) + LabelCalls(effects[1..])
  }

  /** Whatever the payload holds, an `issues` event makes at most one label call, and one only for an opened issue. */
  lemma AtMostOneLabelCall(d: Delivery, hexdigest: string -> Option<string>, tree: seq<Entry>)
    requires d.event == Some("issues")
    ensures LabelCalls(Handle(d, hexdigest, tree).effects) <= 1
    ensures LabelCalls(Handle(d, hexdigest, tree).effects) == 1 ==> d.payload.action == Some("opened")
  {
    var e := Handle(d, hexdigest, tree).effects;
    if e != [] {
      assert !e[0].AddLabels?;
      if |e| == 2 {
        assert e[1..][1..] == [];
        assert LabelCalls(e) == LabelCalls(e[1..]) == 1;
      } else {
        assert e[1..] == [];
      }
    }
  }

  /** "refs/heads/<name>" names branch <name>, whatever the prefix. */
  lemma BranchIsLastSegment(prefix: string, name: string)
    requires name != [] && '/' !in name
    ensures BranchOf(prefix + "/" + name) == Some(name)
  {
    RawSplitNoSeparator(name, '/');
    RawSplitAtSeparator(prefix, name, '/');
    DropTrailingEmptyOfNonEmptyLast(RawSplit(prefix, '/') + [name]);
  }

  /** Ruby's `split` drops a trailing empty field, so a ref ending in '/' names its last non-empty segment. */
  lemma BranchIgnoresTrailingSlash(ref: string)
    ensures BranchOf(ref + "/") == BranchOf(ref)
  {
    RawSplitNoSeparator([], '/');
    assert ref + "/" == ref + ['/'] + [];
    RawSplitAtSeparator(ref, [], '/');
    DropTrailingEmptyAppendEmpty(RawSplit(ref, '/'));
  }

  /** The branch is nil exactly for a ref made of slashes only, the empty ref included. */
  lemma BranchAbsent(ref: string)
    ensures BranchOf(ref).None? <==> OnlySeparators(ref, '/')
  {
    SplitEmpty(ref, '/');
  }

  /**
   * A push with every field present: the token is obtained, the root is
   * listed, the Terraform files of the tree are staged under
   * "temp-" + after, and one upload carries the last segment of the ref as
   * the branch and the first commit's author, whatever the other commits.
   */
  lemma PushDerivesMetadata(d: Delivery, hexdigest: string -> Option<string>, tree: seq<Entry>, prefix: string, name: string)
    requires Check(d.signature, hexdigest) == Accepted && d.event == Some("push")
    requires d.payload.installationId.Some? && d.payload.repository.Some? && d.payload.commits != []
    requires d.payload.after.Some?
    requires d.payload.ref == Some(prefix + "/" + name) && name != [] && '/' !in name
    ensures var p := d.payload;
            var folder := "temp-" + p.after.value;
            Handle(d, hexdigest, tree) == Outcome(Ok, [
              ExchangeToken(p.installationId.value),
              ListRoot(p.repository.value.fullName),
              Harvest(p.repository.value.fullName, folder, Paths(Staged(tree, "", folder))),
              Upload(p.repository.value.cloneUrl, name, p.commits[0].name, p.commits[0].email, CustomerId, folder)])
  {
    BranchIsLastSegment(prefix, name);
  }

  /** Only the first commit of a push is read: the rest of the list changes nothing. */
  lemma OnlyFirstCommitRead(p: Payload, q: Payload, tree: seq<Entry>)
    requires p.commits != [] && q.commits != [] && p.commits[0] == q.commits[0]
    requires p == q.(commits := p.commits)
    ensures HandlePush(p, tree) == HandlePush(q, tree)
  {
  }

  /**
   * Past the gate the answer is "ok" unless a field the handler dereferences
   * is missing; it is never 401.
   */
  lemma AcceptedAnswersOk(d: Delivery, hexdigest: string -> Option<string>, tree: seq<Entry>)
    requires Check(d.signature, hexdigest) == Accepted
    requires d.event == Some("issues") ==>
      d.payload.installationId.Some? &&
      (d.payload.action == Some("opened") ==> d.payload.repository.Some? && d.payload.issueNumber.Some?)
    requires d.event == Some("push") ==>
      d.payload.installationId.Some? && d.payload.repository.Some? && d.payload.commits != [] &&
      d.payload.after.Some? && d.payload.ref.Some? && exists i :: 0 <= i < |d.payload.ref.value| && d.payload.ref.value[i] != '/'
    ensures Handle(d, hexdigest, tree).response == Ok
  {
    if d.event == Some("push") {
      BranchAbsent(d.payload.ref.value);
    }
  }

  /** The example of a push to refs/heads/feature-x: the branch is "feature-x". */
  lemma FeatureBranchExample()
    ensures BranchOf("refs/heads/feature-x") == Some("feature-x")
  {
    var name := "feature-x";
    NoSlashIn(name);
    assert "refs/heads/feature-x" == "refs/heads" + "/" + name;
    BranchIsLastSegment("refs/heads", name);
  }

  lemma NoSlashIn(name: string)
    requires name == "feature-x"
    ensures '/' !in name
  {
    forall i | 0 <= i < |name| ensures name[i] != '/' { }
  }
}
