/**
 * The version store the orchestrator drives: a map from commit hash to
 * commit plus a head pointer. Only the operations the orchestrator calls
 * are modelled (add, remove, set head, reset); how a hash is generated and
 * how streamed tokens edit a variant are not part of this model.
 */
module Commits {
  import opened Wrappers

  type Hash = string

  datatype CommitKind = AiCreate | AiEdit

  /** One turn of input: an instruction and the images that go with it. */
  datatype PromptContent = PromptContent(text: string, images: seq<string>)

  datatype Variant = Variant(code: string)

  /**
   * A version. `inputs` is `None` where the source would store `undefined`
   * (an edit built from an empty history list).
   */
  datatype Commit = Commit(
    hash: Hash,
    kind: CommitKind,
    parentHash: Option<Hash>,
    inputs: Option<PromptContent>,
    variants: seq<Variant>,
    selectedVariantIndex: int)

  datatype Store = Store(commits: map<Hash, Commit>, head: Option<Hash>)

  const EmptyStore := Store(map[], None)

  /** Every commit is filed under its own hash, and the head, when set, names a stored commit. */
  predicate WellFormed(s: Store) {
    && (forall h :: h in s.commits ==> s.commits[h].hash == h)
    && (s.head.Some? ==> s.head.value in s.commits)
  }

  /** `addCommit`: files the commit under its hash; every other entry and the head are untouched. */
  function AddCommit(s: Store, c: Commit): (r: Store)
    ensures c.hash in r.commits && r.commits[c.hash] == c
    ensures forall h :: h != c.hash ==> (h in r.commits <==> h in s.commits)
    ensures forall h :: h != c.hash && h in s.commits ==> r.commits[h] == s.commits[h]
    ensures r.head == s.head
  {
    Store(s.commits[c.hash := c], s.head)
  }

  /** `removeCommit`: drops one hash; every other entry and the head are untouched. */
  function RemoveCommit(s: Store, hash: Hash): (r: Store)
    ensures hash !in r.commits
    ensures forall h :: h != hash ==> (h in r.commits <==> h in s.commits)
    ensures forall h :: h in r.commits ==> r.commits[h] == s.commits[h]
    ensures r.head == s.head
  {
    Store(s.commits - {hash}, s.head)
  }

  function SetHead(s: Store, hash: Hash): (r: Store)
    ensures r.commits == s.commits && r.head == Some(hash)
  {
    s.(head := Some(hash))
  }

  /** Removing a commit just added under a fresh hash gives back the old map. */
  lemma RemoveUndoesAdd(s: Store, c: Commit)
    requires c.hash !in s.commits
    ensures RemoveCommit(AddCommit(s, c), c.hash).commits == s.commits
  {
    assert s.commits[c.hash := c] - {c.hash} == s.commits;
  }

  /** Adding a commit and pointing the head at it keeps the store well formed. */
  lemma AddAsHeadKeepsWellFormed(s: Store, c: Commit)
    requires WellFormed(s)
    ensures WellFormed(SetHead(AddCommit(s, c), c.hash))
  {
  }

  /** Removing a commit and moving the head to another stored commit keeps the store well formed. */
  lemma RemoveToParentKeepsWellFormed(s: Store, hash: Hash, parent: Hash)
    requires WellFormed(s)
    requires parent in s.commits && parent != hash
    ensures WellFormed(SetHead(RemoveCommit(s, hash), parent))
  {
  }
}
