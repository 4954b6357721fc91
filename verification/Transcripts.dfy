/**
  Transcripts on disk: the shared tree and an account's own projects folder, as a walk of
  it meets them. What the system calls answer is part of each entry, so every mix of
  failures is one of the walks.
 */
module Transcripts {

  /** What stands at a path of the shared tree. */
  datatype Node = File(content: string) | Folder

  type Shared = map<string, Node>

  /**
    What the system answers for one file: whether it can be examined, whether its target
    can, the size reported should the target be a folder, how long a path folders can be
    made for, whether the copy can be made, and whether the file stayed as it was meanwhile.
   */
  datatype Luck = Luck(info: bool, stat: bool, size: nat, reach: nat, copy: bool, steady: bool)

  datatype Entry = Unreadable | Subfolder | Special | Regular(rel: string, content: string, luck: Luck)

  datatype Projects = Missing | Unstatable | Link | NotAFolder | Tree(walk: seq<Entry>)

  /** The regular files under it. */
  function FilesOf(p: Projects): (walk: seq<Entry>)
    ensures forall e <- walk :: p.Tree? && e in p.walk && e.Regular?
    ensures p.Tree? ==> forall e <- p.walk :: e.Regular? ==> e in walk
  {
    if p.Tree? then RegularOf(p.walk) else []
  }

  function RegularOf(walk: seq<Entry>): (files: seq<Entry>)
    ensures forall e :: e in files <==> e in walk && e.Regular?
  {
    if walk == [] then []
    else
      assert walk == [walk[0]] + walk[1..];
      (if walk[0].Regular? then [walk[0]] else []) + RegularOf(walk[1..])
  }

  // ------------------------------------------------------------ folders

  /** One path is of a folder the other is in. */
  predicate Above(p: string, rel: string) {
    0 < |p| < |rel| && rel[..|p|] == p && rel[|p|] == '/'
  }

  function Parents(rel: string): (s: set<string>)
    ensures forall p :: p in s <==> Above(p, rel)
  {
    set i | 0 < i < |rel| && rel[i] == '/' :: rel[..i]
  }

  predicate IsFolder(shared: Shared, rel: string) {
    rel in shared && shared[rel].Folder?
  }

  /** A folder that stands at a path, or can be made there. */
  predicate Standing(shared: Shared, p: string, reach: nat) {
    if p in shared then shared[p].Folder? else |p| <= reach
  }

  predicate CanMake(shared: Shared, rel: string, reach: nat) {
    forall p <- Parents(rel) :: Standing(shared, p, reach)
  }

  /** The tree once the folders above a path have been made, as far down as they can be. */
  function WithFolders(shared: Shared, rel: string, reach: nat): (r: Shared)
    ensures forall p <- shared :: p in r && r[p] == shared[p]
    ensures forall p <- r :: p in shared || (Above(p, rel) && r[p] == Folder)
    ensures CanMake(shared, rel, reach) ==> forall p <- Parents(rel) :: IsFolder(r, p)
  {
    shared + map p | p in Parents(rel) && p !in shared && ReachedFrom(shared, p, rel, reach) :: Folder
  }

  predicate ReachedFrom(shared: Shared, p: string, rel: string, reach: nat) {
    forall q <- Parents(rel) :: |q| <= |p| ==> Standing(shared, q, reach)
  }

  /** A copy renames a finished file into place, which a folder standing there refuses. */
  predicate Lands(shared: Shared, e: Entry)
    requires e.Regular?
  {
    CanMake(shared, e.rel, e.luck.reach) && e.luck.copy && !IsFolder(shared, e.rel)
  }

  /** The tree after an attempt to copy a file into it; the folders above it are made first. */
  function AfterCopy(shared: Shared, e: Entry): Shared
    requires e.Regular?
  {
    var made := WithFolders(shared, e.rel, e.luck.reach);
    if Lands(shared, e) then made[e.rel := File(e.content)] else made
  }

  /** Everything has the folders above it. */
  predicate Rooted(shared: Shared) {
    forall rel <- shared :: forall p <- Parents(rel) :: IsFolder(shared, p)
  }

  lemma CopyKeepsRooted(shared: Shared, e: Entry)
    requires e.Regular? && Rooted(shared)
    ensures Rooted(AfterCopy(shared, e))
  {
    var made := WithFolders(shared, e.rel, e.luck.reach);
    var after := AfterCopy(shared, e);
    forall rel <- after, p <- Parents(rel) ensures IsFolder(after, p) {
      if rel in shared {
        assert IsFolder(shared, p);
      } else if Above(rel, e.rel) {
        AboveAbove(p, rel, e.rel);
        FoldersComeFromTheTop(shared, e, rel, p);
      }
    }
  }

  lemma AboveAbove(p: string, q: string, rel: string)
    requires Above(p, q) && Above(q, rel)
    ensures Above(p, rel)
  {
    assert q[..|p|] == rel[..|q|][..|p|] == rel[..|p|];
  }

  /** A folder is only made once those above it stand. */
  lemma FoldersComeFromTheTop(shared: Shared, e: Entry, rel: string, p: string)
    requires e.Regular? && Above(rel, e.rel) && Above(p, rel) && Above(p, e.rel)
    requires rel !in shared && rel in WithFolders(shared, e.rel, e.luck.reach)
    ensures IsFolder(WithFolders(shared, e.rel, e.luck.reach), p)
  {
    assert ReachedFrom(shared, rel, e.rel, e.luck.reach);
    assert Standing(shared, p, e.luck.reach);
    assert ReachedFrom(shared, p, e.rel, e.luck.reach);
  }

  // ------------------------------------------------------------ what is there

  /** Examining a file's target answers with something at least as large. */
  predicate Passes(shared: Shared, e: Entry)
    requires e.Regular?
  {
    e.luck.stat && e.rel in shared && |e.content| <= (if shared[e.rel].File? then |shared[e.rel].content| else e.luck.size)
  }

  /** A shared file stands at the file's path, at least as long. */
  predicate Duplicated(shared: Shared, e: Entry)
    requires e.Regular?
  {
    e.rel in shared && shared[e.rel].File? && |e.content| <= |shared[e.rel].content|
  }

  /** Or a folder does. */
  predicate Answered(shared: Shared, e: Entry)
    requires e.Regular?
  {
    Duplicated(shared, e) || IsFolder(shared, e.rel)
  }

  /** Nothing shared is gone or shorter, and files stay files. */
  predicate NoShorter(before: Shared, after: Shared) {
    forall rel <- before :: rel in after && Outlasts(before[rel], after[rel])
  }

  predicate Outlasts(a: Node, b: Node) {
    a == b || (a.File? && b.File? && |a.content| <= |b.content|)
  }

  /** Every examination of a shared path answers. */
  predicate StatsAnswer(walk: seq<Entry>) {
    forall e <- walk :: e.Regular? ==> e.luck.stat
  }

  /** A folder's walk meets each path once, and no file above another. */
  predicate TreeShaped(walk: seq<Entry>) {
    forall i, j :: 0 <= i < |walk| && 0 <= j < |walk| && i != j && walk[i].Regular? && walk[j].Regular? ==>
      walk[i].rel != walk[j].rel && !Above(walk[i].rel, walk[j].rel)
  }

  predicate HasBelow(walk: seq<Entry>, rel: string) {
    exists e <- walk :: e.Regular? && Above(rel, e.rel)
  }
}
