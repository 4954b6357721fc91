/** Pruning deletes only what is duplicated, over a whole run. */
module PruningSafety {
  import opened Transcripts
  import opened Pruning

  // ------------------------------------------------------------ sharing

  /** One entry makes a shared file shorter exactly when examining it failed and the copy still landed on a longer one. */
  lemma AShareShrinksExactlyWhen(s: Sharing, e: Entry, apply: bool)
    ensures !NoShorter(s.shared, ShareOne(s, e, apply).shared) <==>
            apply && e.Regular? && e.luck.info && !e.luck.stat && Lands(s.shared, e)
            && e.rel in s.shared && |s.shared[e.rel].content| > |e.content|
  {
    hide CanMake, Parents;
    var after := ShareOne(s, e, apply).shared;
    assert forall rel <- s.shared :: rel in after && (after[rel] == s.shared[rel] || (e.Regular? && rel == e.rel));
    if e.Regular? && e.rel in s.shared {
      assert !Outlasts(s.shared[e.rel], after[e.rel]) ==> !NoShorter(s.shared, after);
    }
  }

  lemma NoShorterAgain(a: Shared, b: Shared, c: Shared)
    requires NoShorter(a, b) && NoShorter(b, c)
    ensures NoShorter(a, c)
  {
    forall rel <- a ensures rel in c && Outlasts(a[rel], c[rel]) {
      assert Outlasts(a[rel], b[rel]) && Outlasts(b[rel], c[rel]);
    }
  }

  lemma StaysAnswered(a: Shared, b: Shared, e: Entry)
    requires e.Regular? && Answered(a, e) && NoShorter(a, b)
    ensures Answered(b, e)
  {
    assert Outlasts(a[e.rel], b[e.rel]);
  }

  /**
    Where examinations answer, sharing shortens nothing and, if nothing failed, leaves at
    every file's path a file at least as long, or a folder.
   */
  lemma {:induction false} SharingDuplicates(shared: Shared, walk: seq<Entry>, apply: bool)
    requires StatsAnswer(walk)
    ensures var s := ShareAll(shared, walk, apply);
            && NoShorter(shared, s.shared)
            && (apply && s.failed == 0 ==> forall e <- walk :: e.Regular? ==> Answered(s.shared, e))
            && (!apply ==> s.shared == shared)
            && (Rooted(shared) ==> Rooted(s.shared))
    decreases |walk|
  {
    hide NoShorter, Rooted;
    if walk == [] {
      NoShorterThanItself(shared);
    } else {
      var front, e := walk[..|walk| - 1], walk[|walk| - 1];
      assert walk == front + [e];
      SharingDuplicates(shared, front, apply);
      var before := ShareAll(shared, front, apply);
      var s := ShareAll(shared, walk, apply);
      assert s == ShareOne(before, e, apply);
      hide ShareAll;
      AShareShrinksExactlyWhen(before, e, apply);
      NoShorterAgain(shared, before.shared, s.shared);
      if e.Regular? && Rooted(shared) {
        CopyKeepsRooted(before.shared, e);
      }
      if apply && s.failed == 0 {
        forall f <- walk | f.Regular? ensures Answered(s.shared, f) {
          if f in front {
            StaysAnswered(before.shared, s.shared, f);
          }
        }
      }
    }
  }

  lemma NoShorterThanItself(s: Shared)
    ensures NoShorter(s, s)
  {
  }

  /** Only the walk's own paths and the folders above them change, so a path met later is still as it was. */
  lemma {:induction false} OtherPathsStay(shared: Shared, walk: seq<Entry>, rel: string, apply: bool)
    requires forall e <- walk :: e.Regular? ==> e.rel != rel && !Above(rel, e.rel)
    ensures var s := ShareAll(shared, walk, apply).shared;
            (rel in s <==> rel in shared) && (rel in shared ==> s[rel] == shared[rel])
    decreases |walk|
  {
    hide CanMake, Parents, Above;
    if walk != [] {
      var front := walk[..|walk| - 1];
      assert walk == front + [walk[|walk| - 1]];
      OtherPathsStay(shared, front, rel, apply);
    }
  }

  /** A dry run counts exactly the files a real run has to copy. */
  lemma {:induction false} ADryRunForetellsTheCopies(shared: Shared, walk: seq<Entry>)
    requires TreeShaped(walk)
    ensures ShareAll(shared, walk, false).needed == ShareAll(shared, walk, true).needed
    ensures ShareAll(shared, walk, false).shared == shared
    ensures ShareAll(shared, walk, false).failed <= ShareAll(shared, walk, true).failed
    decreases |walk|
  {
    hide Above, AfterCopy, Lands;
    if walk != [] {
      var front, e := walk[..|walk| - 1], walk[|walk| - 1];
      ADryRunForetellsTheCopies(shared, front);
      if e.Regular? {
        forall f <- front | f.Regular? ensures f.rel != e.rel && !Above(e.rel, f.rel) {
          var i :| 0 <= i < |front| && front[i] == f;
          assert walk[i] == f;
        }
        OtherPathsStay(shared, front, e.rel, true);
      }
    }
  }

  /** A folder in the shared tree was there before or is above one of the walk's files. */
  lemma {:induction false} FoldersComeFromBelow(shared: Shared, walk: seq<Entry>, apply: bool, rel: string)
    ensures IsFolder(ShareAll(shared, walk, apply).shared, rel) ==> IsFolder(shared, rel) || HasBelow(walk, rel)
    decreases |walk|
  {
    hide CanMake, Parents, Above;
    if walk != [] {
      var front, e := walk[..|walk| - 1], walk[|walk| - 1];
      assert walk == front + [e];
      FoldersComeFromBelow(shared, front, apply, rel);
      if HasBelow(front, rel) {
        var f :| f in front && f.Regular? && Above(rel, f.rel);
        assert f in walk;
      }
      assert e in walk;
    }
  }

  // ------------------------------------------------------------ removing

  lemma {:induction false} RemovalKeeps(h: Home, names: seq<string>, dryRun: bool)
    requires h.Valid()
    ensures var r := RemoveAll(h, names, dryRun).home;
            && r.Valid() && r.left == h.left && r.stuck == h.stuck
            && (forall e <- FilesOf(r.projects) :: e in FilesOf(h.projects))
            && (r.projects.Missing? || r.projects == h.projects || (h.projects.Tree? && r.projects == Tree(h.left)))
            && (forall n <- h.names :: !Removable(n) ==> n in r.names)
            && (dryRun ==> r == h)
    decreases |names|
  {
    if names != [] {
      RemovalKeeps(h, names[..|names| - 1], dryRun);
    }
  }

  // ------------------------------------------------------------ the run

  ghost predicate Sound(d: State) {
    && Rooted(d.shared)
    && forall dir <- d.homes :: d.homes[dir].Valid() && StatsAnswer(d.homes[dir].left)
                                && (d.homes[dir].projects.Tree? ==> StatsAnswer(d.homes[dir].projects.walk))
  }

  /** Every transcript there is was there before; one that was and is not has a file or a folder at its path. */
  ghost predicate NothingLost(before: State, after: State) {
    && before.homes.Keys == after.homes.Keys
    && (forall dir <- before.homes :: forall e <- FilesOf(before.homes[dir].projects) ::
          e in FilesOf(after.homes[dir].projects) || Answered(after.shared, e))
    && (forall dir <- before.homes :: forall e <- FilesOf(after.homes[dir].projects) :: e in FilesOf(before.homes[dir].projects))
  }

  lemma NothingLostAgain(a: State, b: State, c: State)
    requires NothingLost(a, b) && NothingLost(b, c) && NoShorter(b.shared, c.shared)
    ensures NothingLost(a, c)
  {
    hide FilesOf, Answered, NoShorter;
    forall dir <- a.homes, e <- FilesOf(a.homes[dir].projects)
      ensures e in FilesOf(c.homes[dir].projects) || Answered(c.shared, e)
    {
      if e !in FilesOf(b.homes[dir].projects) {
        FilesAreRegular(a.homes[dir].projects, e);
        StaysAnswered(b.shared, c.shared, e);
      }
    }
  }

  lemma FilesAreRegular(p: Projects, e: Entry)
    requires e in FilesOf(p)
    ensures e.Regular? && p.Tree? && e in p.walk
  {
  }

  /** An account whose projects are linked or unreadable, or some of whose files could not be copied. */
  predicate LeftAlone(d: State, a: Account, dryRun: bool)
    requires a.configDir in d.homes
  {
    var p := d.homes[a.configDir].projects;
    Refused(p) || SharingOf(d.shared, p, !dryRun).failed > 0
  }

  lemma SharingIsSafe(shared: Shared, p: Projects, apply: bool)
    requires (p.Tree? ==> StatsAnswer(p.walk)) && Rooted(shared)
    ensures var s := SharingOf(shared, p, apply);
            && NoShorter(shared, s.shared) && Rooted(s.shared) && (!apply ==> s.shared == shared)
            && (apply && s.failed == 0 ==> forall e <- FilesOf(p) :: Answered(s.shared, e))
  {
    hide ShareAll, NoShorter, Rooted, Answered, FilesOf;
    NoShorterThanItself(shared);
    if p.Tree? {
      SharingDuplicates(shared, p.walk, apply);
    }
    forall e <- FilesOf(p) ensures p.Tree? && e in p.walk && e.Regular? {
      FilesAreRegular(p, e);
    }
  }

  /** One account: nothing lost, nothing shared shortened; whatever could not be duplicated leaves it wholly alone. */
  lemma PruneOneIsSafe(d: State, a: Account, dryRun: bool)
    requires Sound(d)
    ensures var d' := PruneOne(d, a, dryRun).state;
            && Sound(d') && NothingLost(d, d') && NoShorter(d.shared, d'.shared)
            && (dryRun ==> d' == d)
    ensures a.configDir in d.homes && LeftAlone(d, a, dryRun) ==>
              PruneOne(d, a, dryRun).state.homes == d.homes && PruneOne(d, a, dryRun).report.failed
              && PruneOne(d, a, dryRun).report.removed == []
    ensures a.configDir in d.homes && !LeftAlone(d, a, dryRun) && !dryRun ==>
              forall e <- FilesOf(d.homes[a.configDir].projects) :: Answered(PruneOne(d, a, dryRun).state.shared, e)
    ensures forall dir <- d.homes :: forall n <- d.homes[dir].names ::
              !Removable(n) ==> dir in PruneOne(d, a, dryRun).state.homes && n in PruneOne(d, a, dryRun).state.homes[dir].names
  {
    hide ShareAll, RemoveAll, FilesOf, Answered, NoShorter, Removable, StatsAnswer, Rooted;
    NoShorterThanItself(d.shared);
    if a.configDir in d.homes {
      var h := d.homes[a.configDir];
      SharingIsSafe(d.shared, h.projects, !dryRun);
      RemovalKeeps(h, h.names, dryRun);
      assert d.homes[a.configDir := h] == d.homes;
    }
  }

  ghost predicate NothingElseRemoved(before: State, after: State) {
    forall dir <- before.homes :: forall n <- before.homes[dir].names ::
      !Removable(n) ==> dir in after.homes && n in after.homes[dir].names
  }

  /**
    Over all the accounts of a run: every transcript removed has at its path a shared file
    at least as long, or a folder; no shared file got shorter; what is not on the allowlist
    stays; and a dry run changes nothing.
   */
  lemma {:induction false} ARunLosesNothing(d: State, list: seq<Account>, ids: set<string>, dryRun: bool)
    requires Sound(d)
    ensures var d' := PruneAll(d, list, ids, dryRun).state;
            && Sound(d') && NothingLost(d, d') && NoShorter(d.shared, d'.shared)
            && (dryRun ==> d' == d) && NothingElseRemoved(d, d')
    decreases |list|
  {
    hide FilesOf, Answered, NoShorter, Removable, PruneOne, Sound;
    if list == [] {
      NoShorterThanItself(d.shared);
    } else {
      var front, a := list[..|list| - 1], list[|list| - 1];
      ARunLosesNothing(d, front, ids, dryRun);
      if Considered(a, ids) {
        var mid := PruneAll(d, front, ids, dryRun).state;
        PruneOneIsSafe(mid, a, dryRun);
        var d' := PruneOne(mid, a, dryRun).state;
        NothingLostAgain(d, mid, d');
        NoShorterAgain(d.shared, mid.shared, d'.shared);
      }
    }
  }

  /** A considered account has a file below the path. */
  predicate AnyBelow(d: State, list: seq<Account>, ids: set<string>, rel: string) {
    exists a <- list :: Considered(a, ids) && a.configDir in d.homes && HasBelow(FilesOf(d.homes[a.configDir].projects), rel)
  }

  /** A folder in the shared tree after a run was there before it, or is above a file of an account of the run. */
  lemma {:induction false} ARunsFoldersComeFromBelow(d: State, list: seq<Account>, ids: set<string>, dryRun: bool, rel: string)
    requires Sound(d)
    ensures IsFolder(PruneAll(d, list, ids, dryRun).state.shared, rel) ==> IsFolder(d.shared, rel) || AnyBelow(d, list, ids, rel)
    decreases |list|
  {
    hide ShareAll, RemoveAll, FilesOf, Sound, NoShorter, Answered, Above, HasBelow;
    if list != [] {
      var front, a := list[..|list| - 1], list[|list| - 1];
      assert list == front + [a];
      ARunsFoldersComeFromBelow(d, front, ids, dryRun, rel);
      ARunLosesNothing(d, front, ids, dryRun);
      var mid := PruneAll(d, front, ids, dryRun).state;
      assert AnyBelow(d, front, ids, rel) ==> AnyBelow(d, list, ids, rel);
      if Considered(a, ids) && a.configDir in mid.homes && mid.homes[a.configDir].projects.Tree? {
        var p := mid.homes[a.configDir].projects;
        FoldersComeFromBelow(mid.shared, p.walk, !dryRun, rel);
        if HasBelow(p.walk, rel) {
          WalkedBelow(p, d.homes[a.configDir].projects, rel);
          assert a in list;
        }
      }
    }
  }

  lemma WalkedBelow(p: Projects, q: Projects, rel: string)
    requires p.Tree? && HasBelow(p.walk, rel) && forall e <- FilesOf(p) :: e in FilesOf(q)
    ensures HasBelow(FilesOf(q), rel)
  {
    hide Above;
    var e :| e in p.walk && e.Regular? && Above(rel, e.rel);
    assert e in FilesOf(p);
  }

  /** Every account of the run could be shared when its turn came. */
  predicate AllShared(d: State, list: seq<Account>, ids: set<string>) {
    forall k :: 0 <= k < |list| && Considered(list[k], ids) ==>
      var mid := PruneAll(d, list[..k], ids, false).state;
      list[k].configDir in mid.homes ==> !LeftAlone(mid, list[k], false)
  }

  /** Then every file of every account of the run has a file or a folder at its path. */
  lemma {:induction false} EveryFileIsAnswered(d: State, list: seq<Account>, ids: set<string>, a: Account, e: Entry)
    requires Sound(d) && AllShared(d, list, ids) && a in list && Considered(a, ids) && a.configDir in d.homes
    requires e in FilesOf(d.homes[a.configDir].projects)
    ensures e.Regular? && Answered(PruneAll(d, list, ids, false).state.shared, e)
    decreases |list|
  {
    hide FilesOf, Answered, NoShorter, Removable, PruneOne, Sound, LeftAlone;
    FilesAreRegular(d.homes[a.configDir].projects, e);
    var n := |list| - 1;
    var front, b := list[..n], list[n];
    assert list == front + [b];
    var mid := PruneAll(d, front, ids, false).state;
    ARunLosesNothing(d, front, ids, false);
    assert Considered(b, ids) ==> b.configDir in mid.homes ==> !LeftAlone(mid, b, false);
    forall k | 0 <= k < n ensures list[..k] == front[..k] && list[k] == front[k] {
    }
    assert AllShared(d, front, ids);
    PruneOneIsSafe(mid, b, false);
    if a in front {
      EveryFileIsAnswered(d, front, ids, a, e);
      if Considered(b, ids) {
        StaysAnswered(mid.shared, PruneOne(mid, b, false).state.shared, e);
      }
    } else if e !in FilesOf(mid.homes[a.configDir].projects) {
      StaysAnswered(mid.shared, PruneOne(mid, b, false).state.shared, e);
    }
  }

  /**
    Prune deletes only what is duplicated: a transcript removed from an account has a
    shared file at its path at least as long, if no folder stood at that path before the
    run and no account of the run has a file below it; and, when every account of the run
    could be shared, only if.
   */
  lemma PruneDeletesOnlyWhatIsDuplicated(d: State, list: seq<Account>, ids: set<string>, dir: string, e: Entry)
    requires Sound(d) && dir in d.homes && e in FilesOf(d.homes[dir].projects)
    requires var d' := PruneAll(d, list, ids, false).state; dir !in d'.homes || e !in FilesOf(d'.homes[dir].projects)
    ensures e.Regular?
    ensures var d' := PruneAll(d, list, ids, false).state;
            && (!IsFolder(d.shared, e.rel) && !AnyBelow(d, list, ids, e.rel) ==> Duplicated(d'.shared, e))
            && (AllShared(d, list, ids) ==>
                  (Duplicated(d'.shared, e) <==> !IsFolder(d.shared, e.rel) && !AnyBelow(d, list, ids, e.rel)))
  {
    hide FilesOf, NoShorter, PruneAll, AllShared, Above, Parents;
    FilesAreRegular(d.homes[dir].projects, e);
    ARunLosesNothing(d, list, ids, false);
    ARunsFoldersComeFromBelow(d, list, ids, false, e.rel);
    var d' := PruneAll(d, list, ids, false).state;
    if IsFolder(d.shared, e.rel) {
      FoldersStay(d.shared, d'.shared, e.rel);
    } else if AllShared(d, list, ids) && AnyBelow(d, list, ids, e.rel) {
      var a :| a in list && Considered(a, ids) && a.configDir in d.homes
               && HasBelow(FilesOf(d.homes[a.configDir].projects), e.rel);
      var f :| f in FilesOf(d.homes[a.configDir].projects) && f.Regular? && Above(e.rel, f.rel);
      EveryFileIsAnswered(d, list, ids, a, f);
      assert e.rel in Parents(f.rel);
    }
  }

  lemma FoldersStay(a: Shared, b: Shared, rel: string)
    requires NoShorter(a, b) && IsFolder(a, rel)
    ensures IsFolder(b, rel)
  {
    assert Outlasts(a[rel], b[rel]);
  }

  /** An account no run considers keeps its folder as it is. */
  lemma {:induction false} OtherAccountsStay(d: State, list: seq<Account>, ids: set<string>, dryRun: bool, dir: string)
    requires dir in d.homes && forall a <- list :: Considered(a, ids) ==> a.configDir != dir
    ensures var d' := PruneAll(d, list, ids, dryRun).state; dir in d'.homes && d'.homes[dir] == d.homes[dir]
    decreases |list|
  {
    if list != [] {
      var front := list[..|list| - 1];
      assert list == front + [list[|list| - 1]];
      OtherAccountsStay(d, front, ids, dryRun, dir);
    }
  }

  /** A folder that stands where a transcript belongs passes for a copy once it is reported as large. */
  lemma AFolderPassesForACopy(content: string, size: nat)
    requires |content| <= size
    ensures var e := Regular("p/x.jsonl", content, Luck(true, true, size, 100, true, true));
            ShareAll(map["p/x.jsonl" := Folder], [e], true) == Sharing(map["p/x.jsonl" := Folder], 0, 0)
  {
    var e := Regular("p/x.jsonl", content, Luck(true, true, size, 100, true, true));
    assert [e][..0] == [];
  }

  // A run from an empty shared tree in which one account's folder hides another's transcript.

  function Fine(size: nat): Luck { Luck(true, true, size, 3, true, true) }
  function Below(): Entry { Regular("p/x/y", "", Fine(0)) }
  function Hidden(content: string): Entry { Regular("p/x", content, Fine(|content|)) }
  function OneHome(e: Entry): Home { Home([PROJECTS], Tree([e]), {}, []) }
  function Emptied(): Home { Home([], Missing, {}, []) }
  function First(): Account { Account("a", false, "A", true) }
  function Second(): Account { Account("b", false, "B", true) }
  function TwoHomes(content: string): State { State(map[], map["A" := OneHome(Below()), "B" := OneHome(Hidden(content))]) }
  function Made(): Shared { map["p" := Folder, "p/x" := Folder, "p/x/y" := File("")] }

  lemma TheFirstMakesFolders()
    ensures ShareAll(map[], [Below()], true) == Sharing(Made(), 1, 0)
  {
    var rel := "p/x/y";
    assert rel[0] == 'p' && rel[1] == '/' && rel[2] == 'x' && rel[3] == '/' && rel[4] == 'y';
    assert rel[..1] == "p" && rel[..3] == "p/x";
    assert Parents(rel) == {"p", "p/x"};
    assert [Below()][..0] == [];
    var made := WithFolders(map[], rel, 3);
    assert CanMake(map[], rel, 3);
    assert forall p <- Parents(rel) :: ReachedFrom(map[], p, rel, 3);
    assert made == map["p" := Folder, "p/x" := Folder];
    assert AfterCopy(map[], Below()) == Made();
  }

  lemma TheSecondPasses(content: string)
    ensures ShareAll(Made(), [Hidden(content)], true) == Sharing(Made(), 0, 0)
  {
    assert [Hidden(content)][..0] == [];
  }

  lemma ItIsEmptied(e: Entry)
    ensures RemoveAll(OneHome(e), [PROJECTS], false) == Removing(Emptied(), [PROJECTS], false)
  {
    var h := OneHome(e);
    assert [PROJECTS][..0] == [] && Removable(PROJECTS);
    assert Without([PROJECTS], PROJECTS) == [];
    assert RemoveAll(h, [], false) == Removing(h, [], false);
    assert RemoveOne(h, PROJECTS) == Emptied();
    assert RemoveAll(h, [PROJECTS], false) == RemoveNext(RemoveAll(h, [], false), PROJECTS, false);
  }

  /** No folder stands at the path before the run, and after it the transcript is gone and has no copy. */
  lemma AFolderMadeInTheRunHidesATranscript(content: string)
    ensures var d := TwoHomes(content);
            var d' := PruneAll(d, [First(), Second()], {}, false).state;
            && Sound(d) && !IsFolder(d.shared, "p/x") && Hidden(content) in FilesOf(d.homes["B"].projects)
            && "B" in d'.homes && d'.homes["B"].projects == Missing && !Duplicated(d'.shared, Hidden(content))
  {
    var d := TwoHomes(content);
    TheFirstMakesFolders();
    TheSecondPasses(content);
    ItIsEmptied(Below());
    ItIsEmptied(Hidden(content));
    hide ShareAll, RemoveAll;
    var list := [First(), Second()];
    assert list[..1] == [First()] && [First()][..0] == [];
    var d1 := PruneOne(d, First(), false).state;
    assert d1.shared == Made() && d1.homes["B"] == OneHome(Hidden(content));
    assert PruneAll(d, [First()], {}, false).state == d1;
    var d2 := PruneOne(d1, Second(), false).state;
    assert PruneAll(d, list, {}, false).state == d2;
  }
}
