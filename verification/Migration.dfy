/**
  Moving accounts onto the shared folder (internal/accounts/migrate.go): transcripts are
  copied and never overwritten, and an account is moved only when all of them are there.
 */
module Migration {
  import opened Transcripts
  import opened Pruning
  import opened PruningSafety

  datatype Copying = Copying(shared: Shared, copied: nat, skipped: nat, failed: nat)

  function CopyOne(c: Copying, e: Entry): Copying {
    match e
    case Unreadable => c.(failed := c.failed + 1)
    case Subfolder => c
    case Special => c
    case Regular(rel, content, luck) =>
      if luck.stat && rel in c.shared then c.(skipped := c.skipped + 1)
      else if !luck.info then c.(shared := WithFolders(c.shared, rel, luck.reach), failed := c.failed + 1)
      else if !Lands(c.shared, e) || !luck.steady then c.(shared := AfterCopy(c.shared, e), failed := c.failed + 1)
      else c.(shared := AfterCopy(c.shared, e), copied := c.copied + 1)
  }

  function CopyAll(shared: Shared, walk: seq<Entry>): Copying {
    if walk == [] then Copying(shared, 0, 0, 0) else CopyOne(CopyAll(shared, walk[..|walk| - 1]), walk[|walk| - 1])
  }

  function CopyingOf(shared: Shared, p: Projects): Copying {
    if p.Tree? then CopyAll(shared, p.walk) else Copying(shared, 0, 0, 0)
  }

  /** A managed account still on its own folder, which exists. */
  predicate StillIsolated(a: Account, homes: map<string, Home>) {
    !a.isDefault && a.configDir != "" && !a.credentialsOnly && a.configDir in homes
  }

  datatype Migrated = Migrated(shared: Shared, flips: set<string>)

  function MigrateAll(shared: Shared, homes: map<string, Home>, list: seq<Account>): Migrated {
    if list == [] then Migrated(shared, {})
    else
      var before := MigrateAll(shared, homes, list[..|list| - 1]);
      var a := list[|list| - 1];
      if !StillIsolated(a, homes) then before
      else
        var p := homes[a.configDir].projects;
        var c := CopyingOf(before.shared, p);
        Migrated(c.shared, if Refused(p) || c.failed > 0 then before.flips else before.flips + {a.id})
  }

  /** The flip, over the accounts as they are by then. */
  function Flipped(cur: seq<Account>, flips: set<string>): (r: seq<Account>)
    ensures |r| == |cur|
    ensures forall i :: 0 <= i < |cur| ==>
              r[i] == if cur[i].id in flips && !cur[i].isDefault then cur[i].(credentialsOnly := true) else cur[i]
  {
    seq(|cur|, i requires 0 <= i < |cur| =>
      if cur[i].id in flips && !cur[i].isDefault then cur[i].(credentialsOnly := true) else cur[i])
  }

  /** The manager's disk while it migrates; the accounts' own folders are only read. */
  class Mover {
    var shared: Shared
    const homes: map<string, Home>

    constructor (shared: Shared, homes: map<string, Home>)
      ensures this.shared == shared && this.homes == homes
    {
      this.shared, this.homes := shared, homes;
    }

    method CopyProjectsTree(p: Projects) returns (copied: nat, skipped: nat, failed: nat, refused: bool)
      modifies this`shared
      ensures Copying(shared, copied, skipped, failed) == CopyingOf(old(shared), p)
      ensures refused == Refused(p)
    {
      copied, skipped, failed, refused := 0, 0, 0, false;
      if p.Link? || p.Unstatable? {
        refused := true;
        return;
      }
      if p.Missing? || p.NotAFolder? {
        return;
      }
      var i := 0;
      while i < |p.walk|
        invariant 0 <= i <= |p.walk|
        invariant Copying(shared, copied, skipped, failed) == CopyAll(old(shared), p.walk[..i])
      {
        var e := p.walk[i];
        assert p.walk[..i + 1][..i] == p.walk[..i];
        i := i + 1;
        if e.Unreadable? {
          failed := failed + 1;
        } else if e.Regular? {
          if e.luck.stat && e.rel in shared {
            skipped := skipped + 1;
            continue;
          }
          var made := CanMake(shared, e.rel, e.luck.reach);
          shared := WithFolders(shared, e.rel, e.luck.reach);
          if !made || !e.luck.info {
            failed := failed + 1;
            continue;
          }
          if !e.luck.copy || IsFolder(shared, e.rel) {
            failed := failed + 1;
            continue;
          }
          shared := shared[e.rel := File(e.content)];
          if !e.luck.steady {
            failed := failed + 1;
            continue;
          }
          copied := copied + 1;
        }
      }
      assert p.walk[..|p.walk|] == p.walk;
    }

    /** Copies, then flips in place the accounts as the store has them by then. */
    method Migrate(list: seq<Account>, cur: array<Account>)
      modifies this, cur
      ensures var m := MigrateAll(old(shared), homes, list);
              shared == m.shared && cur[..] == Flipped(old(cur[..]), m.flips)
      ensures forall i :: 0 <= i < cur.Length ==>
                (cur[i].credentialsOnly <==>
                   old(cur[..])[i].credentialsOnly || (!cur[i].isDefault && exists k :: 0 <= k < |list| && list[k].id == cur[i].id && MovesAt(old(shared), homes, list, k)))
    {
      var flips: set<string> := {};
      var i := 0;
      while i < |list|
        invariant 0 <= i <= |list|
        invariant Migrated(shared, flips) == MigrateAll(old(shared), homes, list[..i])
        invariant cur[..] == old(cur[..])
      {
        hide CopyAll;
        var a := list[i];
        assert list[..i + 1][..i] == list[..i];
        i := i + 1;
        if a.isDefault || a.configDir == "" || a.credentialsOnly || a.configDir !in homes {
          continue;
        }
        var _, _, failed, refused := CopyProjectsTree(homes[a.configDir].projects);
        if !refused && failed == 0 {
          flips := flips + {a.id};
        }
      }
      assert list[..|list|] == list;
      if flips != {} {
        Flip(cur, flips);
      }
      forall i | 0 <= i < cur.Length
        ensures cur[..][i] == cur[i] && cur[i].id == old(cur[..])[i].id && cur[i].isDefault == old(cur[..])[i].isDefault
        ensures cur[i].credentialsOnly <==>
                  old(cur[..])[i].credentialsOnly || (!cur[i].isDefault && exists k :: 0 <= k < |list| && list[k].id == cur[i].id && MovesAt(old(shared), homes, list, k))
      {
        hide MovesAt, MigrateAll;
        SchemesChangeExactlyWhen(old(shared), homes, list, old(cur[..]), i);
      }
    }

    method Flip(cur: array<Account>, flips: set<string>)
      modifies cur
      ensures cur[..] == Flipped(old(cur[..]), flips)
    {
      ghost var wanted := Flipped(cur[..], flips);
      for i := 0 to cur.Length
        invariant forall j :: 0 <= j < i ==> cur[j] == wanted[j]
        invariant forall j :: i <= j < cur.Length ==> cur[j] == old(cur[..])[j]
      {
        if cur[i].id in flips && !cur[i].isDefault && !cur[i].credentialsOnly {
          cur[i] := cur[i].(credentialsOnly := true);
        }
      }
      assert cur[..] == wanted;
    }
  }

  // ------------------------------------------------------------ what a migration keeps

  /** Everything shared before is shared still, as it was. */
  predicate Untouched(before: Shared, after: Shared) {
    forall rel <- before :: rel in after && after[rel] == before[rel]
  }

  lemma UntouchedAgain(a: Shared, b: Shared, c: Shared)
    requires Untouched(a, b) && Untouched(b, c)
    ensures Untouched(a, c)
  {
  }

  lemma UntouchedByItself(s: Shared)
    ensures Untouched(s, s)
  {
  }

  /** One entry overwrites a shared file exactly when examining it failed and the copy landed on other contents. */
  lemma ACopyOverwritesExactlyWhen(c: Copying, e: Entry)
    ensures !Untouched(c.shared, CopyOne(c, e).shared) <==>
            e.Regular? && !e.luck.stat && e.luck.info && Lands(c.shared, e)
            && e.rel in c.shared && c.shared[e.rel] != File(e.content)
  {
    hide CanMake, Parents;
    var after := CopyOne(c, e).shared;
    assert forall rel <- c.shared :: rel in after && (after[rel] == c.shared[rel] || (e.Regular? && rel == e.rel));
    if e.Regular? && e.rel in c.shared {
      assert after[e.rel] != c.shared[e.rel] ==> !Untouched(c.shared, after);
    }
  }

  /** What a path that was not shared before may hold after a walk: a copy of one of its files, or a folder above one. */
  ghost predicate ComesFrom(walk: seq<Entry>, rel: string, n: Node) {
    || (exists e <- walk :: e.Regular? && e.rel == rel && n == File(e.content))
    || (n == Folder && HasBelow(walk, rel))
  }

  ghost predicate OnlyCopies(before: Shared, walk: seq<Entry>, after: Shared) {
    forall rel <- after :: rel in before || ComesFrom(walk, rel, after[rel])
  }

  lemma ComesFromMore(walk: seq<Entry>, e: Entry, rel: string, n: Node)
    requires ComesFrom(walk, rel, n)
    ensures ComesFrom(walk + [e], rel, n)
  {
    hide Above;
    if HasBelow(walk, rel) {
      var f :| f in walk && f.Regular? && Above(rel, f.rel);
      assert f in walk + [e];
    }
    if f :| f in walk && f.Regular? && f.rel == rel && n == File(f.content) {
      assert f in walk + [e];
    }
  }

  lemma OneCopyAdds(c: Copying, walk: seq<Entry>, e: Entry, rel: string)
    requires rel in CopyOne(c, e).shared && (rel in c.shared ==> CopyOne(c, e).shared[rel] != c.shared[rel])
    ensures ComesFrom(walk + [e], rel, CopyOne(c, e).shared[rel])
  {
    hide CanMake, Parents, Above;
    assert e in walk + [e];
  }

  /** Where examinations answer, nothing shared changes; and whatever answers, nothing is added but copies and the folders above them. */
  lemma {:induction false} CopyingPreserves(shared: Shared, walk: seq<Entry>)
    ensures StatsAnswer(walk) ==> Untouched(shared, CopyAll(shared, walk).shared)
    ensures OnlyCopies(shared, walk, CopyAll(shared, walk).shared)
    decreases |walk|
  {
    hide Untouched, CopyOne, ComesFrom;
    if walk == [] {
      UntouchedByItself(shared);
    } else {
      var front, e := walk[..|walk| - 1], walk[|walk| - 1];
      assert walk == front + [e];
      CopyingPreserves(shared, front);
      var before, c := CopyAll(shared, front), CopyAll(shared, walk);
      assert c == CopyOne(before, e);
      hide CopyAll;
      ACopyOverwritesExactlyWhen(before, e);
      if StatsAnswer(walk) {
        UntouchedAgain(shared, before.shared, c.shared);
      }
      forall rel <- c.shared | rel !in shared ensures ComesFrom(walk, rel, c.shared[rel]) {
        if rel in before.shared && c.shared[rel] == before.shared[rel] {
          ComesFromMore(front, e, rel, c.shared[rel]);
        } else {
          OneCopyAdds(before, front, e, rel);
        }
      }
    }
  }

  /** With no failure every file not shared before is shared now, as it is here. */
  lemma {:induction false} CopyingCompletes(shared: Shared, walk: seq<Entry>, e: Entry)
    requires StatsAnswer(walk) && CopyAll(shared, walk).failed == 0 && e in walk && e.Regular?
    ensures var c := CopyAll(shared, walk).shared;
            e.rel in c && (TreeShaped(walk) && e.rel !in shared ==> c[e.rel] == File(e.content))
    decreases |walk|
  {
    hide Above, CanMake, Parents;
    var front, last := walk[..|walk| - 1], walk[|walk| - 1];
    assert walk == front + [last];
    var before := CopyAll(shared, front);
    assert CopyAll(shared, walk) == CopyOne(before, last);
    hide CopyAll;
    CopyingPreserves(shared, front);
    ACopyOverwritesExactlyWhen(before, last);
    if e in front {
      CopyingCompletes(shared, front, e);
    } else if TreeShaped(walk) && e.rel !in shared && e.rel in before.shared {
      NotCopiedBefore(walk, e.rel, before.shared[e.rel]);
    }
  }

  lemma NotCopiedBefore(walk: seq<Entry>, rel: string, n: Node)
    requires TreeShaped(walk) && walk != [] && walk[|walk| - 1].Regular? && rel == walk[|walk| - 1].rel
    ensures !ComesFrom(walk[..|walk| - 1], rel, n)
  {
    hide Above;
    var front := walk[..|walk| - 1];
    forall f <- front | f.Regular? ensures f.rel != rel && !Above(rel, f.rel) {
      var i :| 0 <= i < |front| && front[i] == f;
      assert walk[i] == f;
    }
  }

  ghost predicate Answering(homes: map<string, Home>) {
    forall dir <- homes :: homes[dir].projects.Tree? ==> StatsAnswer(homes[dir].projects.walk) && TreeShaped(homes[dir].projects.walk)
  }

  /** Something stands in the shared tree at every one of an account's files' paths. */
  predicate AllPresent(p: Projects, shared: Shared) {
    forall e <- FilesOf(p) :: e.Regular? && e.rel in shared
  }

  /** A shared file, at least as long, stands at each. */
  predicate AllDuplicated(p: Projects, shared: Shared) {
    forall e <- FilesOf(p) :: e.Regular? && Duplicated(shared, e)
  }

  /** Every one already shared is shared in full. */
  predicate SharedInFull(p: Projects, shared: Shared) {
    forall e <- FilesOf(p) :: e.Regular? && (e.rel in shared ==> Duplicated(shared, e))
  }

  /**
    One account's copying that nothing failed in: something stands at every file's path,
    and every file is duplicated exactly when those already shared were shared in full.
   */
  lemma OneCopying(shared: Shared, p: Projects)
    requires p.Tree? ==> StatsAnswer(p.walk) && TreeShaped(p.walk)
    ensures var c := CopyingOf(shared, p);
            && Untouched(shared, c.shared)
            && (c.failed == 0 ==> AllPresent(p, c.shared) && (AllDuplicated(p, c.shared) <==> SharedInFull(p, shared)))
  {
    hide FilesOf, CopyAll, StatsAnswer, TreeShaped;
    UntouchedByItself(shared);
    if p.Tree? {
      CopyingPreserves(shared, p.walk);
    }
    var c := CopyingOf(shared, p);
    if c.failed == 0 {
      forall e <- FilesOf(p)
        ensures e.Regular? && e.rel in c.shared
        ensures Duplicated(c.shared, e) <==> (e.rel in shared ==> Duplicated(shared, e))
      {
        FilesAreRegular(p, e);
        CopyingCompletes(shared, p.walk, e);
      }
    }
  }

  lemma PresentStays(p: Projects, a: Shared, b: Shared)
    requires AllPresent(p, a) && Untouched(a, b)
    ensures AllPresent(p, b) && (AllDuplicated(p, b) <==> AllDuplicated(p, a))
  {
    hide FilesOf;
    forall e <- FilesOf(p) ensures e.Regular? && (Duplicated(b, e) <==> Duplicated(a, e)) {
    }
  }

  /** What the shared tree was when the k-th account's turn came. */
  function AtTurn(shared: Shared, homes: map<string, Home>, list: seq<Account>, k: nat): Shared
    requires k <= |list|
  {
    MigrateAll(shared, homes, list[..k]).shared
  }

  /** The k-th account is to be moved, and is complete exactly when what was shared of it at its turn was shared in full. */
  predicate MovedWhole(shared: Shared, homes: map<string, Home>, list: seq<Account>, k: nat, after: Shared)
    requires k < |list|
  {
    && StillIsolated(list[k], homes)
    && var p := homes[list[k].configDir].projects;
       AllPresent(p, after) && (AllDuplicated(p, after) <==> SharedInFull(p, AtTurn(shared, homes, list, k)))
  }

  /**
    Over a whole run: nothing shared is overwritten; every account to be moved has
    something shared at the path of each of its files; and all of them are duplicated
    exactly when, at its turn, those already shared were shared in full.
   */
  lemma {:induction false} OnlyPresentAccountsAreMoved(shared: Shared, homes: map<string, Home>, list: seq<Account>)
    requires Answering(homes)
    ensures var m := MigrateAll(shared, homes, list);
            && Untouched(shared, m.shared)
            && forall id <- m.flips ::
                 exists k :: 0 <= k < |list| && list[k].id == id && MovedWhole(shared, homes, list, k, m.shared)
    decreases |list|
  {
    hide Untouched, AllPresent, AllDuplicated, SharedInFull, CopyingOf, FilesOf;
    if list == [] {
      UntouchedByItself(shared);
    } else {
      var n := |list| - 1;
      var front, a := list[..n], list[n];
      OnlyPresentAccountsAreMoved(shared, homes, front);
      var before, m := MigrateAll(shared, homes, front), MigrateAll(shared, homes, list);
      if StillIsolated(a, homes) {
        OneCopying(before.shared, homes[a.configDir].projects);
        UntouchedAgain(shared, before.shared, m.shared);
      }
      forall id <- m.flips
        ensures exists k :: 0 <= k < |list| && list[k].id == id && MovedWhole(shared, homes, list, k, m.shared)
      {
        if id in before.flips {
          var k :| 0 <= k < n && front[k].id == id && MovedWhole(shared, homes, front, k, before.shared);
          assert front[..k] == list[..k];
          if StillIsolated(a, homes) {
            PresentStays(homes[list[k].configDir].projects, before.shared, m.shared);
          }
          assert MovedWhole(shared, homes, list, k, m.shared);
        } else {
          assert MovedWhole(shared, homes, list, n, m.shared);
        }
      }
    }
  }

  /** The store's accounts: an identifier is one account's, and its folder never changes. */
  predicate SameFolders(list: seq<Account>, cur: seq<Account>) {
    forall a <- list, b <- cur :: a.id == b.id ==> a.configDir == b.configDir
  }

  /**
    The migration's promise: an account that changed scheme has something shared at the
    path of every regular file of its projects, all of them duplicated exactly when those
    shared before its turn were shared in full; only its scheme changed, and nothing
    shared was overwritten.
   */
  lemma AMovedAccountHasAllItsFiles(shared: Shared, homes: map<string, Home>, list: seq<Account>, cur: seq<Account>, i: nat)
    requires Answering(homes) && i < |cur| && SameFolders(list, cur)
    ensures var m := MigrateAll(shared, homes, list);
            var now := Flipped(cur, m.flips);
            && Untouched(shared, m.shared)
            && now[i] == cur[i].(credentialsOnly := now[i].credentialsOnly)
            && (cur[i].credentialsOnly ==> now[i] == cur[i])
            && (now[i] != cur[i] ==>
                  exists k :: 0 <= k < |list| && list[k].id == cur[i].id && list[k].configDir == cur[i].configDir
                              && MovedWhole(shared, homes, list, k, m.shared))
  {
    hide MovedWhole, Untouched, FilesOf, MigrateAll;
    OnlyPresentAccountsAreMoved(shared, homes, list);
    var m := MigrateAll(shared, homes, list);
    if Flipped(cur, m.flips)[i] != cur[i] {
      var k :| 0 <= k < |list| && list[k].id == cur[i].id && MovedWhole(shared, homes, list, k, m.shared);
      assert list[k] in list;
    }
  }

  /**
    Two runs can move an account that is not complete: the first copies a transcript still
    being written and counts it as failed; the second finds it there, and moves the account
    with the shorter copy.
   */
  lemma TwoRunsCanMoveAnIncompleteAccount()
    ensures var early := Regular("a", "x", Luck(true, true, 0, 0, true, false));
            var late := Regular("a", "xy", Luck(true, true, 0, 0, true, true));
            var once := CopyingOf(map[], Tree([early]));
            var twice := CopyingOf(once.shared, Tree([late]));
            once.failed == 1 && twice.failed == 0 && twice.shared == map["a" := File("x")] && !Duplicated(twice.shared, late)
  {
    var early := Regular("a", "x", Luck(true, true, 0, 0, true, false));
    var late := Regular("a", "xy", Luck(true, true, 0, 0, true, true));
    assert [early][..0] == [] && [late][..0] == [];
    assert Parents("a") == {};
    assert WithFolders(map[], "a", 0) == map[];
  }

  // ------------------------------------------------------------ which accounts are moved

  /** One entry of a walk is dealt with: skipped because its path is taken, or copied without a hitch. */
  predicate DealtWith(shared: Shared, e: Entry) {
    !e.Unreadable? && (e.Regular? ==> (e.luck.stat && e.rel in shared) || (e.luck.info && Lands(shared, e) && e.luck.steady))
  }

  /** Every entry is, each in the tree as it is by then. */
  predicate AllDealtWith(shared: Shared, p: Projects) {
    p.Tree? ==> forall i :: 0 <= i < |p.walk| ==> DealtWith(CopyAll(shared, p.walk[..i]).shared, p.walk[i])
  }

  lemma {:induction false} NothingFailsExactlyWhen(shared: Shared, walk: seq<Entry>)
    ensures CopyAll(shared, walk).failed == 0 <==> forall i :: 0 <= i < |walk| ==> DealtWith(CopyAll(shared, walk[..i]).shared, walk[i])
    decreases |walk|
  {
    hide DealtWith, CopyAll;
    if walk == [] {
      NothingCopied(shared);
    } else {
      var n := |walk| - 1;
      var front := walk[..n];
      NothingFailsExactlyWhen(shared, front);
      LastIsDealtWith(shared, walk);
      forall i | 0 <= i < n ensures front[..i] == walk[..i] && front[i] == walk[i] {
      }
    }
  }

  lemma NothingCopied(shared: Shared)
    ensures CopyAll(shared, []) == Copying(shared, 0, 0, 0)
  {
  }

  lemma LastIsDealtWith(shared: Shared, walk: seq<Entry>)
    requires walk != []
    ensures var c := CopyAll(shared, walk[..|walk| - 1]);
            CopyAll(shared, walk).failed == if DealtWith(c.shared, walk[|walk| - 1]) then c.failed else c.failed + 1
  {
    hide Lands, AfterCopy, WithFolders;
  }

  /** The k-th account is a managed one still on its own folder, whose projects could be walked and were all dealt with at its turn. */
  predicate MovesAt(shared: Shared, homes: map<string, Home>, list: seq<Account>, k: nat)
    requires k < |list|
  {
    var a := list[k];
    && !a.isDefault && a.configDir != "" && !a.credentialsOnly && a.configDir in homes
    && var p := homes[a.configDir].projects;
       !p.Link? && !p.Unstatable? && AllDealtWith(AtTurn(shared, homes, list, k), p)
  }

  /** An account is to be moved exactly when it, or another of its identifier, was one of those. */
  lemma {:induction false} AccountsAreMovedExactlyWhen(shared: Shared, homes: map<string, Home>, list: seq<Account>, id: string)
    ensures id in MigrateAll(shared, homes, list).flips <==> exists k :: 0 <= k < |list| && list[k].id == id && MovesAt(shared, homes, list, k)
    decreases |list|
  {
    if list != [] {
      var n := |list| - 1;
      var front, a := list[..n], list[n];
      AccountsAreMovedExactlyWhen(shared, homes, front, id);
      forall k | 0 <= k < n ensures front[k] == list[k] && (MovesAt(shared, homes, front, k) <==> MovesAt(shared, homes, list, k)) {
        assert front[..k] == list[..k];
      }
      LastMoves(shared, homes, list);
      hide MovesAt, MigrateAll;
      if k :| 0 <= k < n && front[k].id == id && MovesAt(shared, homes, front, k) {
        assert list[k].id == id && MovesAt(shared, homes, list, k);
      }
    }
  }

  lemma LastMoves(shared: Shared, homes: map<string, Home>, list: seq<Account>)
    requires list != []
    ensures var n := |list| - 1;
            MigrateAll(shared, homes, list).flips ==
            MigrateAll(shared, homes, list[..n]).flips + (if MovesAt(shared, homes, list, n) then {list[n].id} else {})
  {
    hide CopyAll, DealtWith;
    var n := |list| - 1;
    if StillIsolated(list[n], homes) && homes[list[n].configDir].projects.Tree? {
      NothingFailsExactlyWhen(AtTurn(shared, homes, list, n), homes[list[n].configDir].projects.walk);
    }
  }

  /**
    After the run an account is on the shared scheme exactly when it was before, or it is
    not the default one and is to be moved.
   */
  lemma SchemesChangeExactlyWhen(shared: Shared, homes: map<string, Home>, list: seq<Account>, cur: seq<Account>, i: nat)
    requires i < |cur|
    ensures var now := Flipped(cur, MigrateAll(shared, homes, list).flips);
            now[i].credentialsOnly <==>
              cur[i].credentialsOnly || (!cur[i].isDefault && exists k :: 0 <= k < |list| && list[k].id == cur[i].id && MovesAt(shared, homes, list, k))
  {
    hide MovesAt, MigrateAll;
    AccountsAreMovedExactlyWhen(shared, homes, list, cur[i].id);
  }

  function Countable(walk: seq<Entry>): nat {
    if walk == [] then 0 else Countable(walk[..|walk| - 1]) + if walk[|walk| - 1].Regular? || walk[|walk| - 1].Unreadable? then 1 else 0
  }

  /** Every file, and everything that could not be read, is counted once: as copied, as skipped or as failed. */
  lemma {:induction false} EveryEntryIsCountedOnce(shared: Shared, walk: seq<Entry>)
    ensures var c := CopyAll(shared, walk); c.copied + c.skipped + c.failed == Countable(walk)
    decreases |walk|
  {
    hide Lands, AfterCopy, WithFolders;
    if walk != [] {
      EveryEntryIsCountedOnce(shared, walk[..|walk| - 1]);
    }
  }
}
