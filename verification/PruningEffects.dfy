/** What a prune does, and when, said by what each account and each entry is. */
module PruningEffects {
  import opened Transcripts
  import opened Pruning
  import opened PruningSafety

  // ------------------------------------------------------------ sharing

  /** An entry is no obstacle: it can be examined and, on a real run, stands in the shared tree or gets there. */
  predicate Shareable(shared: Shared, e: Entry, apply: bool) {
    !e.Unreadable? && (e.Regular? ==> e.luck.info && (!apply || Passes(shared, e) || Lands(shared, e)))
  }

  /** Every entry is, each in the tree as it is by then. */
  predicate AllShareable(shared: Shared, p: Projects, apply: bool) {
    p.Tree? ==> forall i :: 0 <= i < |p.walk| ==> Shareable(ShareAll(shared, p.walk[..i], apply).shared, p.walk[i], apply)
  }

  lemma {:induction false} SharingFailsExactlyWhen(shared: Shared, walk: seq<Entry>, apply: bool)
    ensures ShareAll(shared, walk, apply).failed == 0 <==>
            forall i :: 0 <= i < |walk| ==> Shareable(ShareAll(shared, walk[..i], apply).shared, walk[i], apply)
    decreases |walk|
  {
    hide Shareable;
    if walk != [] {
      var n := |walk| - 1;
      var front := walk[..n];
      SharingFailsExactlyWhen(shared, front, apply);
      OneIsShared(ShareAll(shared, front, apply), walk[n], apply);
      assert ShareAll(shared, walk, apply) == ShareOne(ShareAll(shared, front, apply), walk[n], apply);
      hide ShareAll, ShareOne;
      forall i | 0 <= i < n ensures front[..i] == walk[..i] && front[i] == walk[i] {
      }
    }
  }

  lemma OneIsShared(s: Sharing, e: Entry, apply: bool)
    ensures ShareOne(s, e, apply).failed == if Shareable(s.shared, e, apply) then s.failed else s.failed + 1
    ensures ShareOne(s, e, apply).needed == s.needed <==> (e.Regular? && e.luck.info ==> Passes(s.shared, e))
    ensures s.needed <= ShareOne(s, e, apply).needed
    ensures ShareOne(s, e, apply).needed == s.needed ==> ShareOne(s, e, apply).shared == s.shared
  {
    hide Lands, AfterCopy, Passes;
  }

  /** Nothing needs to be copied exactly when every file that can be examined has one as long in the shared tree. */
  lemma {:induction false} NothingIsNeededExactlyWhen(shared: Shared, walk: seq<Entry>, apply: bool)
    ensures var s := ShareAll(shared, walk, apply);
            && (s.needed == 0 <==> forall e <- walk :: e.Regular? && e.luck.info ==> Passes(shared, e))
            && (s.needed == 0 ==> s.shared == shared)
    decreases |walk|
  {
    if walk != [] {
      var front, e := walk[..|walk| - 1], walk[|walk| - 1];
      assert walk == front + [e];
      NothingIsNeededExactlyWhen(shared, front, apply);
      OneIsShared(ShareAll(shared, front, apply), e, apply);
      hide Passes, ShareOne;
    }
  }

  // ------------------------------------------------------------ removing

  /** The projects folder and the caches that are rebuilt by themselves; not the sign-in, the identity or the history. */
  lemma TheListIs(name: string)
    ensures Removable(name) <==>
            || name == "projects" || name == "shell-snapshots" || name == "telemetry" || name == "statsig"
            || name == "mcp-needs-auth-cache.json" || name == ".last-cleanup"
    ensures !Removable(".credentials.json") && !Removable(".claude.json") && !Removable("history.jsonl") && !Removable("CLAUDE.md")
  {
  }

  /** A removal stops at the first listed name that cannot be removed; everything else listed up to it is gone, and only that. */
  lemma {:induction false} RemovesExactly(h: Home, names: seq<string>, dryRun: bool)
    ensures var r := RemoveAll(h, names, dryRun);
            && (r.failed <==> !dryRun && exists n <- names :: Removable(n) && n in h.stuck)
            && (forall n <- r.removed :: n in names && Removable(n))
            && (!r.failed ==> forall n <- names :: Removable(n) ==> n in r.removed)
            && (forall n :: n in r.home.names <==> n in h.names && (dryRun || n in h.stuck || n !in r.removed))
            && r.home.stuck == h.stuck && r.home.left == h.left
            && (r.home.projects == if dryRun || PROJECTS !in r.removed then h.projects
                                   else if PROJECTS !in h.stuck then Missing
                                   else if h.projects.Tree? then Tree(h.left) else h.projects)
    decreases |names|
  {
    hide Removable;
    if names != [] {
      var front, last := names[..|names| - 1], names[|names| - 1];
      assert names == front + [last];
      RemovesExactly(h, front, dryRun);
    }
  }

  // ------------------------------------------------------------ accounts

  /** The folder of an account that is the default one, isolated, without a folder or not asked for is as it was after any run. */
  lemma {:induction false} OnlyAskedAccountsAreTouched(d: State, list: seq<Account>, ids: set<string>, dryRun: bool, dir: string)
    requires dir in d.homes
    requires forall a <- list :: a.configDir == dir ==>
               a.isDefault || dir == "" || !a.credentialsOnly || (ids != {} && a.id !in ids)
    ensures var d' := PruneAll(d, list, ids, dryRun).state; dir in d'.homes && d'.homes[dir] == d.homes[dir]
  {
    OtherAccountsStay(d, list, ids, dryRun, dir);
  }

  /** There is a report for exactly the managed accounts on the shared scheme that are asked for. */
  lemma {:induction false} AReportIsMadeExactlyWhen(d: State, list: seq<Account>, ids: set<string>, dryRun: bool, id: string)
    ensures (exists r <- PruneAll(d, list, ids, dryRun).reports :: r.id == id) <==>
            exists a <- list :: a.id == id && !a.isDefault && a.configDir != "" && a.credentialsOnly && (ids == {} || id in ids)
    decreases |list|
  {
    if list != [] {
      var front, a := list[..|list| - 1], list[|list| - 1];
      assert list == front + [a];
      AReportIsMadeExactlyWhen(d, front, ids, dryRun, id);
      var before := PruneAll(d, front, ids, dryRun);
      TheReportIsItsOwn(before.state, a, dryRun);
      var now := PruneAll(d, list, ids, dryRun).reports;
      assert now == if Considered(a, ids) then before.reports + [PruneOne(before.state, a, dryRun).report] else before.reports;
      hide PruneAll, PruneOne;
    }
  }

  lemma TheReportIsItsOwn(d: State, a: Account, dryRun: bool)
    ensures PruneOne(d, a, dryRun).report.id == a.id
  {
  }

  /**
    At its turn an account's folder loses exactly its listed names, transcripts and all,
    if it is one to prune whose projects could be walked and shared in full; and is left
    as it was if not.
   */
  lemma AnAccountIsReclaimedExactlyWhen(d: State, list: seq<Account>, ids: set<string>, k: nat)
    requires k < |list|
    requires var mid := PruneAll(d, list[..k], ids, false).state;
             list[k].configDir in mid.homes && forall n <- mid.homes[list[k].configDir].names :: Removable(n) ==> n !in mid.homes[list[k].configDir].stuck
    ensures var mid, dir := PruneAll(d, list[..k], ids, false).state, list[k].configDir;
            var h := mid.homes[dir];
            var a := list[k];
            var reclaims := && !a.isDefault && a.configDir != "" && a.credentialsOnly && (ids == {} || a.id in ids)
                            && !h.projects.Link? && !h.projects.Unstatable? && AllShareable(mid.shared, h.projects, true);
            var after := PruneAll(d, list[..k + 1], ids, false).state;
            && dir in after.homes
            && (reclaims ==> forall n :: n in after.homes[dir].names <==> n in h.names && !Removable(n))
            && (reclaims && PROJECTS in h.names ==> after.homes[dir].projects == Missing)
            && (!reclaims ==> after.homes[dir] == h)
  {
    hide ShareAll, RemoveAll, Removable, Shareable;
    var mid := PruneAll(d, list[..k], ids, false).state;
    var h := mid.homes[list[k].configDir];
    assert list[..k + 1][..k] == list[..k];
    RemovesExactly(h, h.names, false);
    TheListIs(PROJECTS);
    if h.projects.Tree? {
      SharingFailsExactlyWhen(mid.shared, h.projects.walk, true);
    }
  }

  /** A dry run names what the real one removes, and counts what it copies, where nothing stands in the way. */
  lemma ADryRunForetellsTheRest(d: State, a: Account)
    requires a.configDir in d.homes
    requires var h := d.homes[a.configDir]; (h.projects.Tree? ==> TreeShaped(h.projects.walk)) && forall n <- h.names :: Removable(n) ==> n !in h.stuck
    ensures var dry, done := PruneOne(d, a, true).report, PruneOne(d, a, false).report;
            && dry.shared == done.shared
            && (!done.failed ==> !dry.failed && forall n :: n in dry.removed <==> n in done.removed)
  {
    hide ShareAll, RemoveAll, Removable, TreeShaped;
    var h := d.homes[a.configDir];
    if h.projects.Tree? {
      ADryRunForetellsTheCopies(d.shared, h.projects.walk);
    }
    RemovesExactly(h, h.names, true);
    RemovesExactly(h, h.names, false);
  }
}
