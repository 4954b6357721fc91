/**
  Reclaiming accounts' own folders (internal/accounts/prune.go): a transcript is deleted
  only after the shared tree holds one at least as long at its path.
 */
module Pruning {
  import opened Transcripts

  datatype Account = Account(id: string, isDefault: bool, configDir: string, credentialsOnly: bool)

  /** An account's folder: what stands in it, and what a removal that fails would leave of projects. */
  datatype Home = Home(names: seq<string>, projects: Projects, stuck: set<string>, left: seq<Entry>)
  {
    predicate Valid() {
      projects.Tree? ==> forall e <- left :: e in projects.walk
    }
  }

  const PROJECTS := "projects"

  predicate Removable(name: string) {
    name in {PROJECTS, "shell-snapshots", "telemetry", "statsig", "mcp-needs-auth-cache.json", ".last-cleanup"}
  }

  /** The shared tree and every account's folder that can be read. */
  datatype State = State(shared: Shared, homes: map<string, Home>)

  datatype Report = Report(id: string, removed: seq<string>, shared: nat, failed: bool)

  // ------------------------------------------------------------ sharing

  datatype Sharing = Sharing(shared: Shared, needed: nat, failed: nat)

  function ShareOne(s: Sharing, e: Entry, apply: bool): Sharing {
    match e
    case Unreadable => s.(failed := s.failed + 1)
    case Subfolder => s
    case Special => s
    case Regular(rel, content, luck) =>
      if !luck.info then s.(failed := s.failed + 1)
      else if Passes(s.shared, e) then s
      else if !apply then s.(needed := s.needed + 1)
      else Sharing(AfterCopy(s.shared, e), s.needed + 1, if Lands(s.shared, e) then s.failed else s.failed + 1)
  }

  function ShareAll(shared: Shared, walk: seq<Entry>, apply: bool): Sharing {
    if walk == [] then Sharing(shared, 0, 0)
    else ShareOne(ShareAll(shared, walk[..|walk| - 1], apply), walk[|walk| - 1], apply)
  }

  /** What sharing an account's projects comes to; a linked or unreadable one is refused. */
  function SharingOf(shared: Shared, p: Projects, apply: bool): Sharing {
    if p.Tree? then ShareAll(shared, p.walk, apply) else Sharing(shared, 0, 0)
  }

  predicate Refused(p: Projects) {
    p.Link? || p.Unstatable?
  }

  // ------------------------------------------------------------ removing

  function Without(names: seq<string>, name: string): (r: seq<string>)
    ensures forall n :: n in r <==> n in names && n != name
  {
    if names == [] then []
    else
      assert names == [names[0]] + names[1..];
      (if names[0] == name then [] else [names[0]]) + Without(names[1..], name)
  }

  function RemoveOne(h: Home, name: string): Home {
    if name in h.stuck then (if name == PROJECTS && h.projects.Tree? then h.(projects := Tree(h.left)) else h)
    else h.(names := Without(h.names, name), projects := if name == PROJECTS then Missing else h.projects)
  }

  datatype Removing = Removing(home: Home, removed: seq<string>, failed: bool)

  function RemoveNext(r: Removing, name: string, dryRun: bool): Removing {
    if r.failed || !Removable(name) then r
    else if dryRun then r.(removed := r.removed + [name])
    else Removing(RemoveOne(r.home, name), r.removed + [name], name in r.home.stuck)
  }

  function RemoveAll(h: Home, names: seq<string>, dryRun: bool): Removing {
    if names == [] then Removing(h, [], false)
    else RemoveNext(RemoveAll(h, names[..|names| - 1], dryRun), names[|names| - 1], dryRun)
  }

  // ------------------------------------------------------------ the run

  predicate Considered(a: Account, ids: set<string>) {
    !a.isDefault && a.configDir != "" && a.credentialsOnly && (ids == {} || a.id in ids)
  }

  datatype Step = Step(state: State, report: Report)

  function PruneOne(d: State, a: Account, dryRun: bool): Step {
    if a.configDir !in d.homes then Step(d, Report(a.id, [], 0, true))
    else
      var h := d.homes[a.configDir];
      var s := SharingOf(d.shared, h.projects, !dryRun);
      if Refused(h.projects) || s.failed > 0 then
        Step(d.(shared := s.shared), Report(a.id, [], s.needed, true))
      else
        var r := RemoveAll(h, h.names, dryRun);
        Step(State(s.shared, d.homes[a.configDir := r.home]), Report(a.id, r.removed, s.needed, r.failed))
  }

  datatype Run = Run(state: State, reports: seq<Report>)

  function PruneAll(d: State, list: seq<Account>, ids: set<string>, dryRun: bool): Run {
    if list == [] then Run(d, [])
    else
      var before := PruneAll(d, list[..|list| - 1], ids, dryRun);
      var a := list[|list| - 1];
      if !Considered(a, ids) then before
      else
        var s := PruneOne(before.state, a, dryRun);
        Run(s.state, before.reports + [s.report])
  }

  /** The disk the manager works on. */
  class Disk {
    var shared: Shared
    var homes: map<string, Home>

    ghost function Held(): State
      reads this
    {
      State(shared, homes)
    }

    constructor (shared: Shared, homes: map<string, Home>)
      ensures this.shared == shared && this.homes == homes
    {
      this.shared, this.homes := shared, homes;
    }

    method ShareProjects(p: Projects, apply: bool) returns (needed: nat, failed: nat, refused: bool)
      modifies this`shared
      ensures Sharing(shared, needed, failed) == SharingOf(old(shared), p, apply)
      ensures refused == Refused(p)
    {
      needed, failed, refused := 0, 0, false;
      if p.Link? || p.Unstatable? {
        refused := true;
        return;
      }
      if p.Missing? || p.NotAFolder? {
        return;
      }
      var i := 0;
      while i < |p.walk|
        invariant 0 <= i <= |p.walk|
        invariant Sharing(shared, needed, failed) == ShareAll(old(shared), p.walk[..i], apply)
      {
        var e := p.walk[i];
        assert p.walk[..i + 1][..i] == p.walk[..i];
        i := i + 1;
        if e.Unreadable? {
          failed := failed + 1;
        } else if e.Regular? {
          if !e.luck.info {
            failed := failed + 1;
            continue;
          }
          if Passes(shared, e) {
            continue;
          }
          needed := needed + 1;
          if !apply {
            continue;
          }
          ghost var before := shared;
          var made := CanMake(shared, e.rel, e.luck.reach);
          shared := WithFolders(shared, e.rel, e.luck.reach);
          if !made {
            failed := failed + 1;
            continue;
          }
          if !e.luck.copy || IsFolder(shared, e.rel) {
            failed := failed + 1;
            continue;
          }
          shared := shared[e.rel := File(e.content)];
        }
      }
      assert p.walk[..|p.walk|] == p.walk;
    }

    method RemoveEntries(dir: string, dryRun: bool) returns (removed: seq<string>, failed: bool)
      requires dir in homes
      modifies this`homes
      ensures var r := RemoveAll(old(homes)[dir], old(homes)[dir].names, dryRun);
              homes == old(homes)[dir := r.home] && removed == r.removed && failed == r.failed
    {
      removed, failed := [], false;
      var names := homes[dir].names;
      var i := 0;
      assert homes == homes[dir := homes[dir]];
      while i < |names| && !failed
        invariant 0 <= i <= |names| && dir in homes && homes == old(homes)[dir := homes[dir]]
        invariant Removing(homes[dir], removed, failed) == RemoveAll(old(homes)[dir], names[..i], dryRun)
      {
        assert names[..i + 1][..i] == names[..i];
        if Removable(names[i]) {
          removed := removed + [names[i]];
          if !dryRun {
            failed := names[i] in homes[dir].stuck;
            homes := homes[dir := RemoveOne(homes[dir], names[i])];
          }
        }
        i := i + 1;
      }
      AFailureStops(old(homes)[dir], names, i, dryRun);
    }

    method Prune(list: seq<Account>, ids: set<string>, dryRun: bool) returns (reports: seq<Report>)
      modifies this
      ensures Run(Held(), reports) == PruneAll(old(Held()), list, ids, dryRun)
    {
      reports := [];
      var i := 0;
      while i < |list|
        invariant 0 <= i <= |list|
        invariant Run(Held(), reports) == PruneAll(old(Held()), list[..i], ids, dryRun)
      {
        hide ShareAll, RemoveAll;
        var a := list[i];
        assert list[..i + 1][..i] == list[..i];
        i := i + 1;
        if a.isDefault || a.configDir == "" || !a.credentialsOnly {
          continue;
        }
        if ids != {} && a.id !in ids {
          continue;
        }
        if a.configDir !in homes {
          reports := reports + [Report(a.id, [], 0, true)];
          continue;
        }
        var needed, failed, refused := ShareProjects(homes[a.configDir].projects, !dryRun);
        if refused || failed > 0 {
          reports := reports + [Report(a.id, [], needed, true)];
          continue;
        }
        var removed, stopped := RemoveEntries(a.configDir, dryRun);
        reports := reports + [Report(a.id, removed, needed, stopped)];
      }
      assert list[..|list|] == list;
    }
  }

  lemma {:induction false} AFailureStops(h: Home, names: seq<string>, i: nat, dryRun: bool)
    requires i <= |names| && (i == |names| || RemoveAll(h, names[..i], dryRun).failed)
    ensures RemoveAll(h, names, dryRun) == RemoveAll(h, names[..i], dryRun)
    decreases |names| - i
  {
    if i < |names| {
      assert names[..i + 1][..i] == names[..i];
      AFailureStops(h, names, i + 1, dryRun);
    } else {
      assert names[..i] == names;
    }
  }
}
