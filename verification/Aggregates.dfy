/** Saving an aggregate: the root etag is the version of the whole cluster
    (persistence/memory_aggregate.go:92-187, persistence/memory.go:176-199). */
module Aggregates {
  import opened Runs
  import opened MemoryRepo

  /** A caller's copy of an aggregate; `etag` is the version it was loaded at, possibly "". */
  datatype Root = Root(id: string, etag: string, body: string, members: string)

  datatype Cluster = Cluster(repo: Repo, members: map<string, string>)

  datatype SaveResult = Saved(changed: bool) | Invalid | Stale | MembersFailed | NoRoot

  /** What the member closure does: apply the incoming members, or fail after writing `partial`. */
  datatype MemberSave = Applies | Fails(partial: string)

  function StoredEtag(st: Cluster, id: string): string { if id in st.repo.etags then st.repo.etags[id] else "" }

  function MembersOf(st: Cluster, id: string): string { if id in st.members then st.members[id] else "" }

  predicate Conflicts(versioned: bool, st: Cluster, root: Root) {
    versioned && root.etag != "" && StoredEtag(st, root.id) != "" && root.etag != StoredEtag(st, root.id)
  }

  /** The specification of Save: what it answers and the cluster it leaves. */
  function SaveOutcome(versioned: bool, st: Cluster, root: Root, valid: bool, ms: MemberSave, bump: string): (SaveResult, Cluster) {
    if !valid then (Invalid, st)
    else if Conflicts(versioned, st, root) then (Stale, st)
    else if ms.Fails? then (MembersFailed, st)
    else if MembersOf(st, root.id) == root.members then (Saved(false), st)
    else if root.id !in st.repo.items then (NoRoot, st)
    else (Saved(true), Cluster(After(st.repo, Modify(root.id, Entity(root.id, root.body), "", bump)),
                               st.members[root.id := root.members]))
  }

  /** A Save changes nothing unless it answers `Saved(true)`; then exactly that aggregate has the
      caller's members under the fresh version, and every other one is as before. */
  lemma SaveFrame(versioned: bool, st: Cluster, root: Root, valid: bool, ms: MemberSave, bump: string, other: string)
    ensures var (r, st') := SaveOutcome(versioned, st, root, valid, ms, bump);
            if r == Saved(true) then
              && StoredEtag(st', root.id) == bump && MembersOf(st', root.id) == root.members
              && st'.repo.items == st.repo.items[root.id := Entity(root.id, root.body)]
              && st'.repo.items.Keys == st.repo.items.Keys && st'.repo.deleted == st.repo.deleted
              && (other != root.id ==> StoredEtag(st', other) == StoredEtag(st, other) && MembersOf(st', other) == MembersOf(st, other))
            else st' == st
  {}

  /** `versioned` says that the spec extracts an etag from a root (EtagOf is set). */
  class AggregateRepository {
    const versioned: bool
    var repo: Repo
    var members: map<string, string>

    constructor (versioned: bool)
      ensures this.versioned == versioned && repo == EMPTY && members == map[]
    {
      this.versioned := versioned;
      repo := EMPTY;
      members := map[];
    }

    function Now(): Cluster reads this { Cluster(repo, members) }

    /** Two reads, the root row first and then the members; other sessions may save in between. */
    method Load(id: string) returns (r: Result<Root>)
      modifies this
      ensures r.Ok? <==> old(Visible(repo, id))
      ensures r.Err? ==> r.error == NotFound && Now() == old(Now())
      ensures r.Ok? ==> r.value == Root(id, StoredEtag(old(Now()), id), old(repo).items[id].body, MembersOf(Now(), id))
    {
      if id !in repo.items || id in repo.deleted { return Err(NotFound); }
      var etag, body := StoredEtag(Now(), id), repo.items[id].body;
      Others();
      return Ok(Root(id, etag, body, MembersOf(Now(), id)));
    }

    /** Saves of other sessions. */
    method Others()
      modifies this
    {
      var n: int := *;
      while n > 0
      {
        n := n - 1;
        var root: Root, valid: bool, ms: MemberSave, bump: string := *, *, *, *;
        var r := Save(root, valid, ms, bump);
      }
    }

    /** Validates, then in one transaction checks the version, writes the members and bumps the root
        etag once. Both members and root go back to the snapshot on any error. */
    method Save(root: Root, valid: bool, ms: MemberSave, bump: string) returns (r: SaveResult)
      modifies this
      ensures (r, Now()) == SaveOutcome(versioned, old(Now()), root, valid, ms, bump)
      ensures r.Invalid? <==> !valid
      ensures r.Stale? <==> && valid && versioned && root.etag != "" && root.id in old(repo).etags
                            && old(repo).etags[root.id] != "" && old(repo).etags[root.id] != root.etag
      ensures r.MembersFailed? <==> valid && !r.Stale? && ms.Fails?
      ensures r == Saved(false) <==> valid && !r.Stale? && ms.Applies? && root.members == if root.id in old(members) then old(members)[root.id] else ""
      ensures r != Saved(true) ==> repo == old(repo) && members == old(members)
      ensures r == Saved(true) ==>
                && root.id in old(repo).items && members == old(members)[root.id := root.members]
                && repo == old(repo).(items := old(repo).items[root.id := Entity(root.id, root.body)], etags := old(repo).etags[root.id := bump])
    {
      if !valid { return Invalid; }
      var snap := Now();
      r := SaveInTx(root, ms, bump);
      if !r.Saved? { repo, members := snap.repo, snap.members; }
    }

    /** The transaction's body; on an error it may leave members half written. */
    method SaveInTx(root: Root, ms: MemberSave, bump: string) returns (r: SaveResult)
      modifies this
      ensures r == SaveOutcome(versioned, old(Now()), root, true, ms, bump).0
      ensures r.Saved? ==> Now() == SaveOutcome(versioned, old(Now()), root, true, ms, bump).1
    {
      var stale := CheckPrecondition(root);
      if stale { return Stale; }
      if ms.Fails? {
        members := members[root.id := ms.partial];
        return MembersFailed;
      }
      if MembersOf(Now(), root.id) == root.members { return Saved(false); }
      members := members[root.id := root.members];
      var ifMatch := if versioned && root.etag != "" then root.etag else "";
      match Outcome(repo, Modify(root.id, Entity(root.id, root.body), ifMatch, bump)) {
        case Ok(bumped) =>
          repo := bumped;
          return Saved(true);
        case Err(error) => return if error == PreconditionFailed then Stale else NoRoot;
      }
    }

    method CheckPrecondition(root: Root) returns (stale: bool)
      ensures stale == Conflicts(versioned, Now(), root)
    {
      if !versioned { return false; }
      var stored := StoredEtag(Now(), root.id);
      return root.etag != "" && stored != "" && root.etag != stored;
    }
  }

  // ----- any number of sessions that load and save

  /** `blind` sessions save a root whose etag they left empty. */
  datatype Config = Config(versioned: bool, blind: bool)

  /** A committed member-changing Save: the version and members its session had loaded, those it
      replaced, and those it produced. */
  datatype Commit = Commit(loaded: string, base: string, over: string, replaced: string, produced: string, members: string)

  /** A session's copy; `whole` once its members have been read too. */
  datatype Session = Session(root: Root, whole: bool)

  datatype System = System(st: Cluster, sessions: map<nat, Session>, used: set<string>, log: map<string, seq<Commit>>)

  datatype Event =
    | Found(id: string, body: string, members: string, etag: string) // a new aggregate
    | ReadRoot(c: nat, id: string)
    | ReadMembers(c: nat)
    | Write(c: nat, body: string, members: string, ms: MemberSave, etag: string, blind: bool)

  function LogOf(s: System, id: string): seq<Commit> { if id in s.log then s.log[id] else [] }

  function Apply(cfg: Config, s: System, e: Event): System {
    match e
    case Found(id, body, members, etag) =>
      if id in s.st.repo.items || etag == "" || etag in s.used then s
      else s.(st := Cluster(After(s.st.repo, Create(Entity(id, body), etag)), s.st.members[id := members]), used := s.used + {etag})
    case ReadRoot(c, id) =>
      if id !in s.st.repo.items then s
      else s.(sessions := s.sessions[c := Session(Root(id, StoredEtag(s.st, id), s.st.repo.items[id].body, ""), false)])
    case ReadMembers(c) =>
      if c !in s.sessions || s.sessions[c].whole then s
      else
        var root := s.sessions[c].root;
        s.(sessions := s.sessions[c := Session(root.(members := MembersOf(s.st, root.id)), true)])
    case Write(c, body, members, ms, etag, blind) =>
      if c !in s.sessions || !s.sessions[c].whole || etag == "" || etag in s.used then s
      else
        var was := s.sessions[c].root;
        var root := Root(was.id, if cfg.blind && blind then "" else was.etag, body, members);
        var (r, st') := SaveOutcome(cfg.versioned, s.st, root, true, ms, etag);
        if r != Saved(true) then s
        else
          var entry := Commit(was.etag, was.members, StoredEtag(s.st, was.id), MembersOf(s.st, was.id), etag, members);
          s.(st := st', used := s.used + {etag}, log := s.log[was.id := LogOf(s, was.id) + [entry]])
  }

  function Stepper(cfg: Config): (System, Event) -> System { (s: System, e: Event) => Apply(cfg, s, e) }

  function Run(cfg: Config, s: System, es: seq<Event>): System { Fold(Stepper(cfg), s, es) }

  const INIT := System(Cluster(EMPTY, map[]), map[], {}, map[])

  /** Each commit was computed from exactly the version and the members it replaced, and follows the
      commit before it. */
  ghost predicate Chained(log: seq<Commit>) {
    && (forall i :: 0 <= i < |log| ==> log[i].loaded == log[i].over && log[i].base == log[i].replaced)
    && (forall i :: 0 < i < |log| ==> log[i].over == log[i - 1].produced && log[i].replaced == log[i - 1].members)
  }

  /** At most one committed change per loaded version. */
  ghost predicate OncePerVersion(log: seq<Commit>) {
    forall i, j :: 0 <= i < j < |log| ==> log[i].loaded != log[j].loaded
  }

  ghost predicate NoLostUpdate(s: System) {
    forall id :: Chained(LogOf(s, id)) && OncePerVersion(LogOf(s, id))
  }

  /** The log of one aggregate against its stored version. */
  ghost predicate Tip(log: seq<Commit>, etag: string, members: string, used: set<string>) {
    && Chained(log) && OncePerVersion(log)
    && (forall i :: 0 <= i < |log| ==> log[i].loaded in used && log[i].loaded != etag)
    && (log != [] ==> log[|log| - 1].produced == etag && log[|log| - 1].members == members)
  }

  /** A session that is still at the stored version holds the stored members: a load torn by another
      session's commit carries the version from before it. */
  ghost predicate Current(s: System, x: Session) {
    && x.root.id in s.st.repo.items && x.root.etag != "" && x.root.etag in s.used
    && (x.whole && StoredEtag(s.st, x.root.id) == x.root.etag ==> MembersOf(s.st, x.root.id) == x.root.members)
  }

  ghost predicate Inv(s: System) {
    && s.st.repo.etags.Keys == s.st.repo.items.Keys
    && (forall id :: id in s.st.repo.etags ==> s.st.repo.etags[id] != "" && s.st.repo.etags[id] in s.used)
    && (forall c :: c in s.sessions ==> Current(s, s.sessions[c]))
    && (forall id :: Tip(LogOf(s, id), StoredEtag(s.st, id), MembersOf(s.st, id), s.used))
    && (forall id :: id in s.log ==> id in s.st.repo.items)
  }

  lemma TipExtends(log: seq<Commit>, etag: string, members: string, used: set<string>, c: Commit)
    requires Tip(log, etag, members, used) && etag in used
    requires c.loaded == c.over == etag && c.base == c.replaced == members && c.produced !in used
    ensures Tip(log + [c], c.produced, c.members, used + {c.produced})
  {}

  lemma TipGrows(log: seq<Commit>, etag: string, members: string, used: set<string>, more: string)
    requires Tip(log, etag, members, used)
    ensures Tip(log, etag, members, used + {more})
  {}

  /** `s'` is `s` after session `was` committed `members` under the new version `etag`. */
  ghost predicate Committed(s: System, s': System, was: Root, etag: string, members: string) {
    && etag != "" && etag !in s.used && s'.used == s.used + {etag} && s'.sessions == s.sessions
    && was.id in s.st.repo.items && s'.st.repo.items.Keys == s.st.repo.items.Keys
    && s'.st.repo.etags == s.st.repo.etags[was.id := etag] && s'.st.members == s.st.members[was.id := members]
    && s'.log == s.log[was.id := LogOf(s, was.id) +
                [Commit(was.etag, was.members, StoredEtag(s.st, was.id), MembersOf(s.st, was.id), etag, members)]]
  }

  lemma WriteCommits(cfg: Config, s: System, e: Event)
    requires cfg.versioned && !cfg.blind && Inv(s) && e.Write? && Apply(cfg, s, e) != s
    ensures e.c in s.sessions && s.sessions[e.c].whole && Current(s, s.sessions[e.c])
    ensures StoredEtag(s.st, s.sessions[e.c].root.id) == s.sessions[e.c].root.etag
    ensures Committed(s, Apply(cfg, s, e), s.sessions[e.c].root, e.etag, e.members)
  {
    assert Current(s, s.sessions[e.c]);
  }

  lemma CommittedKeeps(s: System, s': System, was: Root, etag: string, members: string)
    requires Inv(s) && Current(s, Session(was, true)) && StoredEtag(s.st, was.id) == was.etag && Committed(s, s', was, etag, members)
    ensures Inv(s')
  {
    var entry := Commit(was.etag, was.members, StoredEtag(s.st, was.id), MembersOf(s.st, was.id), etag, members);
    TipExtends(LogOf(s, was.id), StoredEtag(s.st, was.id), MembersOf(s.st, was.id), s.used, entry);
    forall id ensures Tip(LogOf(s', id), StoredEtag(s'.st, id), MembersOf(s'.st, id), s'.used) {
      if id != was.id { TipGrows(LogOf(s, id), StoredEtag(s.st, id), MembersOf(s.st, id), s.used, etag); }
    }
    SessionsKept(s, s', was.id);
  }

  lemma WriteKeeps(cfg: Config, s: System, e: Event)
    requires cfg.versioned && !cfg.blind && Inv(s) && e.Write?
    ensures Inv(Apply(cfg, s, e))
  {
    if Apply(cfg, s, e) != s {
      WriteCommits(cfg, s, e);
      CommittedKeeps(s, Apply(cfg, s, e), s.sessions[e.c].root, e.etag, e.members);
    }
  }

  /** A version nobody has loaded leaves every session either current elsewhere or stale. */
  lemma SessionsKept(s: System, s': System, id: string)
    requires forall c :: c in s.sessions ==> Current(s, s.sessions[c])
    requires s'.sessions == s.sessions && s.used <= s'.used && s.st.repo.items.Keys <= s'.st.repo.items.Keys
    requires StoredEtag(s'.st, id) !in s.used
    requires forall other :: other != id ==> StoredEtag(s'.st, other) == StoredEtag(s.st, other) && MembersOf(s'.st, other) == MembersOf(s.st, other)
    ensures forall c :: c in s'.sessions ==> Current(s', s'.sessions[c])
  {
    forall c | c in s'.sessions ensures Current(s', s'.sessions[c]) { assert Current(s, s.sessions[c]); }
  }

  lemma FoundKeeps(cfg: Config, s: System, e: Event)
    requires Inv(s) && e.Found?
    ensures Inv(Apply(cfg, s, e))
  {
    var s' := Apply(cfg, s, e);
    if s' != s {
      forall id ensures Tip(LogOf(s', id), StoredEtag(s'.st, id), MembersOf(s'.st, id), s'.used) {
        assert Tip(LogOf(s, id), StoredEtag(s.st, id), MembersOf(s.st, id), s.used);
      }
      SessionsKept(s, s', e.id);
    }
  }

  lemma {:induction false} RunKeeps(cfg: Config, s: System, es: seq<Event>)
    requires cfg.versioned && !cfg.blind && Inv(s)
    ensures Inv(Run(cfg, s, es))
    decreases |es|
  {
    if es != [] {
      match es[0] {
        case Found(_, _, _, _) => FoundKeeps(cfg, s, es[0]);
        case ReadRoot(_, _) =>
        case ReadMembers(_) =>
        case Write(_, _, _, _, _, _) => WriteKeeps(cfg, s, es[0]);
      }
      RunKeeps(cfg, Apply(cfg, s, es[0]), es[1..]);
    }
  }

  /** A Save goes through when the versions agree, are not compared, or none is given. */
  lemma SaveGoesThrough(cfg: Config, s: System, e: Event)
    requires e.Write? && e.c in s.sessions && s.sessions[e.c].whole && e.ms.Applies?
    requires s.sessions[e.c].root.id in s.st.repo.items
    requires e.etag != "" && e.etag !in s.used && MembersOf(s.st, s.sessions[e.c].root.id) != e.members
    requires StoredEtag(s.st, s.sessions[e.c].root.id) == s.sessions[e.c].root.etag || !cfg.versioned || (cfg.blind && e.blind)
    ensures Committed(s, Apply(cfg, s, e), s.sessions[e.c].root, e.etag, e.members)
  {}

  /** Two sessions have loaded the only aggregate. */
  lemma LoadedTwice(cfg: Config, id: string, members: string, etag: string) returns (es: seq<Event>)
    requires etag != ""
    ensures var s := Run(cfg, INIT, es);
            && s.sessions == map[1 := Session(Root(id, etag, "", members), true), 2 := Session(Root(id, etag, "", members), true)]
            && s.used == {etag} && s.log == map[]
            && id in s.st.repo.items && StoredEtag(s.st, id) == etag && MembersOf(s.st, id) == members
  {
    var e1, e2, e3, e4, e5 := Found(id, "", members, etag), ReadRoot(1, id), ReadMembers(1), ReadRoot(2, id), ReadMembers(2);
    FoldSnoc(Stepper(cfg), INIT, [], e1);
    FoldSnoc(Stepper(cfg), INIT, [] + [e1], e2);
    FoldSnoc(Stepper(cfg), INIT, [] + [e1] + [e2], e3);
    FoldSnoc(Stepper(cfg), INIT, [] + [e1] + [e2] + [e3], e4);
    es := [] + [e1] + [e2] + [e3] + [e4] + [e5];
    FoldSnoc(Stepper(cfg), INIT, [] + [e1] + [e2] + [e3] + [e4], e5);
    var s1 := Apply(cfg, INIT, e1);
    var copy := Root(id, etag, "", members);
    assert Apply(cfg, Apply(cfg, s1, e2), e3) == s1.(sessions := map[1 := Session(copy, true)]);
  }

  /** Two sessions load one version and both save: the second overwrites the first one's change
      without having seen it. */
  lemma UpdateLost(cfg: Config, id: string, v: (string, string, string), m: (string, string, string)) returns (es: seq<Event>)
    requires !cfg.versioned || cfg.blind
    requires v.0 != "" && v.1 != "" && v.2 != "" && v.0 != v.1 && v.0 != v.2 && v.1 != v.2 && m.0 != m.1 && m.1 != m.2
    ensures !NoLostUpdate(Run(cfg, INIT, es))
  {
    var loaded := LoadedTwice(cfg, id, m.0, v.0);
    var e3, e4 := Write(1, "", m.1, Applies, v.1, false), Write(2, "", m.2, Applies, v.2, true);
    var s2 := Run(cfg, INIT, loaded);
    SaveGoesThrough(cfg, s2, e3);
    FoldSnoc(Stepper(cfg), INIT, loaded, e3);
    var s3 := Apply(cfg, s2, e3);
    SaveGoesThrough(cfg, s3, e4);
    es := loaded + [e3] + [e4];
    FoldSnoc(Stepper(cfg), INIT, loaded + [e3], e4);
    var log := LogOf(Apply(cfg, s3, e4), id);
    assert log[1].loaded == v.0 && log[1].over == v.1;
    assert !Chained(log);
  }

  /** No update is ever lost, in any run, exactly when versions are compared and no session saves
      without one. */
  lemma NoLostUpdateExactly(cfg: Config)
    ensures (forall es :: NoLostUpdate(Run(cfg, INIT, es))) <==> cfg.versioned && !cfg.blind
  {
    if cfg.versioned && !cfg.blind {
      forall es ensures NoLostUpdate(Run(cfg, INIT, es)) {
        RunKeeps(cfg, INIT, es);
        var s := Run(cfg, INIT, es);
        forall id ensures Chained(LogOf(s, id)) && OncePerVersion(LogOf(s, id)) {
          assert Tip(LogOf(s, id), StoredEtag(s.st, id), MembersOf(s.st, id), s.used);
        }
      }
    } else {
      var es := UpdateLost(cfg, "a", ("1", "2", "3"), ("x", "y", "z"));
    }
  }
}
