/** The in-memory repository (persistence/memory.go:32-310): state, operations, object. Entities are
    values; a fresh etag is an argument. */
module MemoryRepo {
  import opened Options
  import opened Runs

  datatype Entity = Entity(key: string, body: string)

  datatype Failure = NotFound | AlreadyExists | PreconditionFailed

  datatype Result<+T> = Ok(value: T) | Err(error: Failure)

  /** `keys` keeps creation order; `deleted` holds the tombstones. */
  datatype Repo = Repo(items: map<string, Entity>, etags: map<string, string>, keys: seq<string>, deleted: set<string>)

  const EMPTY := Repo(map[], map[], [], {})

  /** One key list without repetition, etags for exactly its keys, tombstones among them. */
  ghost predicate RepoInv(r: Repo) {
    && (forall i, j :: 0 <= i < j < |r.keys| ==> r.keys[i] != r.keys[j])
    && (forall k :: k in r.keys <==> k in r.items)
    && r.etags.Keys == r.items.Keys && r.deleted <= r.items.Keys
  }

  predicate Visible(r: Repo, k: string) { k in r.items && k !in r.deleted }

  datatype RepoOp =
    | Create(e: Entity, etag: string)
    | Modify(key: string, e: Entity, ifMatch: string, etag: string)
    | Delete(key: string)
    | Undelete(key: string)

  function Outcome(r: Repo, op: RepoOp): Result<Repo> {
    match op
    case Create(e, etag) =>
      if e.key in r.items then Err(AlreadyExists)
      else Ok(Repo(r.items[e.key := e], r.etags[e.key := etag], r.keys + [e.key], r.deleted))
    case Modify(k, e, ifMatch, etag) =>
      if k !in r.items then Err(NotFound)
      else if k in r.etags && r.etags[k] != "" && ifMatch != "" && ifMatch != r.etags[k] then Err(PreconditionFailed)
      else Ok(r.(items := r.items[k := e], etags := r.etags[k := etag]))
    case Delete(k) => if Visible(r, k) then Ok(r.(deleted := r.deleted + {k})) else Err(NotFound)
    case Undelete(k) => if k in r.items && k in r.deleted then Ok(r.(deleted := r.deleted - {k})) else Err(NotFound)
  }

  /** A failed operation leaves the repository as it was. */
  function After(r: Repo, op: RepoOp): Repo {
    if Outcome(r, op).Ok? then Outcome(r, op).value else r
  }

  lemma AfterKeeps(r: Repo, op: RepoOp)
    requires RepoInv(r)
    ensures RepoInv(After(r, op))
  {}

  /** Undelete undoes a Delete, and only that. */
  lemma UndeleteUndoes(r: Repo, k: string)
    requires RepoInv(r)
    ensures Outcome(r, Delete(k)).Ok? ==> Outcome(After(r, Delete(k)), Undelete(k)) == Ok(r)
    ensures Outcome(r, Undelete(k)).Ok? ==> Outcome(After(r, Undelete(k)), Delete(k)) == Ok(r)
  {
    if Visible(r, k) { assert r.deleted + {k} - {k} == r.deleted; }
    if k in r.deleted { assert r.deleted - {k} + {k} == r.deleted; }
  }

  // ----- conditional updates over runs

  function NewEtag(op: RepoOp): string {
    match op
    case Create(_, etag) => etag
    case Modify(_, _, _, etag) => etag
    case _ => ""
  }

  function Shown(op: RepoOp): set<string> { if op.Modify? then {op.ifMatch} else {} }

  /** Every etag written along the run is new to everybody: not empty, and neither seen nor presented
      before. */
  predicate FreshEtags(seen: set<string>, ops: seq<RepoOp>)
    decreases |ops|
  {
    ops == [] ||
    (var known := seen + Shown(ops[0]);
     && (ops[0].Create? || ops[0].Modify? ==> NewEtag(ops[0]) != "" && NewEtag(ops[0]) !in known)
     && FreshEtags(known + {NewEtag(ops[0])}, ops[1..]))
  }

  /** Once the version `v` of a key has been replaced it never comes back. */
  lemma {:induction false} VersionGone(r: Repo, ops: seq<RepoOp>, seen: set<string>, k: string, v: string)
    requires k in r.items && k in r.etags && r.etags[k] != "" && r.etags[k] != v && v in seen && FreshEtags(seen, ops)
    ensures var r' := Fold(After, r, ops); k in r'.items && k in r'.etags && r'.etags[k] != "" && r'.etags[k] != v
    decreases |ops|
  {
    if ops != [] {
      VersionGone(After(r, ops[0]), ops[1..], seen + Shown(ops[0]) + {NewEtag(ops[0])}, k, v);
    }
  }

  /** Of two conditional updates of one key that hold the same version at most one succeeds, whatever
      runs in between: the second finds the precondition failed. */
  lemma OneUpdatePerVersion(r: Repo, a: RepoOp, between: seq<RepoOp>, b: RepoOp, seen: set<string>)
    requires RepoInv(r) && a.Modify? && b.Modify? && a.key == b.key && a.ifMatch == b.ifMatch != ""
    requires FreshEtags(seen, [a] + between) && Outcome(r, a).Ok?
    ensures Outcome(Fold(After, After(r, a), between), b) == Err(PreconditionFailed)
  {
    assert ([a] + between)[1..] == between;
    VersionGone(After(r, a), between, seen + {a.ifMatch} + {a.etag}, a.key, a.ifMatch);
  }

  /** Every repository operation changes some repository. */
  lemma Changeable(op: RepoOp) returns (r: Repo)
    ensures After(r, op) != r
  {
    match op {
      case Create(e, _) =>
        r := EMPTY;
        assert e.key in After(r, op).items;
      case Modify(k, e, _, _) =>
        r := Repo(map[k := Entity(e.key, e.body + "'")], map[k := ""], [k], {});
        assert After(r, op).items[k] == e;
      case Delete(k) =>
        r := Repo(map[k := Entity(k, "")], map[k := ""], [k], {});
        assert k in After(r, op).deleted;
      case Undelete(k) =>
        r := Repo(map[k := Entity(k, "")], map[k := ""], [k], {k});
        assert k !in After(r, op).deleted;
    }
  }

  datatype Update = Update(key: string, e: Entity, etag: string)

  function Entities(us: seq<Update>): seq<Entity> {
    if us == [] then [] else Entities(us[..|us| - 1]) + [us[|us| - 1].e]
  }

  function Put(r: Repo, u: Update): Repo {
    r.(items := r.items[u.key := u.e], etags := r.etags[u.key := u.etag])
  }

  function Updated(r: Repo, us: seq<Update>): Repo {
    if us == [] then r else Put(Updated(r, us[..|us| - 1]), us[|us| - 1])
  }

  /** `i` is the last update of its key. */
  predicate LastOfKey(us: seq<Update>, i: int) {
    0 <= i < |us| && forall j :: i < j < |us| ==> us[j].key != us[i].key
  }

  lemma PutKeeps(r: Repo, u: Update)
    requires RepoInv(r) && u.key in r.items
    ensures RepoInv(Put(r, u)) && Put(r, u).items.Keys == r.items.Keys
  {}

  lemma {:induction false} UpdatedKeeps(r: Repo, us: seq<Update>)
    requires RepoInv(r) && forall i :: 0 <= i < |us| ==> us[i].key in r.items
    ensures RepoInv(Updated(r, us)) && Updated(r, us).items.Keys == r.items.Keys
    ensures Updated(r, us).keys == r.keys && Updated(r, us).deleted == r.deleted
    decreases |us|
  {
    if us != [] {
      UpdatedKeeps(r, us[..|us| - 1]);
      PutKeeps(Updated(r, us[..|us| - 1]), us[|us| - 1]);
    }
  }

  /** A key takes its last update in the batch. */
  lemma {:induction false} UpdatedAt(r: Repo, us: seq<Update>, i: int)
    requires LastOfKey(us, i)
    ensures us[i].key in Updated(r, us).items && us[i].key in Updated(r, us).etags
    ensures Updated(r, us).items[us[i].key] == us[i].e && Updated(r, us).etags[us[i].key] == us[i].etag
    decreases |us|
  {
    var init := us[..|us| - 1];
    if i < |init| {
      assert us[|init|].key != us[i].key;
      UpdatedAt(r, init, i);
    }
  }

  /** A key outside the batch keeps its entity and its etag. */
  lemma {:induction false} UntouchedKept(r: Repo, us: seq<Update>, k: string)
    requires k in r.items && k in r.etags && forall i :: 0 <= i < |us| ==> us[i].key != k
    ensures k in Updated(r, us).items && k in Updated(r, us).etags
    ensures Updated(r, us).items[k] == r.items[k] && Updated(r, us).etags[k] == r.etags[k]
    decreases |us|
  {
    if us != [] { UntouchedKept(r, us[..|us| - 1], k); }
  }

  function KeySet(keys: seq<string>): set<string> { set k | k in keys }

  class MemoryRepository {
    var repo: Repo

    constructor ()
      ensures repo == EMPTY && Valid()
    {
      repo := EMPTY;
    }

    ghost predicate Valid() reads this { RepoInv(repo) }

    method Get(k: string) returns (r: Result<Entity>)
      ensures r == if Visible(repo, k) then Ok(repo.items[k]) else Err(NotFound)
    {
      if k !in repo.items || k in repo.deleted { return Err(NotFound); }
      return Ok(repo.items[k]);
    }

    /** `None` is success; an error changes nothing. Writes in terms of the stored maps themselves: a
        conditional update goes through exactly when one of the two etags is empty or they agree. */
    method Write(op: RepoOp) returns (error: Option<Failure>)
      requires Valid()
      modifies this
      ensures Valid() && repo == After(old(repo), op)
      ensures error.None? <==> Outcome(old(repo), op).Ok?
      ensures error.Some? ==> repo == old(repo)
      ensures match op
              case Create(e, etag) =>
                && error == (if e.key in old(repo).items then Some(AlreadyExists) else None)
                && (error.None? ==> repo == Repo(old(repo).items[e.key := e], old(repo).etags[e.key := etag], old(repo).keys + [e.key], old(repo).deleted))
              case Modify(k, e, ifMatch, etag) =>
                && error == (if k !in old(repo).items then Some(NotFound)
                             else if ifMatch == "" || old(repo).etags[k] == "" || ifMatch == old(repo).etags[k] then None
                             else Some(PreconditionFailed))
                && (error.None? ==> repo == Repo(old(repo).items[k := e], old(repo).etags[k := etag], old(repo).keys, old(repo).deleted))
              case Delete(k) =>
                && error == (if k in old(repo).items && k !in old(repo).deleted then None else Some(NotFound))
                && (error.None? ==> repo == Repo(old(repo).items, old(repo).etags, old(repo).keys, old(repo).deleted + {k}))
              case Undelete(k) =>
                && error == (if k in old(repo).items && k in old(repo).deleted then None else Some(NotFound))
                && (error.None? ==> repo == Repo(old(repo).items, old(repo).etags, old(repo).keys, old(repo).deleted - {k}))
    {
      AfterKeeps(repo, op);
      match op {
        case Create(e, etag) =>
          if e.key in repo.items { return Some(AlreadyExists); }
          repo := Repo(repo.items[e.key := e], repo.etags[e.key := etag], repo.keys + [e.key], repo.deleted);
        case Modify(k, e, ifMatch, etag) =>
          if k !in repo.items { return Some(NotFound); }
          if k in repo.etags && repo.etags[k] != "" && ifMatch != "" && ifMatch != repo.etags[k] { return Some(PreconditionFailed); }
          repo := repo.(items := repo.items[k := e], etags := repo.etags[k := etag]);
        case Delete(k) =>
          if k !in repo.items || k in repo.deleted { return Some(NotFound); }
          repo := repo.(deleted := repo.deleted + {k});
        case Undelete(k) =>
          if k !in repo.items || k !in repo.deleted { return Some(NotFound); }
          repo := repo.(deleted := repo.deleted - {k});
      }
      return None;
    }

    /** All or nothing: every key is checked before the first write. */
    method BatchUpdate(updates: seq<Update>) returns (r: Result<seq<Entity>>)
      requires Valid()
      modifies this
      ensures Valid()
      ensures r == if forall i :: 0 <= i < |updates| ==> Visible(old(repo), updates[i].key) then Ok(Entities(updates)) else Err(NotFound)
      ensures repo == if r.Ok? then Updated(old(repo), updates) else old(repo)
    {
      for i := 0 to |updates|
        invariant forall j :: 0 <= j < i ==> Visible(repo, updates[j].key)
      {
        if updates[i].key !in repo.items || updates[i].key in repo.deleted { return Err(NotFound); }
      }
      var out: seq<Entity> := [];
      for i := 0 to |updates|
        invariant out == Entities(updates[..i]) && repo == Updated(old(repo), updates[..i])
      {
        assert updates[..i + 1][..i] == updates[..i];
        repo := Put(repo, updates[i]);
        out := out + [updates[i].e];
      }
      assert updates[..|updates|] == updates;
      UpdatedKeeps(old(repo), updates);
      return Ok(out);
    }

    method BatchDelete(keys: seq<string>) returns (ok: bool)
      requires Valid()
      modifies this
      ensures Valid()
      ensures ok <==> forall i :: 0 <= i < |keys| ==> Visible(old(repo), keys[i])
      ensures repo == if ok then old(repo).(deleted := old(repo).deleted + KeySet(keys)) else old(repo)
    {
      for i := 0 to |keys|
        invariant forall j :: 0 <= j < i ==> Visible(repo, keys[j])
      {
        if keys[i] !in repo.items || keys[i] in repo.deleted { return false; }
      }
      for i := 0 to |keys|
        invariant repo == old(repo).(deleted := old(repo).deleted + KeySet(keys[..i]))
      {
        repo := repo.(deleted := repo.deleted + {keys[i]});
        assert KeySet(keys[..i + 1]) == KeySet(keys[..i]) + {keys[i]};
      }
      assert keys[..|keys|] == keys;
      return true;
    }
  }
}
