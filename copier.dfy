/**
 * project-copier.py:72-86 as the program runs it, on shared objects, and the
 * whole run of lines 56-86 (`Run`) with the name check as intended. `copy`
 * is shallow: each copied project holds the same `resources` object as the
 * source project, and each copied entry the same `nodePool` object as the
 * source entry. Deleting quotas from the copy's `resources` (lines 83-84) and
 * rewriting the copy's pool id (line 78) therefore change the source records
 * too. Those two objects are classes here; the dictionaries the program
 * creates and changes before anything else refers to them (the copied entry
 * and project) are values that hold references to the shared objects.
 */
module Copier {
  import opened Outcomes
  import opened Records
  import opened Transform
  import opened NameCheck
  import opened PoolMapping
  import opened Migration

  /** The `nodePool` object of an entry. Line 78 rewrites its `id` in place. */
  class PoolRef {
    var id: PoolId
    const name: string

    constructor (id: PoolId, name: string)
      ensures this.id == id && this.name == name
    {
      this.id := id;
      this.name := name;
    }

    ghost function Value(): NodePool
      reads this
    {
      NodePool(id, name)
    }
  }

  /** A project's `resources` object. Lines 83-84 delete from it in place. */
  class Resources {
    var quotas: map<string, Json>

    constructor (quotas: map<string, Json>)
      ensures this.quotas == quotas
    {
      this.quotas := quotas;
    }

    /** `del resources[key]` */
    method Delete(key: string) returns (r: Outcome<MigrationError>)
      modifies this
      ensures r.Pass? <==> key in old(quotas)
      ensures r.Pass? ==> quotas == Del(old(quotas), key).value
      ensures r.Fail? ==> r.error == MissingKey(key) && quotas == old(quotas)
    {
      if key !in quotas {
        return Fail(MissingKey(key));
      }
      quotas := quotas - {key};
      return Pass;
    }
  }

  /** An element of `nodePoolsResources`: its `nodePool` object and its other keys. */
  datatype Entry = Entry(nodePool: PoolRef, fields: map<string, Json>)
  {
    ghost function Value(): EntryValue
      reads nodePool
    {
      EntryValue(nodePool.Value(), fields)
    }
  }

  /** A project: its other top-level keys, its `resources` object and its `nodePoolsResources` list. */
  datatype Project = Project(attrs: map<string, Json>, resources: Resources, nodePoolsResources: seq<Entry>)
  {
    /** The objects the migration changes when it copies this project. */
    ghost function Touched(): set<object>
    {
      {resources} + set e | e in nodePoolsResources :: e.nodePool
    }

    /** This project holds the project value `v`. */
    ghost predicate Holds(v: ProjectValue)
      reads Touched()
    {
      attrs == v.attrs && resources.quotas == v.resources && EntriesHold(nodePoolsResources, v.entries)
    }
  }

  /** No two of `es` share a `nodePool` object, as in any decoded JSON document. */
  ghost predicate DistinctPools(es: seq<Entry>)
  {
    forall a, b :: 0 <= a < |es| && 0 <= b < |es| && es[a].nodePool == es[b].nodePool ==> a == b
  }

  /** `es` holds the entry values `vs`, index by index. */
  ghost predicate EntriesHold(es: seq<Entry>, vs: seq<EntryValue>)
    reads set e | e in es :: e.nodePool
  {
    |es| == |vs| && forall k :: 0 <= k < |es| ==> es[k].Value() == vs[k]
  }

  /**
   * Lines 77-80 for one entry: the shallow copy, the pool id rewritten through
   * the shared `nodePool` object, and cpu and memory deleted from the copy.
   */
  method CopyEntry(npr: Entry, mapping: map<PoolId, PoolId>) returns (r: Result<Entry, MigrationError>)
    modifies npr.nodePool
    ensures r.Ok? <==> TransformEntry(old(npr.Value()), mapping).Ok?
    ensures r.Err? ==> r.error == TransformEntry(old(npr.Value()), mapping).error
    ensures r.Ok? ==> r.value.nodePool == npr.nodePool && r.value.Value() == TransformEntry(old(npr.Value()), mapping).value
    // the source entry sees the new id through the shared object, but keeps its own cpu and memory
    ensures npr.nodePool.id == if old(npr.nodePool.id) in mapping then mapping[old(npr.nodePool.id)] else old(npr.nodePool.id)
  {
    var newNpr := npr;
    if newNpr.nodePool.id !in mapping {
      return Err(UnmappedPool(newNpr.nodePool.id));
    }
    newNpr.nodePool.id := mapping[newNpr.nodePool.id];
    var withoutCpu :- Del(newNpr.fields, Cpu);
    newNpr := newNpr.(fields := withoutCpu);
    var withoutMemory :- Del(newNpr.fields, Memory);
    newNpr := newNpr.(fields := withoutMemory);
    return Ok(newNpr);
  }

  /**
   * Lines 75-81: the copied entries, one per entry of `es` and in its order;
   * each shares its `nodePool` object with the entry it was copied from.
   */
  method CopyEntries(es: seq<Entry>, mapping: map<PoolId, PoolId>, ghost before: seq<EntryValue>)
    returns (r: Result<seq<Entry>, MigrationError>)
    requires DistinctPools(es) && EntriesHold(es, before)
    modifies set e | e in es :: e.nodePool
    ensures r.Ok? <==> TransformEntries(before, mapping).Ok?
    ensures r.Err? ==> r.error == TransformEntries(before, mapping).error
    ensures r.Ok? ==> EntriesHold(r.value, TransformEntries(before, mapping).value)
    ensures r.Ok? ==> forall k :: 0 <= k < |es| ==> r.value[k].nodePool == es[k].nodePool
  {
    var copies: seq<Entry> := [];
    var k := 0;
    while k < |es|
      invariant 0 <= k <= |es|
      invariant |copies| == k
      invariant forall j :: 0 <= j < k ==> copies[j].nodePool == es[j].nodePool
      invariant forall j :: k <= j < |es| ==> es[j].Value() == before[j]
      invariant forall j :: 0 <= j < k ==> TransformEntry(before[j], mapping).Ok?
      invariant forall j :: 0 <= j < k ==> copies[j].Value() == TransformEntry(before[j], mapping).value
    {
      label Before:
      var copied := CopyEntry(es[k], mapping);
      if copied.Err? {
        assert FirstFailingEntry(before, mapping, k);
        EntriesFailAt(before, mapping, k);
        return Err(copied.error);
      }
      assert forall j :: k < j < |es| ==> es[j].Value() == before[j] by {
        forall j | k < j < |es| ensures es[j].Value() == old@Before(es[j].Value()) {
          assert es[j].nodePool != es[k].nodePool;
        }
      }
      assert forall j :: 0 <= j < k ==> copies[j].Value() == TransformEntry(before[j], mapping).value by {
        forall j | 0 <= j < k ensures copies[j].Value() == old@Before(copies[j].Value()) {
          assert es[j].nodePool != es[k].nodePool;
        }
      }
      copies := copies + [copied.value];
      k := k + 1;
    }
    return Ok(copies);
  }

  /**
   * Lines 74-84 for one project: a shallow copy whose `nodePoolsResources` is
   * a new list of copied entries, and whose `resources`, shared with the
   * source project, lose cpu and memory once all entries are done.
   */
  method CopyProject(proj: Project, mapping: map<PoolId, PoolId>, ghost before: ProjectValue)
    returns (r: Result<Project, MigrationError>)
    requires DistinctPools(proj.nodePoolsResources) && proj.Holds(before)
    modifies proj.Touched()
    ensures r.Ok? <==> TransformProject(before, mapping).Ok?
    ensures r.Err? ==> r.error == TransformProject(before, mapping).error
    ensures r.Ok? ==> r.value.Holds(TransformProject(before, mapping).value)
    // the copy shares `resources` and every `nodePool` object with the source project
    ensures r.Ok? ==> SameObjects(r.value, proj)
  {
    TransformProjectSteps(before, mapping);
    var newProj := proj.(nodePoolsResources := []);
    var entries := CopyEntries(proj.nodePoolsResources, mapping, before.entries);
    if entries.Err? {
      return Err(entries.error);
    }
    newProj := newProj.(nodePoolsResources := entries.value);
    var deleted := newProj.resources.Delete(Cpu);
    if deleted.Fail? {
      return Err(deleted.error);
    }
    deleted := newProj.resources.Delete(Memory);
    if deleted.Fail? {
      return Err(deleted.error);
    }
    return Ok(newProj);
  }

  /** `p` holds the same shared objects as `q`, entry by entry: what a shallow copy keeps. */
  ghost predicate SameObjects(p: Project, q: Project)
  {
    p.resources == q.resources && |p.nodePoolsResources| == |q.nodePoolsResources|
    && forall k :: 0 <= k < |p.nodePoolsResources| ==> p.nodePoolsResources[k].nodePool == q.nodePoolsResources[k].nodePool
  }

  lemma SameObjectsTouched(p: Project, q: Project)
    requires SameObjects(p, q)
    ensures p.Touched() == q.Touched()
  {
    forall o | o in p.Touched() ensures o in q.Touched() {
      if o != p.resources {
        var k :| 0 <= k < |p.nodePoolsResources| && p.nodePoolsResources[k].nodePool == o;
        assert q.nodePoolsResources[k] in q.nodePoolsResources;
      }
    }
    forall o | o in q.Touched() ensures o in p.Touched() {
      if o != q.resources {
        var k :| 0 <= k < |q.nodePoolsResources| && q.nodePoolsResources[k].nodePool == o;
        assert p.nodePoolsResources[k] in p.nodePoolsResources;
      }
    }
  }

  /** The objects the migration changes when it copies `projs`. */
  ghost function TouchedAll(projs: seq<Project>): set<object>
  {
    set p, o | p in projs && o in p.Touched() :: o
  }

  /** No two of `projs` share an object the migration changes. */
  ghost predicate Separate(projs: seq<Project>)
  {
    forall a, b :: 0 <= a < |projs| && 0 <= b < |projs| && a != b ==> projs[a].Touched() !! projs[b].Touched()
  }

  /**
   * `CopyProject` on `projs[i]`. It changes only that project's shared
   * objects, so every later source project and every earlier copy still holds
   * what it held.
   */
  method CopyProjectAmong(projs: seq<Project>, i: int, mapping: map<PoolId, PoolId>, ghost before: seq<ProjectValue>,
                          ghost copies: seq<Project>, ghost done: seq<ProjectValue>)
    returns (r: Result<Project, MigrationError>)
    requires Separate(projs) && 0 <= i < |projs| == |before| && |copies| == |done| == i
    requires DistinctPools(projs[i].nodePoolsResources)
    requires forall j :: i <= j < |projs| ==> projs[j].Holds(before[j])
    requires forall j :: 0 <= j < i ==> SameObjects(copies[j], projs[j]) && copies[j].Holds(done[j])
    modifies projs[i].Touched()
    ensures r.Ok? <==> TransformProject(before[i], mapping).Ok?
    ensures r.Err? ==> r.error == TransformProject(before[i], mapping).error
    ensures r.Ok? ==> r.value.Holds(TransformProject(before[i], mapping).value) && SameObjects(r.value, projs[i])
    ensures forall j :: i < j < |projs| ==> projs[j].Holds(before[j])
    ensures forall j :: 0 <= j < i ==> copies[j].Holds(done[j])
  {
    r := CopyProject(projs[i], mapping, before[i]);
    forall j | i < j < |projs| ensures projs[j].Holds(before[j]) {
      assert projs[i].Touched() !! projs[j].Touched();
    }
    forall j | 0 <= j < i ensures copies[j].Holds(done[j]) {
      SameObjectsTouched(copies[j], projs[j]);
      assert projs[i].Touched() !! projs[j].Touched();
    }
  }

  /**
   * Lines 72-86: every project copied in order into `new_projects`; the run
   * stops at the first project whose copy fails.
   */
  method MigrateProjects(projs: seq<Project>, mapping: map<PoolId, PoolId>, ghost before: seq<ProjectValue>)
    returns (r: Result<seq<Project>, MigrationError>)
    requires |projs| == |before| && Separate(projs)
    requires forall i :: 0 <= i < |projs| ==> DistinctPools(projs[i].nodePoolsResources) && projs[i].Holds(before[i])
    modifies TouchedAll(projs)
    ensures r.Ok? <==> TransformProjects(before, mapping).Ok?
    ensures r.Err? ==> r.error == TransformProjects(before, mapping).error
    ensures r.Ok? ==> |r.value| == |projs| && forall i :: 0 <= i < |projs| ==>
      r.value[i].Holds(TransformProjects(before, mapping).value[i]) && SameObjects(r.value[i], projs[i])
  {
    var newProjects: seq<Project> := [];
    ghost var done: seq<ProjectValue> := [];
    var i := 0;
    while i < |projs|
      invariant 0 <= i <= |projs|
      invariant |newProjects| == i && |done| == i
      invariant forall j :: i <= j < |projs| ==> projs[j].Holds(before[j])
      invariant forall j :: 0 <= j < i ==> TransformProject(before[j], mapping) == Ok(done[j])
      invariant forall j :: 0 <= j < i ==> SameObjects(newProjects[j], projs[j]) && newProjects[j].Holds(done[j])
    {
      assert projs[i].Touched() <= TouchedAll(projs);
      var copied := CopyProjectAmong(projs, i, mapping, before, newProjects, done);
      if copied.Err? {
        assert FirstFailingProject(before, mapping, i);
        ProjectsFailAt(before, mapping, i);
        return Err(copied.error);
      }
      newProjects := newProjects + [copied.value];
      done := done + [TransformProject(before[i], mapping).value];
      i := i + 1;
    }
    ProjectsAllOk(before, mapping, done);
    return Ok(newProjects);
  }

  /**
   * What the source project shows once its copy holds `v`: the quotas left in
   * the shared `resources`, and each entry's shared `nodePool` with its new id.
   * The source entries' own keys, cpu and memory included, are not touched.
   */
  lemma SourceSeesCopy(copy: Project, source: Project, v: ProjectValue)
    requires SameObjects(copy, source) && copy.Holds(v)
    ensures source.resources.quotas == v.resources
    ensures |source.nodePoolsResources| == |v.entries|
    ensures forall k :: 0 <= k < |v.entries| ==> source.nodePoolsResources[k].nodePool.Value() == v.entries[k].nodePool
  {
    forall k | 0 <= k < |v.entries| ensures source.nodePoolsResources[k].nodePool.Value() == v.entries[k].nodePool {
      assert copy.nodePoolsResources[k].Value() == v.entries[k];
    }
  }

  /**
   * Lines 56-86: the name check, the translation table, then every project
   * copied in order; the list returned is what `putProjects` submits.
   */
  method Run(inputPools: seq<NodePool>, outputPools: seq<NodePool>, projs: seq<Project>, ghost before: seq<ProjectValue>)
    returns (r: Result<seq<Project>, MigrationError>)
    requires |projs| == |before| && Separate(projs)
    requires forall i :: 0 <= i < |projs| ==> DistinctPools(projs[i].nodePoolsResources) && projs[i].Holds(before[i])
    modifies TouchedAll(projs)
    ensures r.Ok? <==> Migrate(inputPools, outputPools, before).Ok?
    ensures r.Err? ==> r.error == Migrate(inputPools, outputPools, before).error
    ensures r.Ok? ==> |r.value| == |projs| && forall i :: 0 <= i < |projs| ==>
      r.value[i].Holds(Migrate(inputPools, outputPools, before).value[i]) && SameObjects(r.value[i], projs[i])
  {
    MigrateSteps(inputPools, outputPools, before);
    var check := NameCheck.NameCheck(inputPools, outputPools);
    if check.Fail? {
      return Err(check.error);
    }
    // once the names agree, the lookup failure of lines 68-70 cannot happen
    var mapping := BuildMapping(inputPools, outputPools);
    r := MigrateProjects(projs, mapping.value, before);
  }
}
