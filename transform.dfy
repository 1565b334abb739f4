/**
 * What project-copier.py:72-86 computes, on values: each project's copy with
 * its entries' pool ids translated and its `cpu` and `memory` quotas deleted.
 */
module Transform {
  import opened Outcomes
  import opened Records

  /** Python's `del d[key]`: a KeyError when `d` has no `key`. */
  function Del(d: map<string, Json>, key: string): (r: Result<map<string, Json>, MigrationError>)
    ensures r.Ok? <==> key in d
    ensures r.Err? ==> r.error == MissingKey(key)
    ensures r.Ok? ==> key !in r.value && forall k :: k != key ==> (k in r.value <==> k in d)
    ensures r.Ok? ==> forall k :: k in r.value ==> r.value[k] == d[k]
  {
    if key in d then Ok(d - {key}) else Err(MissingKey(key))
  }

  /** `del x['cpu']` followed by `del x['memory']` (lines 79-80 and 83-84). */
  function DropCpuMemory(d: map<string, Json>): (r: Result<map<string, Json>, MigrationError>)
    ensures r.Ok? <==> Cpu in d && Memory in d
    ensures r.Err? ==> r.error == MissingKey(if Cpu in d then Memory else Cpu)
    ensures r.Ok? ==> r.value.Keys == d.Keys - {Cpu, Memory}
    ensures r.Ok? ==> forall k :: k in r.value ==> r.value[k] == d[k]
  {
    var withoutCpu :- Del(d, Cpu);
    Del(withoutCpu, Memory)
  }

  /**
   * The shape of both loops of lines 72-86: `step` applied to each element in
   * order, each result appended to a fresh list; the first element whose step
   * raises ends the loop with that error.
   */
  function EachInOrder<T, U>(xs: seq<T>, step: T -> Result<U, MigrationError>): (r: Result<seq<U>, MigrationError>)
    ensures r.Ok? <==> forall k :: 0 <= k < |xs| ==> step(xs[k]).Ok?
    ensures r.Ok? ==> |r.value| == |xs| && forall k :: 0 <= k < |xs| ==> r.value[k] == step(xs[k]).value
    ensures r.Err? ==> exists k :: (0 <= k < |xs| && step(xs[k]).Err? && (forall j :: 0 <= j < k ==> step(xs[j]).Ok?)
      && r.error == step(xs[k]).error)
  {
    if xs == [] then Ok([])
    else
      var n := |xs| - 1;
      assert forall k :: 0 <= k < n ==> xs[..n][k] == xs[k];
      var front := EachInOrder(xs[..n], step);
      if front.Err? then
        front
      else
        var last := step(xs[n]);
        if last.Err? then Err(last.error) else Ok(front.value + [last.value])
  }

  /**
   * Lines 77-80 for one entry: the copy's pool id looked up in the mapping
   * (a KeyError before anything is deleted), then its cpu and memory deleted.
   */
  function TransformEntry(e: EntryValue, mapping: map<PoolId, PoolId>): (r: Result<EntryValue, MigrationError>)
    ensures r.Ok? <==> e.nodePool.id in mapping && Cpu in e.fields && Memory in e.fields
    ensures r.Err? ==> r.error == if e.nodePool.id !in mapping then UnmappedPool(e.nodePool.id) else MissingKey(if Cpu in e.fields then Memory else Cpu)
    ensures r.Ok? ==> r.value.nodePool.id == mapping[e.nodePool.id] && r.value.nodePool.name == e.nodePool.name
    ensures r.Ok? ==> r.value.fields.Keys == e.fields.Keys - {Cpu, Memory}
    ensures r.Ok? ==> forall k :: k in r.value.fields ==> r.value.fields[k] == e.fields[k]
  {
    if e.nodePool.id !in mapping then Err(UnmappedPool(e.nodePool.id))
    else
      var fields :- DropCpuMemory(e.fields);
      Ok(EntryValue(NodePool(mapping[e.nodePool.id], e.nodePool.name), fields))
  }

  /** `es[k]` is the first entry the transformation fails on. */
  predicate FirstFailingEntry(es: seq<EntryValue>, mapping: map<PoolId, PoolId>, k: int)
  {
    0 <= k < |es| && TransformEntry(es[k], mapping).Err?
    && forall j :: 0 <= j < k ==> TransformEntry(es[j], mapping).Ok?
  }

  /**
   * Lines 75-81: the copy's fresh `nodePoolsResources`, one transformed entry
   * appended per input entry, in order; the first failing entry ends the run.
   */
  function TransformEntries(es: seq<EntryValue>, mapping: map<PoolId, PoolId>): (r: Result<seq<EntryValue>, MigrationError>)
    ensures r.Ok? <==> forall k :: 0 <= k < |es| ==> TransformEntry(es[k], mapping).Ok?
    ensures r.Ok? ==> |r.value| == |es| && forall k :: 0 <= k < |es| ==> r.value[k] == TransformEntry(es[k], mapping).value
    ensures r.Err? ==> exists k :: FirstFailingEntry(es, mapping, k) && r.error == TransformEntry(es[k], mapping).error
  {
    var r := EachInOrder(es, e => TransformEntry(e, mapping));
    if r.Err? then
      var k :| 0 <= k < |es| && TransformEntry(es[k], mapping).Err? && (forall j :: 0 <= j < k ==> TransformEntry(es[j], mapping).Ok?)
        && r.error == TransformEntry(es[k], mapping).error;
      assert FirstFailingEntry(es, mapping, k);
      r
    else
      r
  }


  /** When every entry before `es[k]` succeeds and `es[k]` fails, the run stops with `es[k]`'s error. */
  lemma EntriesFailAt(es: seq<EntryValue>, mapping: map<PoolId, PoolId>, k: int)
    requires FirstFailingEntry(es, mapping, k)
    ensures TransformEntries(es, mapping).Err? && TransformEntries(es, mapping).error == TransformEntry(es[k], mapping).error
  {
    assert TransformEntry(es[k], mapping).Err?;
    assert TransformEntries(es, mapping).Err?;
    var j :| FirstFailingEntry(es, mapping, j) && TransformEntries(es, mapping).error == TransformEntry(es[j], mapping).error;
    assert j <= k by { assert TransformEntry(es[j], mapping).Err?; }
    assert k <= j by { assert TransformEntry(es[k], mapping).Err?; }
  }


  /**
   * Lines 74-84 for one project: the copy keeps every top-level key, gets the
   * transformed entries, and its `resources` lose cpu and memory once all
   * entries are done.
   */
  function TransformProject(p: ProjectValue, mapping: map<PoolId, PoolId>): (r: Result<ProjectValue, MigrationError>)
    ensures r.Ok? <==> TransformEntries(p.entries, mapping).Ok? && Cpu in p.resources && Memory in p.resources
    ensures r.Err? ==> r.error == if TransformEntries(p.entries, mapping).Err? then TransformEntries(p.entries, mapping).error
                                 else MissingKey(if Cpu in p.resources then Memory else Cpu)
    ensures r.Ok? ==> r.value.attrs == p.attrs && r.value.entries == TransformEntries(p.entries, mapping).value
    ensures r.Ok? ==> r.value.resources.Keys == p.resources.Keys - {Cpu, Memory}
    ensures r.Ok? ==> forall k :: k in r.value.resources ==> r.value.resources[k] == p.resources[k]
  {
    var entries :- TransformEntries(p.entries, mapping);
    var resources :- DropCpuMemory(p.resources);
    Ok(ProjectValue(p.attrs, resources, entries))
  }

  /** The project's result read off the results of its two steps, entries first. */
  lemma TransformProjectSteps(p: ProjectValue, mapping: map<PoolId, PoolId>)
    ensures TransformEntries(p.entries, mapping).Err? ==> TransformProject(p, mapping) == Err(TransformEntries(p.entries, mapping).error)
    ensures TransformEntries(p.entries, mapping).Ok? && DropCpuMemory(p.resources).Err? ==>
      TransformProject(p, mapping) == Err(DropCpuMemory(p.resources).error)
    ensures TransformEntries(p.entries, mapping).Ok? && DropCpuMemory(p.resources).Ok? ==>
      TransformProject(p, mapping) == Ok(ProjectValue(p.attrs, DropCpuMemory(p.resources).value, TransformEntries(p.entries, mapping).value))
  {
  }

  /** `ps[i]` is the first project the transformation fails on. */
  predicate FirstFailingProject(ps: seq<ProjectValue>, mapping: map<PoolId, PoolId>, i: int)
  {
    0 <= i < |ps| && TransformProject(ps[i], mapping).Err?
    && forall j :: 0 <= j < i ==> TransformProject(ps[j], mapping).Ok?
  }

  /**
   * Lines 72-86: `new_projects`, one copy appended per input project, in
   * order; the first failing project ends the run.
   */
  function TransformProjects(ps: seq<ProjectValue>, mapping: map<PoolId, PoolId>): (r: Result<seq<ProjectValue>, MigrationError>)
    ensures r.Ok? <==> forall i :: 0 <= i < |ps| ==> TransformProject(ps[i], mapping).Ok?
    ensures r.Ok? ==> |r.value| == |ps| && forall i :: 0 <= i < |ps| ==> r.value[i] == TransformProject(ps[i], mapping).value
    ensures r.Err? ==> exists i :: FirstFailingProject(ps, mapping, i) && r.error == TransformProject(ps[i], mapping).error
  {
    var r := EachInOrder(ps, p => TransformProject(p, mapping));
    if r.Err? then
      var i :| 0 <= i < |ps| && TransformProject(ps[i], mapping).Err? && (forall j :: 0 <= j < i ==> TransformProject(ps[j], mapping).Ok?)
        && r.error == TransformProject(ps[i], mapping).error;
      assert FirstFailingProject(ps, mapping, i);
      r
    else
      r
  }


  /** When every project succeeds, the run's result lists their results in order. */
  lemma ProjectsAllOk(ps: seq<ProjectValue>, mapping: map<PoolId, PoolId>, done: seq<ProjectValue>)
    requires |done| == |ps| && forall i :: 0 <= i < |ps| ==> TransformProject(ps[i], mapping) == Ok(done[i])
    ensures TransformProjects(ps, mapping) == Ok(done)
  {
    var r := TransformProjects(ps, mapping);
    assert r.Ok?;
    assert |r.value| == |done|;
    assert forall i :: 0 <= i < |ps| ==> r.value[i] == done[i];
    assert r.value == done;
  }

  /** When every project before `ps[i]` succeeds and `ps[i]` fails, the run stops with `ps[i]`'s error. */
  lemma ProjectsFailAt(ps: seq<ProjectValue>, mapping: map<PoolId, PoolId>, i: int)
    requires FirstFailingProject(ps, mapping, i)
    ensures TransformProjects(ps, mapping).Err? && TransformProjects(ps, mapping).error == TransformProject(ps[i], mapping).error
  {
    assert TransformProject(ps[i], mapping).Err?;
    assert TransformProjects(ps, mapping).Err?;
    var j :| FirstFailingProject(ps, mapping, j) && TransformProjects(ps, mapping).error == TransformProject(ps[j], mapping).error;
    assert j <= i by { assert TransformProject(ps[j], mapping).Err?; }
    assert i <= j by { assert TransformProject(ps[i], mapping).Err?; }
  }

  /**
   * Every copied project keeps its top-level keys and its entries' order and
   * count; each copied entry points at the mapped pool id under the same pool
   * name; cpu and memory are gone from every entry and every `resources`, and
   * every other key is kept with its value.
   */
  lemma TransformedShape(ps: seq<ProjectValue>, mapping: map<PoolId, PoolId>, i: int, k: int)
    requires TransformProjects(ps, mapping).Ok?
    requires 0 <= i < |ps| && 0 <= k < |ps[i].entries|
    ensures var out := TransformProjects(ps, mapping).value[i];
      && out.attrs == ps[i].attrs
      && |out.entries| == |ps[i].entries|
      && ps[i].entries[k].nodePool.id in mapping
      && out.entries[k].nodePool == NodePool(mapping[ps[i].entries[k].nodePool.id], ps[i].entries[k].nodePool.name)
      && Cpu !in out.entries[k].fields && Memory !in out.entries[k].fields
      && (forall key :: key != Cpu && key != Memory ==> (key in out.entries[k].fields <==> key in ps[i].entries[k].fields))
      && (forall key :: key in out.entries[k].fields ==> out.entries[k].fields[key] == ps[i].entries[k].fields[key])
      && Cpu !in out.resources && Memory !in out.resources
      && (forall key :: key != Cpu && key != Memory ==> (key in out.resources <==> key in ps[i].resources))
      && (forall key :: key in out.resources ==> out.resources[key] == ps[i].resources[key])
  {
    var project := TransformProject(ps[i], mapping);
    var entries := TransformEntries(ps[i].entries, mapping);
    assert project.Ok? && entries.Ok?;
    assert TransformEntry(ps[i].entries[k], mapping).Ok?;
  }

  /** The copy loop only ever raises a KeyError: an unmapped pool id or a missing quota key. */
  lemma TransformProjectsRaisesKeyError(ps: seq<ProjectValue>, mapping: map<PoolId, PoolId>)
    ensures TransformProjects(ps, mapping).Err? ==>
      TransformProjects(ps, mapping).error.UnmappedPool? || TransformProjects(ps, mapping).error.MissingKey?
  {
    if TransformProjects(ps, mapping).Err? {
      var i :| FirstFailingProject(ps, mapping, i) && TransformProjects(ps, mapping).error == TransformProject(ps[i], mapping).error;
      if TransformEntries(ps[i].entries, mapping).Err? {
        var es := ps[i].entries;
        var k :| FirstFailingEntry(es, mapping, k) && TransformEntries(es, mapping).error == TransformEntry(es[k], mapping).error;
      }
    }
  }

  /** An entry whose pool id is not a key of the mapping stops the run (line 78). */
  lemma UnmappedPoolAborts(ps: seq<ProjectValue>, mapping: map<PoolId, PoolId>, i: int, k: int)
    requires 0 <= i < |ps| && 0 <= k < |ps[i].entries|
    requires ps[i].entries[k].nodePool.id !in mapping
    ensures TransformProjects(ps, mapping).Err?
  {
    assert TransformEntry(ps[i].entries[k], mapping).Err?;
    assert TransformEntries(ps[i].entries, mapping).Err?;
    assert TransformProject(ps[i], mapping).Err?;
  }
}
