/**
 * project-copier.py:56-86 on values: the name check, the node-pool
 * translation table, and the copied projects, each step ending the run with
 * its error.
 */
module Migration {
  import opened Outcomes
  import opened Records
  import opened NameCheck
  import opened PoolMapping
  import opened Transform

  /**
   * The projects lines 56-86 hand to `putProjects`, with the name check as
   * intended: one copy per project, or an error from the name check or a
   * KeyError from the copy loop, never the missing match of lines 68-70.
   */
  function Migrate(inputPools: seq<NodePool>, outputPools: seq<NodePool>, projects: seq<ProjectValue>): (r: Result<seq<ProjectValue>, MigrationError>)
    ensures r.Ok? ==> |r.value| == |projects|
    ensures r.Err? ==> r.error.NodePoolsMismatch? || r.error.UnmappedPool? || r.error.MissingKey?
  {
    match NameCheck.NameCheck(inputPools, outputPools)
    case Fail(e) => Err(e)
    case Pass =>
      // the names agree, so the table is always built
      NamesAgreeMappingOk(inputPools, outputPools);
      var mapping := Mapping(inputPools, outputPools).value;
      TransformProjectsRaisesKeyError(projects, mapping);
      TransformProjects(projects, mapping)
  }

  /**
   * The same run with the name check as written, which never stops it: one
   * copy per project, or a missing match or a KeyError, never the name
   * check's error.
   */
  function MigrateAsWritten(inputPools: seq<NodePool>, outputPools: seq<NodePool>, projects: seq<ProjectValue>): (r: Result<seq<ProjectValue>, MigrationError>)
    ensures r.Ok? ==> |r.value| == |projects|
    ensures r.Err? ==> r.error.NoMatchingPool? || r.error.UnmappedPool? || r.error.MissingKey?
  {
    match NameCheckAsWritten(inputPools, outputPools)
    case Fail(e) => Err(e)
    case Pass =>
      var mapping :- Mapping(inputPools, outputPools);
      TransformProjectsRaisesKeyError(projects, mapping);
      TransformProjects(projects, mapping)
  }

  /** When both clusters list the same names, every input pool finds a same-named output pool. */
  lemma NamesAgreeMappingOk(inputPools: seq<NodePool>, outputPools: seq<NodePool>)
    requires multiset(Names(inputPools)) == multiset(Names(outputPools))
    ensures Mapping(inputPools, outputPools).Ok?
  {
    MappingFailsIff(inputPools, outputPools);
    forall a | 0 <= a < |inputPools| ensures HasMatch(outputPools, inputPools[a]) {
      var names := Names(outputPools);
      assert Names(inputPools)[a] == inputPools[a].name;
      assert inputPools[a].name in multiset(names);
      var j :| 0 <= j < |names| && names[j] == inputPools[a].name;
      assert outputPools[j].name == inputPools[a].name;
    }
  }

  /**
   * The run stops at the name check exactly when the clusters' names differ
   * as multisets; otherwise the table is always built, the lookup failure of
   * lines 68-70 cannot happen, and the run's outcome is that of the copy loop.
   */
  lemma MigrateOutcome(inputPools: seq<NodePool>, outputPools: seq<NodePool>, projects: seq<ProjectValue>)
    ensures multiset(Names(inputPools)) != multiset(Names(outputPools)) ==>
      Migrate(inputPools, outputPools, projects) == Err(NodePoolsMismatch(Sort(Names(inputPools)), Sort(Names(outputPools))))
    ensures multiset(Names(inputPools)) == multiset(Names(outputPools)) ==>
      Mapping(inputPools, outputPools).Ok? &&
      Migrate(inputPools, outputPools, projects) == TransformProjects(projects, Mapping(inputPools, outputPools).value)
    ensures Migrate(inputPools, outputPools, projects).Err? ==> !Migrate(inputPools, outputPools, projects).error.NoMatchingPool?
  {
    NameCheckPassesIff(inputPools, outputPools);
    if multiset(Names(inputPools)) == multiset(Names(outputPools)) {
      NamesAgreeMappingOk(inputPools, outputPools);
      TransformProjectsRaisesKeyError(projects, Mapping(inputPools, outputPools).value);
    }
  }

  /** The run's result read off its steps: the name check, then the copy loop over the table, which is always built. */
  lemma MigrateSteps(inputPools: seq<NodePool>, outputPools: seq<NodePool>, projects: seq<ProjectValue>)
    ensures NameCheck.NameCheck(inputPools, outputPools).Fail? ==>
      Migrate(inputPools, outputPools, projects) == Err(NameCheck.NameCheck(inputPools, outputPools).error)
    ensures NameCheck.NameCheck(inputPools, outputPools).Pass? ==>
      Mapping(inputPools, outputPools).Ok? &&
      Migrate(inputPools, outputPools, projects) == TransformProjects(projects, Mapping(inputPools, outputPools).value)
  {
    if NameCheck.NameCheck(inputPools, outputPools).Pass? {
      NamesAgreeMappingOk(inputPools, outputPools);
    }
  }

  /**
   * As written, the run is the table followed by the copy loop; it stops with
   * a missing match exactly when some input pool has no same-named output
   * pool, whatever the two clusters' names are.
   */
  lemma MigrateAsWrittenOutcome(inputPools: seq<NodePool>, outputPools: seq<NodePool>, projects: seq<ProjectValue>)
    ensures Mapping(inputPools, outputPools).Err? ==>
      MigrateAsWritten(inputPools, outputPools, projects) == Err(Mapping(inputPools, outputPools).error)
    ensures Mapping(inputPools, outputPools).Ok? ==>
      MigrateAsWritten(inputPools, outputPools, projects) == TransformProjects(projects, Mapping(inputPools, outputPools).value)
    ensures (MigrateAsWritten(inputPools, outputPools, projects).Err? && MigrateAsWritten(inputPools, outputPools, projects).error.NoMatchingPool?)
      <==> exists a :: 0 <= a < |inputPools| && !HasMatch(outputPools, inputPools[a])
  {
    MappingFailsIff(inputPools, outputPools);
    if Mapping(inputPools, outputPools).Ok? {
      TransformProjectsRaisesKeyError(projects, Mapping(inputPools, outputPools).value);
    }
  }

  /**
   * A successful run leaves every input project's copy in place and in order;
   * each copied entry whose pool is one of the input cluster's pools (input ids
   * being unique) now carries the output cluster's last pool of that name.
   */
  lemma MigratedEntryPool(inputPools: seq<NodePool>, outputPools: seq<NodePool>, projects: seq<ProjectValue>, i: int, k: int)
    requires Migrate(inputPools, outputPools, projects).Ok?
    requires UniqueIds(inputPools)
    requires 0 <= i < |projects| && 0 <= k < |projects[i].entries|
    requires projects[i].entries[k].nodePool in inputPools
    ensures |Migrate(inputPools, outputPools, projects).value| == |projects|
    ensures LastNamed(outputPools, projects[i].entries[k].nodePool.name).Some?
    ensures |Migrate(inputPools, outputPools, projects).value[i].entries| == |projects[i].entries|
    ensures Migrate(inputPools, outputPools, projects).value[i].entries[k].nodePool == LastNamed(outputPools, projects[i].entries[k].nodePool.name).value
    ensures LastNamed(outputPools, projects[i].entries[k].nodePool.name).value in outputPools
  {
    var p := projects[i].entries[k].nodePool;
    MigrateOutcome(inputPools, outputPools, projects);
    assert Mapping(inputPools, outputPools).Ok?;
    var mapping := Mapping(inputPools, outputPools).value;
    MappingAtPool(inputPools, outputPools, p);
    TransformedShape(projects, mapping, i, k);
    var o := LastNamed(outputPools, p.name).value;
    var j :| IsLastNamed(outputPools, p.name, j) && outputPools[j] == o;
  }

  /**
   * As written, a pair of clusters with different names gets past the check
   * and stops only at the lookup of lines 68-70.
   */
  lemma AsWrittenReachesLookupFailure()
    ensures MigrateAsWritten([NodePool(1, "b")], [NodePool(2, "a")], []) == Err(NoMatchingPool("b"))
  {
    var outputPools := [NodePool(2, "a")];
    assert LastNamedIndex(outputPools, "b") == -1;
  }

  /** The same pair of clusters stops at the intended check. */
  lemma IntendedStopsAtCheck()
    ensures Migrate([NodePool(1, "b")], [NodePool(2, "a")], []).error.NodePoolsMismatch?
  {
    var inputPools, outputPools := [NodePool(1, "b")], [NodePool(2, "a")];
    assert "b" in multiset(Names(inputPools)) && "b" !in multiset(Names(outputPools));
    MigrateOutcome(inputPools, outputPools, []);
  }
}
