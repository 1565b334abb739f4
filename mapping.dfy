/**
 * The node-pool translation table of project-copier.py:62-70: every input
 * pool's id mapped to the id of the output pool with the same name.
 */
module PoolMapping {
  import opened Outcomes
  import opened Records

  /** `pools[j]` is named `name` and no later pool is. */
  predicate IsLastNamed(pools: seq<NodePool>, name: string, j: int)
  {
    0 <= j < |pools| && pools[j].name == name && forall k :: j < k < |pools| ==> pools[k].name != name
  }

  /** The index of the last pool named `name`, or -1 when there is none. */
  function LastNamedIndex(pools: seq<NodePool>, name: string): (j: int)
    ensures -1 <= j < |pools|
    ensures j == -1 <==> forall k :: 0 <= k < |pools| ==> pools[k].name != name
    ensures j != -1 ==> IsLastNamed(pools, name, j)
  {
    if pools == [] then -1
    else if pools[|pools| - 1].name == name then |pools| - 1
    else
      assert forall k :: 0 <= k < |pools| - 1 ==> pools[..|pools| - 1][k] == pools[k];
      LastNamedIndex(pools[..|pools| - 1], name)
  }

  /**
   * The pool the inner loop (lines 64-67) settles on: it has no `break`, so a
   * later pool of the same name overwrites an earlier one.
   */
  function LastNamed(pools: seq<NodePool>, name: string): (m: Option<NodePool>)
    ensures m.None? <==> forall j :: 0 <= j < |pools| ==> pools[j].name != name
    ensures m.Some? ==> exists j :: IsLastNamed(pools, name, j) && pools[j] == m.value
  {
    var j := LastNamedIndex(pools, name);
    if j == -1 then None else Some(pools[j])
  }

  /** Some output pool has the same name as `p`. */
  predicate HasMatch(outputPools: seq<NodePool>, p: NodePool)
  {
    exists j :: 0 <= j < |outputPools| && outputPools[j].name == p.name
  }

  /** The ids of `pools`. */
  function Ids(pools: seq<NodePool>): set<PoolId>
  {
    set p | p in pools :: p.id
  }

  /**
   * The table lines 63-70 leave behind when they run over `inputPools` starting
   * from `mapping`, or the error that stops them: pools are taken in input
   * order, a repeated input id keeps the last assignment, and an input pool
   * without a same-named output pool ends the run.
   */
  function Fill(inputPools: seq<NodePool>, outputPools: seq<NodePool>, mapping: map<PoolId, PoolId>): (r: Result<map<PoolId, PoolId>, MigrationError>)
    ensures r.Ok? ==> r.value.Keys == mapping.Keys + Ids(inputPools)
    ensures r.Err? ==> r.error.NoMatchingPool? && exists a :: 0 <= a < |inputPools| && !HasMatch(outputPools, inputPools[a]) && r.error.name == inputPools[a].name
  {
    if inputPools == [] then Ok(mapping)
    else
      var i := inputPools[0];
      IdsCons(inputPools);
      match LastNamed(outputPools, i.name)
      case None => Err(NoMatchingPool(i.name))
      case Some(o) =>
        var r := Fill(inputPools[1..], outputPools, mapping[i.id := o.id]);
        assert r.Err? ==> exists a :: 0 <= a < |inputPools| && !HasMatch(outputPools, inputPools[a]) && r.error.name == inputPools[a].name by {
          if r.Err? {
            var a :| 0 <= a < |inputPools[1..]| && !HasMatch(outputPools, inputPools[1..][a]) && r.error.name == inputPools[1..][a].name;
            assert inputPools[a + 1] == inputPools[1..][a];
          }
        }
        r
  }

  /** `nodepool_mapping` after line 70, starting from the empty dictionary of line 62: keyed by exactly the input pool ids. */
  function Mapping(inputPools: seq<NodePool>, outputPools: seq<NodePool>): (r: Result<map<PoolId, PoolId>, MigrationError>)
    ensures r.Ok? ==> r.value.Keys == Ids(inputPools)
    ensures r.Err? ==> r.error.NoMatchingPool? && exists a :: 0 <= a < |inputPools| && !HasMatch(outputPools, inputPools[a]) && r.error.name == inputPools[a].name
  {
    Fill(inputPools, outputPools, map[])
  }

  /** What the inner loop (lines 64-67) holds after looking at `pools`: the latest pool named `name` it met. */
  function Scan(pools: seq<NodePool>, name: string): Option<NodePool>
  {
    if pools == [] then None
    else if pools[|pools| - 1].name == name then Some(pools[|pools| - 1])
    else Scan(pools[..|pools| - 1], name)
  }

  /** The loop's running match is the last pool of that name. */
  lemma {:induction false} ScanIsLastNamed(pools: seq<NodePool>, name: string)
    ensures Scan(pools, name) == LastNamed(pools, name)
  {
    if pools != [] {
      var n := |pools| - 1;
      ScanIsLastNamed(pools[..n], name);
      assert forall k :: 0 <= k < n ==> pools[..n][k] == pools[k];
    }
  }

  /** The inner loop of lines 64-67. */
  method MatchingPool(outputPools: seq<NodePool>, name: string) returns (matching: Option<NodePool>)
    ensures matching == LastNamed(outputPools, name)
  {
    matching := None;
    var j := 0;
    while j < |outputPools|
      invariant 0 <= j <= |outputPools|
      invariant matching == Scan(outputPools[..j], name)
    {
      assert outputPools[..j + 1][..j] == outputPools[..j];
      if outputPools[j].name == name {
        matching := Some(outputPools[j]);
      }
      j := j + 1;
    }
    assert outputPools[..j] == outputPools;
    ScanIsLastNamed(outputPools, name);
  }

  /** Lines 62-70: the outer loop filling `nodepool_mapping`. */
  method BuildMapping(inputPools: seq<NodePool>, outputPools: seq<NodePool>) returns (r: Result<map<PoolId, PoolId>, MigrationError>)
    ensures r == Mapping(inputPools, outputPools)
  {
    var mapping: map<PoolId, PoolId> := map[];
    var a := 0;
    while a < |inputPools|
      invariant 0 <= a <= |inputPools|
      invariant Fill(inputPools[a..], outputPools, mapping) == Mapping(inputPools, outputPools)
    {
      var i := inputPools[a];
      assert inputPools[a..][0] == i && inputPools[a..][1..] == inputPools[a + 1..];
      var matching := MatchingPool(outputPools, i.name);
      if matching.None? {
        // The source reports the pool and then subscripts `None`.
        return Err(NoMatchingPool(i.name));
      }
      mapping := mapping[i.id := matching.value.id];
      a := a + 1;
    }
    return Ok(mapping);
  }

  /** `inputPools[a]` is the first input pool without a same-named output pool. */
  predicate FirstUnmatched(inputPools: seq<NodePool>, outputPools: seq<NodePool>, a: int)
  {
    0 <= a < |inputPools| && !HasMatch(outputPools, inputPools[a])
    && forall b :: 0 <= b < a ==> HasMatch(outputPools, inputPools[b])
  }

  /**
   * The table is built exactly when every input pool has a same-named output
   * pool; otherwise the run stops at the first input pool that has none.
   */
  lemma {:induction false} FillFailsIff(inputPools: seq<NodePool>, outputPools: seq<NodePool>, mapping: map<PoolId, PoolId>)
    ensures Fill(inputPools, outputPools, mapping).Ok? <==> forall a :: 0 <= a < |inputPools| ==> HasMatch(outputPools, inputPools[a])
    ensures Fill(inputPools, outputPools, mapping).Err? ==>
      exists a :: FirstUnmatched(inputPools, outputPools, a) && Fill(inputPools, outputPools, mapping).error == NoMatchingPool(inputPools[a].name)
  {
    if inputPools != [] {
      var i := inputPools[0];
      var rest := inputPools[1..];
      assert forall a :: 0 < a < |inputPools| ==> inputPools[a] == rest[a - 1];
      match LastNamed(outputPools, i.name)
      case None =>
        assert FirstUnmatched(inputPools, outputPools, 0);
      case Some(o) =>
        FillFailsIff(rest, outputPools, mapping[i.id := o.id]);
        assert HasMatch(outputPools, i);
        if Fill(rest, outputPools, mapping[i.id := o.id]).Err? {
          var a :| FirstUnmatched(rest, outputPools, a) && Fill(rest, outputPools, mapping[i.id := o.id]).error == NoMatchingPool(rest[a].name);
          assert FirstUnmatched(inputPools, outputPools, a + 1);
        }
        assert (forall a :: 0 <= a < |rest| ==> HasMatch(outputPools, rest[a])) ==> forall a :: 0 <= a < |inputPools| ==> HasMatch(outputPools, inputPools[a]);
    }
  }

  lemma MappingFailsIff(inputPools: seq<NodePool>, outputPools: seq<NodePool>)
    ensures Mapping(inputPools, outputPools).Ok? <==> forall a :: 0 <= a < |inputPools| ==> HasMatch(outputPools, inputPools[a])
    ensures Mapping(inputPools, outputPools).Err? ==>
      exists a :: FirstUnmatched(inputPools, outputPools, a) && Mapping(inputPools, outputPools).error == NoMatchingPool(inputPools[a].name)
  {
    FillFailsIff(inputPools, outputPools, map[]);
  }

  /** No later input pool carries the id of `pools[a]`. */
  predicate LastWithId(pools: seq<NodePool>, a: int)
  {
    0 <= a < |pools| && forall b :: a < b < |pools| ==> pools[b].id != pools[a].id
  }

  lemma IdsCons(pools: seq<NodePool>)
    requires pools != []
    ensures Ids(pools) == {pools[0].id} + Ids(pools[1..])
  {
    assert pools == [pools[0]] + pools[1..];
  }

  /**
   * A filled table adds exactly the input pool ids as keys, keeps the entries
   * of `mapping` no input pool overwrites, and maps the id of the last input
   * pool carrying it to the id of the last output pool named like that pool.
   */
  lemma {:induction false} FillContents(inputPools: seq<NodePool>, outputPools: seq<NodePool>, mapping: map<PoolId, PoolId>)
    requires Fill(inputPools, outputPools, mapping).Ok?
    ensures Fill(inputPools, outputPools, mapping).value.Keys == mapping.Keys + Ids(inputPools)
    ensures forall k :: k in mapping && k !in Ids(inputPools) ==> Fill(inputPools, outputPools, mapping).value[k] == mapping[k]
    ensures forall a :: LastWithId(inputPools, a) ==>
      LastNamed(outputPools, inputPools[a].name).Some?
      && Fill(inputPools, outputPools, mapping).value[inputPools[a].id] == LastNamed(outputPools, inputPools[a].name).value.id
  {
    if inputPools != [] {
      var i := inputPools[0];
      var rest := inputPools[1..];
      var o := LastNamed(outputPools, i.name).value;
      var next := mapping[i.id := o.id];
      FillContents(rest, outputPools, next);
      IdsCons(inputPools);
      var r := Fill(rest, outputPools, next).value;
      forall a | LastWithId(inputPools, a)
        ensures LastNamed(outputPools, inputPools[a].name).Some? && r[inputPools[a].id] == LastNamed(outputPools, inputPools[a].name).value.id
      {
        if a > 0 {
          assert rest[a - 1] == inputPools[a];
          assert LastWithId(rest, a - 1);
        }
      }
    }
  }

  /**
   * The table lines 62-70 build has the input pool ids as its keys, and maps
   * the id of the last input pool carrying it to the id of the last output pool
   * named like that input pool.
   */
  lemma MappingContents(inputPools: seq<NodePool>, outputPools: seq<NodePool>)
    requires Mapping(inputPools, outputPools).Ok?
    ensures Mapping(inputPools, outputPools).value.Keys == Ids(inputPools)
    ensures forall a :: LastWithId(inputPools, a) ==>
      LastNamed(outputPools, inputPools[a].name).Some?
      && Mapping(inputPools, outputPools).value[inputPools[a].id] == LastNamed(outputPools, inputPools[a].name).value.id
  {
    FillContents(inputPools, outputPools, map[]);
  }

  /** No two of `pools` share a name. */
  predicate UniqueNames(pools: seq<NodePool>)
  {
    forall a, b :: 0 <= a < |pools| && 0 <= b < |pools| && pools[a].name == pools[b].name ==> a == b
  }

  /** No two of `pools` share an id. */
  predicate UniqueIds(pools: seq<NodePool>)
  {
    forall a, b :: 0 <= a < |pools| && 0 <= b < |pools| && pools[a].id == pools[b].id ==> a == b
  }

  /** With unique names, the last pool of a name is the only one. */
  lemma LastNamedWhenUnique(pools: seq<NodePool>, p: NodePool)
    requires UniqueNames(pools)
    requires p in pools
    ensures LastNamed(pools, p.name) == Some(p)
  {
    var i :| 0 <= i < |pools| && pools[i] == p;
    var m := LastNamed(pools, p.name);
    assert m.Some? by { assert pools[i].name == p.name; }
    var j :| IsLastNamed(pools, p.name, j) && pools[j] == m.value;
    assert 0 <= j < |pools| && pools[j].name == pools[i].name;
  }

  lemma SameElements<T>(s1: seq<T>, s2: seq<T>)
    requires multiset(s1) == multiset(s2)
    ensures forall x :: x in s1 <==> x in s2
  {
    forall x ensures x in s1 <==> x in s2 {
      assert x in s1 <==> x in multiset(s1);
      assert x in s2 <==> x in multiset(s2);
    }
  }

  lemma HasMatchSame(out1: seq<NodePool>, out2: seq<NodePool>, p: NodePool)
    requires forall o :: o in out1 <==> o in out2
    ensures HasMatch(out1, p) <==> HasMatch(out2, p)
  {
    if HasMatch(out1, p) {
      var j :| 0 <= j < |out1| && out1[j].name == p.name;
      assert out1[j] in out2;
    }
    if HasMatch(out2, p) {
      var j :| 0 <= j < |out2| && out2[j].name == p.name;
      assert out2[j] in out1;
    }
  }

  /** Whether the table can be built does not depend on the order the clusters list their pools in. */
  lemma MappingOkOrderIndependent(in1: seq<NodePool>, out1: seq<NodePool>, in2: seq<NodePool>, out2: seq<NodePool>)
    requires multiset(in1) == multiset(in2) && multiset(out1) == multiset(out2)
    ensures Mapping(in1, out1).Ok? <==> Mapping(in2, out2).Ok?
  {
    SameElements(in1, in2);
    SameElements(out1, out2);
    MappingFailsIff(in1, out1);
    MappingFailsIff(in2, out2);
    forall a | 0 <= a < |in1| ensures HasMatch(out1, in1[a]) <==> HasMatch(out2, in1[a]) {
      HasMatchSame(out1, out2, in1[a]);
    }
    forall b | 0 <= b < |in2| ensures HasMatch(out1, in2[b]) <==> HasMatch(out2, in2[b]) {
      HasMatchSame(out1, out2, in2[b]);
    }
    if !Mapping(in1, out1).Ok? {
      var a :| FirstUnmatched(in1, out1, a);
      assert in1[a] in in2;
    }
    if !Mapping(in2, out2).Ok? {
      var b :| FirstUnmatched(in2, out2, b);
      assert in2[b] in in1;
    }
  }

  /** With unique ids, a built table maps each input pool's id to the id of the last output pool named like it. */
  lemma MappingAtPool(inputPools: seq<NodePool>, outputPools: seq<NodePool>, p: NodePool)
    requires Mapping(inputPools, outputPools).Ok?
    requires UniqueIds(inputPools)
    requires p in inputPools
    ensures LastNamed(outputPools, p.name).Some?
    ensures p.id in Mapping(inputPools, outputPools).value
    ensures Mapping(inputPools, outputPools).value[p.id] == LastNamed(outputPools, p.name).value.id
  {
    MappingContents(inputPools, outputPools);
    var a :| 0 <= a < |inputPools| && inputPools[a] == p;
    assert LastWithId(inputPools, a);
  }

  /**
   * When input ids and output names are unique, the table depends only on
   * which pools the clusters list, not on the order they list them in. (The
   * uniqueness of `in2` and `out2` follows from that of `in1` and `out1` and the
   * multiset equalities; it is stated on both sides for symmetry.)
   */
  lemma MappingOrderIndependent(in1: seq<NodePool>, out1: seq<NodePool>, in2: seq<NodePool>, out2: seq<NodePool>)
    requires multiset(in1) == multiset(in2) && multiset(out1) == multiset(out2)
    requires UniqueIds(in1) && UniqueIds(in2) && UniqueNames(out1) && UniqueNames(out2)
    ensures Mapping(in1, out1).Ok? <==> Mapping(in2, out2).Ok?
    ensures Mapping(in1, out1).Ok? ==> Mapping(in1, out1).value == Mapping(in2, out2).value
  {
    MappingOkOrderIndependent(in1, out1, in2, out2);
    if Mapping(in1, out1).Ok? {
      SameElements(in1, in2);
      SameElements(out1, out2);
      MappingContents(in1, out1);
      MappingContents(in2, out2);
      var m1, m2 := Mapping(in1, out1).value, Mapping(in2, out2).value;
      assert Ids(in1) == Ids(in2);
      forall k | k in m1.Keys ensures m1[k] == m2[k] {
        var p :| p in in1 && p.id == k;
        MappingAtPool(in1, out1, p);
        MappingAtPool(in2, out2, p);
        var o := LastNamed(out1, p.name).value;
        var j :| IsLastNamed(out1, p.name, j) && out1[j] == o;
        LastNamedWhenUnique(out1, o);
        LastNamedWhenUnique(out2, o);
      }
    }
  }

  /**
   * With a name the output cluster lists twice, the table follows the output
   * order: the last pool of that name wins, so reordering the output changes it.
   */
  lemma DuplicateNameLastWins()
    ensures Mapping([NodePool(1, "a")], [NodePool(2, "a"), NodePool(3, "a")]) == Ok(map[1 := 3])
    ensures Mapping([NodePool(1, "a")], [NodePool(3, "a"), NodePool(2, "a")]) == Ok(map[1 := 2])
  {
    assert LastNamedIndex([NodePool(2, "a"), NodePool(3, "a")], "a") == 1;
    assert LastNamedIndex([NodePool(3, "a"), NodePool(2, "a")], "a") == 1;
  }
}
