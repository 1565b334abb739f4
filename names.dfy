/**
 * The check that both clusters have the same node-pool names
 * (project-copier.py:56-60), as written and as evidently intended.
 */
module NameCheck {
  import opened Outcomes
  import opened Records

  function Names(pools: seq<NodePool>): (r: seq<string>)
    ensures |r| == |pools|
    ensures forall k :: 0 <= k < |pools| ==> r[k] == pools[k].name
  {
    if pools == [] then [] else Names(pools[..|pools| - 1]) + [pools[|pools| - 1].name]
  }

  /** Python's `<=` on `str`: lexicographic by code point. */
  predicate Below(a: string, b: string)
  {
    a == [] || (b != [] && (a[0] < b[0] || (a[0] == b[0] && Below(a[1..], b[1..]))))
  }

  lemma {:induction false} BelowTotal(a: string, b: string)
    ensures Below(a, b) || Below(b, a)
  {
    if a != [] && b != [] && a[0] == b[0] {
      BelowTotal(a[1..], b[1..]);
    }
  }

  lemma {:induction false} BelowReflexive(a: string)
    ensures Below(a, a)
  {
    if a != [] {
      BelowReflexive(a[1..]);
    }
  }

  lemma {:induction false} BelowAntisymmetric(a: string, b: string)
    requires Below(a, b) && Below(b, a)
    ensures a == b
  {
    if a != [] {
      BelowAntisymmetric(a[1..], b[1..]);
      assert a == [a[0]] + a[1..] && b == [b[0]] + b[1..];
    }
  }

  lemma {:induction false} BelowTransitive(a: string, b: string, c: string)
    requires Below(a, b) && Below(b, c)
    ensures Below(a, c)
  {
    if a != [] && a[0] == b[0] && b[0] == c[0] {
      BelowTransitive(a[1..], b[1..], c[1..]);
    }
  }

  predicate Sorted(s: seq<string>)
  {
    forall i, j :: 0 <= i < j < |s| ==> Below(s[i], s[j])
  }

  /** `x` inserted into the sorted `s` before the first element it is below. */
  function Insert(x: string, s: seq<string>): (r: seq<string>)
    requires Sorted(s)
    ensures Sorted(r)
    ensures multiset(r) == multiset(s) + multiset{x}
  {
    if s == [] then [x]
    else if Below(x, s[0]) then
      assert forall j :: 0 < j < |s| ==> Below(x, s[j]) by {
        forall j | 0 < j < |s| ensures Below(x, s[j]) { BelowTransitive(x, s[0], s[j]); }
      }
      [x] + s
    else
      BelowTotal(x, s[0]);
      var t := Insert(x, s[1..]);
      assert s == [s[0]] + s[1..];
      TailAbove(x, s, t);
      [s[0]] + t
  }

  /** Everything `Insert` puts after the head of `s` is above that head. */
  lemma TailAbove(x: string, s: seq<string>, t: seq<string>)
    requires Sorted(s) && s != [] && Below(s[0], x)
    requires multiset(t) == multiset(s[1..]) + multiset{x}
    ensures forall j :: 0 <= j < |t| ==> Below(s[0], t[j])
  {
    forall j | 0 <= j < |t| ensures Below(s[0], t[j]) {
      assert t[j] in multiset(t);
      if t[j] != x {
        assert t[j] in multiset(s[1..]);
        var k :| 0 <= k < |s[1..]| && s[1..][k] == t[j];
        assert s[k + 1] == t[j];
      }
    }
  }

  /** Python's `sorted`: the names in ascending order. */
  function Sort(s: seq<string>): (r: seq<string>)
    ensures Sorted(r)
    ensures multiset(r) == multiset(s)
  {
    if s == [] then []
    else
      assert s == s[..|s| - 1] + [s[|s| - 1]];
      Insert(s[|s| - 1], Sort(s[..|s| - 1]))
  }

  /** The head of a sorted list is below every name the list holds. */
  lemma HeadIsLeast(s: seq<string>, x: string)
    requires Sorted(s) && x in multiset(s)
    ensures s != [] && Below(s[0], x)
  {
    var i :| 0 <= i < |s| && s[i] == x;
    if i == 0 { BelowReflexive(x); }
  }

  lemma DropHead(s: seq<string>)
    requires s != []
    ensures multiset(s[1..]) == multiset(s) - multiset{s[0]}
  {
    assert s == [s[0]] + s[1..];
  }

  /** Two sorted lists holding the same names are the same list. */
  lemma {:induction false} SortedUnique(a: seq<string>, b: seq<string>)
    requires Sorted(a) && Sorted(b)
    requires multiset(a) == multiset(b)
    ensures a == b
  {
    if a == [] {
      assert |multiset(b)| == 0;
    } else {
      assert a[0] in multiset(a);
      HeadIsLeast(b, a[0]);
      assert b[0] in multiset(b);
      HeadIsLeast(a, b[0]);
      BelowAntisymmetric(a[0], b[0]);
      DropHead(a);
      DropHead(b);
      SortedUnique(a[1..], b[1..]);
      assert a == [a[0]] + a[1..] && b == [b[0]] + b[1..];
    }
  }

  /**
   * `list.sort()` sorts its receiver in place and returns `None`; lines 56-57
   * keep that return value, not the sorted list.
   */
  function SortReturn(s: seq<string>): Option<seq<string>>
  {
    None
  }

  /** Lines 56-60 as written. */
  function NameCheckAsWritten(inputPools: seq<NodePool>, outputPools: seq<NodePool>): (r: Outcome<MigrationError>)
    ensures r == Pass
  {
    var inputNames := SortReturn(Names(inputPools));
    var outputNames := SortReturn(Names(outputPools));
    if inputNames != outputNames then Fail(NodePoolsMismatch(Names(inputPools), Names(outputPools))) else Pass
  }

  /**
   * Lines 56-60 as intended: compare the sorted name lists. It passes only
   * when both clusters list the same names, and a mismatch reports both
   * clusters' names in ascending order.
   */
  function NameCheck(inputPools: seq<NodePool>, outputPools: seq<NodePool>): (r: Outcome<MigrationError>)
    ensures r.Pass? ==> multiset(Names(inputPools)) == multiset(Names(outputPools))
    ensures r.Fail? ==> r.error.NodePoolsMismatch? && r.error.inputNames != r.error.outputNames
    ensures r.Fail? ==> Sorted(r.error.inputNames) && multiset(r.error.inputNames) == multiset(Names(inputPools))
    ensures r.Fail? ==> Sorted(r.error.outputNames) && multiset(r.error.outputNames) == multiset(Names(outputPools))
  {
    var inputNames := Sort(Names(inputPools));
    var outputNames := Sort(Names(outputPools));
    if inputNames != outputNames then Fail(NodePoolsMismatch(inputNames, outputNames)) else Pass
  }

  /** The intended check passes exactly when both clusters list the same names, counted with multiplicity, in any order. */
  lemma NameCheckPassesIff(inputPools: seq<NodePool>, outputPools: seq<NodePool>)
    ensures NameCheck(inputPools, outputPools).Pass? <==> multiset(Names(inputPools)) == multiset(Names(outputPools))
  {
    if multiset(Names(inputPools)) == multiset(Names(outputPools)) {
      SortedUnique(Sort(Names(inputPools)), Sort(Names(outputPools)));
    }
  }

  /** A pair of clusters whose names differ, which the check as written lets through. */
  lemma NameCheckAsWrittenMissesMismatch()
    ensures NameCheckAsWritten([NodePool(1, "a")], [NodePool(2, "a"), NodePool(3, "b")]).Pass?
    ensures NameCheck([NodePool(1, "a")], [NodePool(2, "a"), NodePool(3, "b")]).Fail?
  {
    var outputs := [NodePool(2, "a"), NodePool(3, "b")];
    NameCheckPassesIff([NodePool(1, "a")], outputs);
    assert "b" in multiset(Names(outputs));
  }
}
