# project-copier: node-pool reconciliation and project copying

`project-copier.py` moves project definitions (per-node-pool GPU, CPU and
memory quotas) from one cluster to another. This model covers its core, lines
56-86, which run in three steps:

1. **Name check** (lines 56-60). Both clusters should list the same node-pool
   names.
2. **Translation table** (lines 62-70). Each input pool's id is mapped to the
   id of the output pool with the same name.
3. **Project copy** (lines 72-86). Each project is shallow-copied. Its
   `nodePoolsResources` list is rebuilt from shallow copies of its entries.
   In each copied entry, `nodePool.id` is translated and `cpu` and `memory`
   are deleted. Then `cpu` and `memory` are deleted from the project's
   `resources`.

The model is layered:

- `outcomes.dfy` (`Outcomes`) defines `Option`, `Result` and `Outcome` (pass
  or fail).
- `records.dfy` (`Records`) holds the records as values:
  - `NodePool` and the `Json` values carried through untouched.
  - `EntryValue` and `ProjectValue`.
  - `MigrationError`: one constructor for each way lines 56-86 stop on records
    of the modelled shape.
- `names.dfy` (`NameCheck`) has two versions of the name check:
  - as written;
  - as intended, built on a model of Python's `sorted` over `str`.
- `mapping.dfy` (`PoolMapping`) has the translation table:
  - a specification function `Mapping`;
  - the two loops as methods, `MatchingPool` and `BuildMapping`, proved equal
    to it (the inner loop through `Scan`, its running match);
  - what the table contains, and when its contents do not depend on order.
- `transform.dfy` (`Transform`) computes the copied projects on values, with
  every KeyError raised by the table lookup and the `del`s.
- `migration.dfy` (`Migration`) chains the three steps on values.
- `copier.dfy` (`Copier`) runs lines 72-86 on heap objects:
  - Python's `copy` is shallow, so a copied project shares its `resources`
    dictionary with the source project.
  - Each copied entry shares its `nodePool` dictionary with the source entry.
  - Those two shared dictionaries are the classes `Resources` and `PoolRef`.
  - The methods change them in place, under `modifies` clauses.
  - Every method is proved against the value-level functions.
  - `SourceSeesCopy` states what the source records show afterwards.

Points where the code behaves differently from what one might expect:

- With duplicate output names, the **last** same-named output pool wins, not
  the first. The inner loop has no `break`. `DuplicateNameLastWins` shows
  this.
- An input pool without a match ends the run, rather than its id being left
  out of the table. The script prints a message and then subscripts `None`.
  This is `NoMatchingPool`.
- The intended name check compares sorted name *lists*. Names therefore count
  with multiplicity: it is a multiset equality, not a set equality.
- Because the copies are shallow, two of their changes reach the source
  records: the `nodePool.id` rewrite (line 78) and the deletions from
  `resources` (lines 83-84). The deletions from each copied entry (lines
  79-80) do not: `copy(npr)` is a new dictionary. `Copier` models this
  aliasing rather than pure copies.

## Model

| member | source | states |
|---|---|---|
| NameCheck.Sort | project-copier.py:56-57 | the result is sorted under Python's `str` order (`Below`) and holds exactly the names given, as a multiset |
| NameCheck.SortedUnique | project-copier.py:56-58 | two sorted lists holding the same names are equal, so comparing sorted lists compares name multisets |
| NameCheck.NameCheckAsWritten | project-copier.py:56-60 | as written, the check always passes: `.sort()` returns `None` on both sides |
| NameCheck.NameCheckAsWrittenMissesMismatch | project-copier.py:56-60 | clusters named `["a"]` and `["a","b"]` get past the written check, but the intended check stops them |
| NameCheck.NameCheck | project-copier.py:56-60 | the intended check passes only when both clusters list the same names; a mismatch reports each cluster's names sorted ascending, and the two lists differ |
| NameCheck.NameCheckPassesIff | project-copier.py:56-60 | the intended check passes exactly when both clusters list the same names with the same multiplicities, in any order |
| PoolMapping.LastNamed | project-copier.py:64-67 | `None` exactly when no output pool has the name; otherwise a pool with that name and no later pool of that name |
| PoolMapping.Fill | project-copier.py:63-70 | filling from a table adds exactly the input pool ids as keys, or fails naming an input pool that has no match |
| PoolMapping.Mapping | project-copier.py:62-70 | the built table's keys are exactly the input pool ids; a failure names an input pool that has no match |
| PoolMapping.ScanIsLastNamed | project-copier.py:64-67 | the match the inner loop keeps while it scans (a later same-named pool replacing an earlier one) is the last pool of that name, as `LastNamed` characterises it |
| PoolMapping.MatchingPool | project-copier.py:64-67 | the inner search loop ends holding the last output pool with the input pool's name, or `None` |
| PoolMapping.BuildMapping | project-copier.py:62-70 | the outer loop returns the table `Mapping` specifies, or stops at the same missing match |
| PoolMapping.FillFailsIff | project-copier.py:63-70 | filling succeeds exactly when every input pool has a same-named output pool; otherwise it fails naming the first input pool without one |
| PoolMapping.MappingFailsIff | project-copier.py:62-70 | the table is built exactly when every input pool has a same-named output pool; otherwise the run stops at the first input pool that has none |
| PoolMapping.FillContents | project-copier.py:63-70 | filling adds exactly the input ids as keys and keeps earlier entries no input id overwrites; the last input pool with an id maps it to the last same-named output pool |
| PoolMapping.MappingContents | project-copier.py:62-70 | the built table's keys are exactly the input pool ids; the last input pool carrying an id maps it to the id of the last output pool with that pool's name |
| PoolMapping.MappingAtPool | project-copier.py:63-70 | with unique input ids, each input pool's id maps to the id of the last output pool with the same name |
| PoolMapping.LastNamedWhenUnique | project-copier.py:64-67 | when output names are unique, the match found for a pool's name is that pool itself |
| PoolMapping.MappingOkOrderIndependent | project-copier.py:62-70 | whether the table can be built depends only on which pools the clusters list, not on their order |
| PoolMapping.MappingOrderIndependent | project-copier.py:62-70 | with unique input ids and unique output names, reordering either cluster's pools gives the same table |
| PoolMapping.DuplicateNameLastWins | project-copier.py:64-67 | with one name listed twice by the output cluster, the table maps to the later pool, so reordering the output changes the table |
| Transform.Del | project-copier.py:79-80 | `del d[key]` succeeds exactly when `key` is present; it removes that key and keeps every other key and value; otherwise it raises KeyError(key) |
| Transform.DropCpuMemory | project-copier.py:83-84 | succeeds exactly when both `cpu` and `memory` are present; leaves the other keys with their values; a KeyError names `cpu` first, then `memory` |
| Transform.EachInOrder | project-copier.py:72-86 | a loop appending one result per element, in order, succeeds exactly when every step succeeds; otherwise it stops with the error of the first failing step |
| Transform.TransformEntry | project-copier.py:77-80 | an entry is copied exactly when its pool id is mapped and it has `cpu` and `memory`; the copy keeps the pool name and gets the mapped id; the unmapped-id KeyError comes before any deletion |
| Transform.TransformEntries | project-copier.py:75-81 | the new entry list has one copy per entry, in input order; the first failing entry stops the run with its error |
| Transform.EntriesFailAt | project-copier.py:75-81 | if entry `k` is the first to fail, the entry loop stops with entry `k`'s error |
| Transform.TransformProject | project-copier.py:74-84 | a project is copied exactly when its entries are and its `resources` has `cpu` and `memory`; other top-level keys are kept; `resources` loses exactly `cpu` and `memory`; entry errors come first |
| Transform.TransformProjectSteps | project-copier.py:74-84 | a project's outcome is read off its entry loop, then its `resources` deletions, in that order |
| Transform.TransformProjects | project-copier.py:72-86 | `new_projects` holds one copy per project, in order; the first failing project stops the run with its error |
| Transform.ProjectsAllOk | project-copier.py:72-86 | when every project's copy succeeds, the result lists those copies in input order |
| Transform.ProjectsFailAt | project-copier.py:72-86 | if project `i` is the first to fail, the run stops with project `i`'s error |
| Transform.TransformedShape | project-copier.py:74-84 | a copied project keeps its top-level keys and the number and order of its entries; each entry gets the mapped pool id under the same name; `cpu` and `memory` are gone from every entry and from `resources`, and every other key keeps its value |
| Transform.UnmappedPoolAborts | project-copier.py:78 | an entry whose pool id is not a key of the table stops the run, and no list is produced |
| Transform.TransformProjectsRaisesKeyError | project-copier.py:72-86 | the copy loop can only raise a KeyError: an unmapped pool id or a missing `cpu`/`memory` |
| Migration.Migrate | project-copier.py:56-86 | with the intended check, the run gives one copy per project, or stops at the name check or with a KeyError of the copy loop, never at the lookup of lines 68-70 |
| Migration.MigrateAsWritten | project-copier.py:56-86 | as written, the run gives one copy per project, or stops at a missing match or a KeyError, never at the name check |
| Migration.MigrateSteps | project-copier.py:56-86 | with the intended check, a failed check is the run's error; a passed check always lets the table be built, and the run is then the copy loop over it |
| Migration.MigrateAsWrittenOutcome | project-copier.py:56-86 | as written, the run is the table followed by the copy loop; it stops with a missing match exactly when some input pool has no same-named output pool |
| Migration.NamesAgreeMappingOk | project-copier.py:56-70 | when both clusters list the same names, the table is always built |
| Migration.MigrateOutcome | project-copier.py:56-86 | with the intended check, the run stops at the check, with both sorted name lists, exactly when the names differ; otherwise the table is built and the outcome is the copy loop's; the missing-match failure cannot happen |
| Migration.MigratedEntryPool | project-copier.py:62-86 | after a successful run, each copied entry of an input-cluster pool points at the last output pool with that pool's name, and the project and entry counts are unchanged |
| Migration.AsWrittenReachesLookupFailure | project-copier.py:56-70 | as written, input pool `b` and output pool `a` pass the check; the run then fails at the lookup of line 70 |
| Migration.IntendedStopsAtCheck | project-copier.py:56-60 | with the intended check, the same clusters stop at the name check |
| Copier.Resources.Delete | project-copier.py:83-84 | `del resources[key]` in place: it succeeds exactly when the key is present and leaves `Del` of the old contents; otherwise KeyError and nothing changes |
| Copier.CopyEntry | project-copier.py:77-80 | the copied entry holds `TransformEntry` of the source entry, or fails with its error; it shares the `nodePool` object, so the source entry's pool id is rewritten too |
| Copier.CopyEntries | project-copier.py:75-81 | the fresh entry list holds `TransformEntries` of the source entries, index by index, or fails with its error; each copy shares its `nodePool` object with its source entry |
| Copier.CopyProject | project-copier.py:74-84 | the copied project holds `TransformProject` of the source project, or fails with its error; it shares `resources` and every `nodePool` object with the source |
| Copier.CopyProjectAmong | project-copier.py:73-86 | copying one project leaves every later source project and every earlier copy holding what it held |
| Copier.MigrateProjects | project-copier.py:72-86 | `new_projects` holds `TransformProjects` of the source projects, index by index, or fails with its error; each copy shares its objects with its source project |
| Copier.SourceSeesCopy | project-copier.py:74-84 | because the copy is shallow, a source project then shows the copy's `resources` without `cpu` and `memory`, and the copy's translated pool ids; its entries' other keys are untouched |
| Copier.Run | project-copier.py:56-86 | the whole run on objects returns what `Migration.Migrate` computes from the source values, or its error |

## Left out

- HTTP access in `ClusterData` (project-copier.py:11-46) is left out: the token request, the listings and the `raise_for_status` failures. It is network I/O through `requests`. The projects and both pool lists are parameters.
- `putProjects` (project-copier.py:35-40) is left out. The list that `Copier.Run` and `Migration.Migrate` return is what it would submit, in that order. A POST failing partway is not modelled.
- Argument parsing and the hard-coded cluster ids and credentials (project-copier.py:6-9, 49-50) are configuration.
- The `print` diagnostics (project-copier.py:59, 69) are logging only. The run ends in the same way without them.
- JSON decoding is left out:
  - Projects and entries are typed records that have the keys the script reads (`resources`, `nodePoolsResources`, `nodePool`, and the `nodePool`'s `id`). The pools the clusters list have the `id` and `name` that lines 56-70 read.
  - A record missing one of those keys would raise a KeyError that the model cannot express.
  - Pool ids are integers. Other values of projects and entries are carried as `Json`, whose numbers are exact decimals (a mantissa and a power of ten): floating-point rounding is not modelled.
- An entry's `nodePool` object is modelled with its `id` and `name` only. Any other key that object carries is not represented, so the model does not show it being kept.
- Copier.MigrateProjects requires that no two projects share a `resources` or `nodePool` object, and that no two entries share a `nodePool` object. Decoded JSON is a tree, so this always holds for the script's input. Shared objects across records are not modelled.
- Copier.CopyEntry makes the copied entry a value, not a new object. Nothing else refers to that dictionary before it is appended, so no aliasing is lost. The same goes for the copied project in Copier.CopyProject.
- Copier.Run uses the intended name check, `NameCheck.NameCheck`. The check as written is `NameCheck.NameCheckAsWritten`, and `Migration.MigrateAsWritten` chains it. Once the intended check passes the lookup failure of lines 68-70 cannot happen (`Migration.MigrateSteps`), so `Run` has no branch for it.
- PoolMapping.MappingOrderIndependent requires unique input ids and unique output names. With duplicate output names the table depends on output order, as `PoolMapping.DuplicateNameLastWins` shows.

## Findings

| source | as written | input that shows it | evidently intended | confidence | as-written member | corrected member |
|---|---|---|---|---|---|---|
| project-copier.py:56-60 | `list.sort()` sorts in place and returns `None`, so both sides are `None` and the mismatch check never fires. A mismatch then surfaces as a failed lookup at line 70, or not at all when the input names are a subset of the output names. | input pools named `["a"]`, output pools named `["a", "b"]`: the check passes. Input `[b]` with output `[a]`: the run fails at the lookup instead of at the check. | compare `sorted(...)` of both name lists, and stop with both lists when they differ | not executed | NameCheck.NameCheckAsWrittenMissesMismatch | NameCheck.NameCheckPassesIff |
