/**
 * The records the copier reads from and writes to the cluster API, as values.
 *
 * A project and each of its node-pool-resource entries are JSON objects. The
 * copier looks at a few keys of them by name (`resources`, `nodePoolsResources`,
 * `nodePool`, `cpu`, `memory`); those keys get their own fields here and every
 * other key is kept, untouched, in a `map<string, Json>`.
 */
module Records {

  /** A node pool's cluster-local identifier. */
  type PoolId = int

  /** Any JSON value the copier carries over without looking into it. */
  datatype Json =
    | Null
    | Bool(b: bool)
    | Number(mantissa: int, exponent: int)  // mantissa * 10^exponent: integer and fractional quotas alike
    | Str(s: string)
    | Array(items: seq<Json>)
    | Object(members: map<string, Json>)

  /** A node pool as listed by a cluster, and the `nodePool` object of an entry. */
  datatype NodePool = NodePool(id: PoolId, name: string)

  /** One element of a project's `nodePoolsResources`: its `nodePool` and all its other keys. */
  datatype EntryValue = EntryValue(nodePool: NodePool, fields: map<string, Json>)

  /**
   * A project: its top-level keys other than `resources` and `nodePoolsResources`
   * (`attrs`), the keys of its `resources` object, and its entries in list order.
   */
  datatype ProjectValue = ProjectValue(attrs: map<string, Json>, resources: map<string, Json>, entries: seq<EntryValue>)

  /** Why a run stops. The source raises on each of these and ends the process. */
  datatype MigrationError =
    | NodePoolsMismatch(inputNames: seq<string>, outputNames: seq<string>) // the ValueError of the name check
    | NoMatchingPool(name: string)  // an input pool with no same-named output pool: `None` is subscripted
    | UnmappedPool(id: PoolId)      // an entry's pool id is not a key of the mapping: KeyError
    | MissingKey(key: string)       // `del` of a key the object does not have: KeyError

  /** The keys the copier deletes, in the order it deletes them. */
  const Cpu := "cpu"
  const Memory := "memory"
}
