/**
 * JSON-like values as the source stores them in `task_info` and `raw_data` columns and
 * builds for webhook payloads: dictionaries, lists and scalar leaves.
 */
module JsonTree {
  datatype Json =
    | JNull
    | JBool(b: bool)
    | JInt(i: int)
    | JStr(s: string)
    | JArr(items: seq<Json>)
    | JObj(fields: map<string, Json>)

  /** The value Python's `dict.get(key)` yields: `None` (here `JNull`) when the key is absent. */
  function Get(m: map<string, Json>, key: string): Json
  {
    if key in m then m[key] else JNull
  }

  /** Python truthiness of a JSON value: `None`, `False`, `0`, `""`, `[]` and `{}` are false. */
  predicate IsTruthy(j: Json)
  {
    match j
    case JNull => false
    case JBool(b) => b
    case JInt(i) => i != 0
    case JStr(s) => s != ""
    case JArr(items) => items != []
    case JObj(fields) => fields != map[]
  }

  /** Both sides hold a dictionary under `k`: the case in which the deep merge recurses. */
  predicate BothObjects(target: map<string, Json>, updates: map<string, Json>, k: string)
  {
    k in target && k in updates && target[k].JObj? && updates[k].JObj?
  }

  /**
   * The recursive dictionary merge: under a key where both sides hold a dictionary the
   * two are merged again, otherwise the update's value wins; keys only in `target` stay.
   */
  function DeepMerge(target: map<string, Json>, updates: map<string, Json>): map<string, Json>
    decreases JObj(updates)
  {
    map k | k in target.Keys + updates.Keys ::
      if BothObjects(target, updates, k) then JObj(DeepMerge(target[k].fields, updates[k].fields))
      else if k in updates then updates[k]
      else target[k]
  }

  /** Merging a dictionary into itself changes nothing. */
  lemma {:induction false} DeepMergeSelf(m: map<string, Json>)
    ensures DeepMerge(m, m) == m
    decreases JObj(m)
  {
    forall k | k in m && m[k].JObj?
      ensures DeepMerge(m[k].fields, m[k].fields) == m[k].fields
    {
      DeepMergeSelf(m[k].fields);
    }
  }

  /** Applying the same update twice is the same as applying it once. */
  lemma {:induction false} DeepMergeIdempotent(target: map<string, Json>, updates: map<string, Json>)
    ensures DeepMerge(DeepMerge(target, updates), updates) == DeepMerge(target, updates)
    decreases JObj(updates)
  {
    var once := DeepMerge(target, updates);
    forall k | k in updates && updates[k].JObj?
      ensures once[k].JObj? && DeepMerge(once[k].fields, updates[k].fields) == once[k].fields
    {
      if BothObjects(target, updates, k) {
        DeepMergeIdempotent(target[k].fields, updates[k].fields);
      } else {
        DeepMergeSelf(updates[k].fields);
      }
    }
  }

  /** An empty update leaves the target as it is. */
  lemma DeepMergeEmptyUpdate(target: map<string, Json>)
    ensures DeepMerge(target, map[]) == target
  {
  }

  /** Into an empty target, the merge is the update itself. */
  lemma DeepMergeEmptyTarget(updates: map<string, Json>)
    ensures DeepMerge(map[], updates) == updates
  {
  }
}
