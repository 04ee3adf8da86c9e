/** Real name to pseudonym, or back. */
module Mappings {
  import opened Unicode

  type Mapping = map<string, string>

  /** Equal, case aside. */
  predicate SameFold(u: Tables, a: string, b: string) { Fold(u, a) == Fold(u, b) }

  predicate HasFoldKey(u: Tables, m: Mapping, key: string) {
    exists k :: k in m && SameFold(u, k, key)
  }

  /** No two keys differ in case only. */
  ghost predicate FoldDistinct(u: Tables, m: Mapping) {
    forall k, l :: k in m && l in m && SameFold(u, k, l) ==> k == l
  }

  /** n maps what m maps, to the same. */
  ghost predicate Extends(m: Mapping, n: Mapping) {
    forall k :: k in m ==> k in n && n[k] == m[k]
  }
}
