/** Binding statements name the byte strings that were hashed: an unrestricted collision always
    exists, so "equal or a collision" only means something over such explicit sets. */
module Collisions {
  import opened Binary

  predicate CollisionFree(sha: Bytes -> Digest, xs: set<Bytes>, ys: set<Bytes>) {
    forall x, y :: x in xs && y in ys && sha(x) == sha(y) ==> x == y
  }

  /** Two different byte strings, one hashed on each side, with one digest. */
  predicate Collide(sha: Bytes -> Digest, xs: set<Bytes>, ys: set<Bytes>) {
    exists x, y :: x in xs && y in ys && x != y && sha(x) == sha(y)
  }

  lemma CollisionFreeParts(sha: Bytes -> Digest, xs: set<Bytes>, ys: set<Bytes>, xs': set<Bytes>, ys': set<Bytes>)
    requires CollisionFree(sha, xs, ys)
    requires xs' <= xs && ys' <= ys
    ensures CollisionFree(sha, xs', ys')
  {
  }
}
