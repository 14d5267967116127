/** Terrain kinds of the board and the passability rules every unit shares. */
module Terrain {

  /** The five terrain strings the maps use: "passage_vert", "arbre", "mur", "mer", "healing_zone". */
  datatype Terrain = PassageVert | Arbre | Mur | Mer | HealingZone

  /** A terrain map, indexed as grid[y][x] (row first). */
  type Grid = seq<seq<Terrain>>

  /** `k` copies of one terrain: the Python list repetition `[t] * k`. */
  function Rep(t: Terrain, k: nat): (r: seq<Terrain>)
    ensures |r| == k
    ensures forall i :: 0 <= i < k ==> r[i] == t
  {
    seq(k, _ => t)
  }

  /** `n` rows of `n` cells each. */
  predicate IsSquare(g: Grid, n: int) {
    |g| == n && forall r :: 0 <= r < |g| ==> |g[r]| == n
  }

  /** The obstacle list `["mur", "arbre", "mer"]` that stops every unit but the wizard. */
  predicate Blocks(t: Terrain) {
    t == Mur || t == Arbre || t == Mer
  }

  /** The wizard's obstacle list `["mur", "arbre"]`: it walks on water. */
  predicate BlocksWizard(t: Terrain) {
    t == Mur || t == Arbre
  }

  /** Whatever stops the wizard stops everyone; water is the only difference. */
  lemma {:induction false} WizardObstaclesAreObstacles(t: Terrain)
    ensures BlocksWizard(t) ==> Blocks(t)
    ensures Blocks(t) && !BlocksWizard(t) <==> t == Mer
  {
  }
}
