/** The terrain maps of grid.py and the selection of a map by world type and size. */
module Worlds {
  import opened Terrain

  /** The two errors the selection raises (both a `ValueError` in the source). */
  datatype WorldError = InvalidWorldType | InvalidSize

  datatype Result<T> = Ok(value: T) | Err(error: WorldError)

  /** What the selection hands back, without the background image. */
  datatype World = World(grid: Grid, size: int)

  /** The small map exactly as the literal builds it: lines 37 and 38 separate their pieces with
      commas, so each contributes three rows and the map has 14 rows of uneven length. */
  function Monde1_10(): Grid {
    [
      Rep(PassageVert, 7) + [Arbre, PassageVert, HealingZone],
      [Mur] + [PassageVert] + [Mur] + Rep(PassageVert, 2) + [Mer, PassageVert] + Rep(Arbre, 2) + [PassageVert],
      Rep(PassageVert, 2) + Rep(PassageVert, 8),
      Rep(PassageVert, 6) + [Mer] + Rep(PassageVert, 3),
      [PassageVert, Arbre, PassageVert, Arbre, Mer, Arbre] + Rep(PassageVert, 3) + [Mer],
      [Arbre], Rep(PassageVert, 2), [Arbre, Mer, Arbre] + Rep(PassageVert, 2) + [Mer] + [PassageVert],
      Rep(PassageVert, 7), [Mer], Rep(PassageVert, 2),
      Rep(PassageVert, 10),
      [PassageVert] + [Mur] + Rep(PassageVert, 6) + Rep(Mur, 2),
      [HealingZone] + [Mur] + Rep(PassageVert, 2) + Rep(Mer, 2) + Rep(PassageVert, 4)
    ]
  }

  /** The large map, 17 rows of 17 cells. */
  function Monde1_17(): Grid {
    [
      Rep(PassageVert, 13) + [Arbre, Mur, HealingZone, PassageVert],
      Rep(PassageVert, 13) + [Arbre, Mur, PassageVert, PassageVert],
      Rep(PassageVert, 3) + [Mur, Arbre] + Rep(PassageVert, 8) + [Arbre, Mur, Mur, PassageVert],
      Rep(Mur, 4) + [Arbre] + Rep(PassageVert, 4) + [Mer] + Rep(PassageVert, 3) + Rep(Arbre, 3) + [PassageVert],
      Rep(Arbre, 5) + Rep(PassageVert, 4) + Rep(Mer, 2) + Rep(PassageVert, 6),
      Rep(PassageVert, 17),
      Rep(PassageVert, 6) + Rep(Arbre, 4) + Rep(PassageVert, 7),
      Rep(PassageVert, 2) + [Arbre] + Rep(PassageVert, 3) + [Arbre, Mer, Mer, Arbre] + Rep(PassageVert, 6) + [Mer],
      Rep(PassageVert, 2) + [Arbre] + Rep(PassageVert, 4) + [Mer, Mer, Arbre] + Rep(PassageVert, 5) + [Mer] + [HealingZone],
      Rep(Arbre, 3) + Rep(PassageVert, 3) + [Arbre, Mer, Arbre, Arbre] + Rep(PassageVert, 4) + [Mer] + Rep(PassageVert, 2),
      Rep(PassageVert, 6) + [Arbre] + Rep(PassageVert, 6) + [Mer] + Rep(PassageVert, 3),
      Rep(PassageVert, 17),
      Rep(PassageVert, 2) + Rep(Mur, 2) + Rep(PassageVert, 8) + Rep(Arbre, 5),
      [Arbre] + Rep(PassageVert, 2) + [Mur] + Rep(PassageVert, 8) + [Arbre] + Rep(Mur, 4),
      Rep(Arbre, 2) + Rep(PassageVert, 10) + [Arbre] + [Mur] + Rep(PassageVert, 3),
      Rep(PassageVert, 3) + [Mur] + Rep(PassageVert, 4) + [Mer] + Rep(PassageVert, 8),
      Rep(PassageVert, 2) + [HealingZone] + [Mur] + Rep(PassageVert, 3) + Rep(Mer, 3) + Rep(PassageVert, 7)
    ]
  }

  /** World type 2 is an alias of world type 1 for both sizes. */
  function Monde2_10(): Grid { Monde1_10() }
  function Monde2_17(): Grid { Monde1_17() }

  /** `Grill.generer_monde`: the size is tested first, then the world type. */
  function GenererMonde(mondeType: int, taille: string): (r: Result<World>)
    ensures r.Ok? <==> (taille == "petite" || taille == "grande") && (mondeType == 1 || mondeType == 2)
    ensures r == Err(InvalidSize) <==> taille != "petite" && taille != "grande"
    ensures r.Ok? ==> r.value.size == (if taille == "grande" then 17 else 10)
  {
    if taille == "petite" then
      if mondeType == 1 then Ok(World(Monde1_10(), 10))
      else if mondeType == 2 then Ok(World(Monde2_10(), 10))
      else Err(InvalidWorldType)
    else if taille == "grande" then
      if mondeType == 1 then Ok(World(Monde1_17(), 17))
      else if mondeType == 2 then Ok(World(Monde2_17(), 17))
      else Err(InvalidWorldType)
    else Err(InvalidSize)
  }

  /** The large world is the 17 by 17 map its docstring announces, for both world types. */
  lemma {:induction false} GrandeIsSquare(mondeType: int)
    requires mondeType == 1 || mondeType == 2
    ensures GenererMonde(mondeType, "grande") == Ok(World(Monde1_17(), 17))
    ensures IsSquare(Monde1_17(), 17)
  {
    var g := Monde1_17();
    forall r | 0 <= r < 17 ensures |g[r]| == 17 {
      if r < 9 {
        assert r == 0 || r == 1 || r == 2 || r == 3 || r == 4 || r == 5 || r == 6 || r == 7 || r == 8;
      } else {
        assert r == 9 || r == 10 || r == 11 || r == 12 || r == 13 || r == 14 || r == 15 || r == 16;
      }
    }
  }

  /** The small world has size 10, but its map has 14 rows, some of them shorter than 10 cells,
      so it is not the 10 by 10 map its docstring announces. */
  lemma {:induction false} PetiteIsRagged(mondeType: int)
    requires mondeType == 1 || mondeType == 2
    ensures GenererMonde(mondeType, "petite") == Ok(World(Monde1_10(), 10))
    ensures |Monde1_10()| == 14
    ensures |Monde1_10()[5]| == 1 && |Monde1_10()[6]| == 2 && |Monde1_10()[7]| == 7
    ensures |Monde1_10()[8]| == 7 && |Monde1_10()[9]| == 1 && |Monde1_10()[10]| == 2
    ensures !IsSquare(Monde1_10(), 10)
  {
  }

  /** World type 2 changes nothing: it selects the very map of world type 1. */
  lemma {:induction false} SecondWorldIsFirst(taille: string)
    ensures GenererMonde(2, taille) == GenererMonde(1, taille)
  {
  }

  /** Both errors, with their precedence: a bad size is reported whatever the world type. */
  lemma {:induction false} SelectionErrors(mondeType: int, taille: string)
    ensures taille != "petite" && taille != "grande" ==> GenererMonde(mondeType, taille) == Err(InvalidSize)
    ensures (taille == "petite" || taille == "grande") && mondeType != 1 && mondeType != 2 ==>
              GenererMonde(mondeType, taille) == Err(InvalidWorldType)
  {
  }
}
