/**
 * The built-in exercise catalogue (constants/exercises.ts): six body-part
 * tags, thirteen exercises, and the lookup by id.
 */
module Exercises {
  import opened Wrappers

  // The values of BODY_PARTS.
  const Chest: string := "胸"
  const Back: string := "背中"
  const Legs: string := "脚"
  const Shoulders: string := "肩"
  const Arms: string := "腕"
  const AbsPart: string := "腹筋"

  const BodyParts: seq<string> := [Chest, Back, Legs, Shoulders, Arms, AbsPart]

  datatype Exercise = Exercise(id: string, name: string, part: string)

  /** EXERCISES, in declaration order. */
  const Catalogue: seq<Exercise> := [
    Exercise("bp", "ベンチプレス", Chest),
    Exercise("dp", "ダンベルプレス", Chest),
    Exercise("fly", "ダンベルフライ", Chest),
    Exercise("dl", "デッドリフト", Back),
    Exercise("row", "ベントオーバーロウ", Back),
    Exercise("lat", "ラットプルダウン", Back),
    Exercise("sq", "スクワット", Legs),
    Exercise("lp", "レッグプレス", Legs),
    Exercise("ohp", "ショルダープレス", Shoulders),
    Exercise("slr", "サイドレイズ", Shoulders),
    Exercise("curl", "アームカール", Arms),
    Exercise("tri", "トライセプス・エクステンション", Arms),
    Exercise("abs", "クランチ", AbsPart)
  ]

  /** No two entries share an id. */
  predicate DistinctIds(xs: seq<Exercise>)
  {
    forall i, j :: 0 <= i < j < |xs| ==> xs[i].id != xs[j].id
  }

  /** Position of the first entry carrying `id`, or -1. */
  function FirstIndexOfId(xs: seq<Exercise>, id: string): (k: int)
    ensures -1 <= k < |xs|
    ensures k == -1 <==> forall i :: 0 <= i < |xs| ==> xs[i].id != id
    ensures k >= 0 ==> xs[k].id == id && forall i :: 0 <= i < k ==> xs[i].id != id
  {
    if xs == [] then -1
    else if xs[0].id == id then 0
    else
      var k := FirstIndexOfId(xs[1..], id);
      if k == -1 then -1 else k + 1
  }

  /**
   * `xs.find(ex => ex.id === id)`: the first entry carrying `id`, or
   * `undefined` when there is none.
   */
  function FindById(xs: seq<Exercise>, id: string): (r: Option<Exercise>)
    ensures r.None? <==> forall i :: 0 <= i < |xs| ==> xs[i].id != id
    ensures r.Some? ==> r.value in xs && r.value.id == id
    ensures forall j :: 0 <= j < |xs| && xs[j].id == id && r != Some(xs[j]) ==>
      exists i :: 0 <= i < j && xs[i].id == id
  {
    var k := FirstIndexOfId(xs, id);
    if k == -1 then None else Some(xs[k])
  }

  /** `getExerciseById`: the catalogue entry with that id, if any. */
  function GetExerciseById(id: string): (r: Option<Exercise>)
    ensures r.Some? <==> exists i :: 0 <= i < |Catalogue| && Catalogue[i].id == id
    ensures r.Some? ==> r.value in Catalogue && r.value.id == id
  {
    FindById(Catalogue, id)
  }

  /** The shape of the catalogue: 13 entries, distinct ids, every part a BODY_PARTS value. */
  lemma CatalogueWellFormed()
    ensures |Catalogue| == 13
    ensures DistinctIds(Catalogue)
    ensures forall e :: e in Catalogue ==> e.part in BodyParts
  {
  }

  /** Because ids are distinct, the lookup of an entry's own id returns exactly that entry. */
  lemma LookupFindsEntry(i: int)
    requires 0 <= i < |Catalogue|
    ensures GetExerciseById(Catalogue[i].id) == Some(Catalogue[i])
  {
    CatalogueWellFormed();
  }

  /** The default current exercise is the first entry, the chest bench press. */
  lemma DefaultIsBenchPress()
    ensures Catalogue[0] == Exercise("bp", "ベンチプレス", Chest)
    ensures GetExerciseById("bp") == Some(Catalogue[0])
  {
    LookupFindsEntry(0);
  }
}
