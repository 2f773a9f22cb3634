/**
 * The fixed palette of eight emotions the mixer offers
 * (src/components/emotion-mixer-retro-react-fixed.tsx:189-198).
 * An emotion is selected by its English name; its two-letter code is what
 * the status code shows.
 */
module Catalog {
  import opened Wrappers

  /** One palette entry: selection key, Polish label, two-letter code, display colour. */
  datatype Emotion = Emotion(name: string, plName: string, code: string, color: string)

  const Emotions: seq<Emotion> := [
    Emotion("Joy", "Radość", "JO", "#FFD700"),
    Emotion("Trust", "Zaufanie", "TR", "#4CAF50"),
    Emotion("Fear", "Strach", "FR", "#9C27B0"),
    Emotion("Surprise", "Zaskoczenie", "SU", "#FF9800"),
    Emotion("Sadness", "Smutek", "SA", "#2196F3"),
    Emotion("Disgust", "Odraza", "DI", "#795548"),
    Emotion("Anger", "Gniew", "AG", "#F44336"),
    Emotion("Anticipation", "Oczekiwanie", "AN", "#3F51B5")
  ]

  /** `entries.find(e => e.name === name)`: the first entry carrying that name, if any. */
  function Find(entries: seq<Emotion>, name: string): Option<Emotion> {
    if entries == [] then None
    else if entries[0].name == name then Some(entries[0])
    else Find(entries[1..], name)
  }

  /** `find` returns an entry of the list that carries the name, and finds one whenever one exists. */
  lemma {:induction false} FindSpec(entries: seq<Emotion>, name: string)
    ensures Find(entries, name).Some? ==>
              Find(entries, name).value in entries && Find(entries, name).value.name == name
    ensures Find(entries, name).None? <==> forall e <- entries :: e.name != name
  {
    if entries != [] && entries[0].name != name {
      FindSpec(entries[1..], name);
      assert entries == [entries[0]] + entries[1..];
    }
  }

  predicate IsCatalogName(name: string) {
    Find(Emotions, name).Some?
  }

  predicate AllCatalog(names: seq<string>) {
    forall n <- names :: IsCatalogName(n)
  }

  /**
   * `emotions.find(e => e.name === name).code`: the catalog code of a palette
   * emotion. The source only asks for palette names; for any other name its
   * `find` yields `undefined` and reading `.code` throws, which the callers
   * here rule out by requiring palette names.
   */
  function CodeOf(name: string): string {
    match Find(Emotions, name)
    case Some(e) => e.code
    case None => ""
  }

  /** Names are distinct, codes are distinct, and every code has two letters. */
  lemma CatalogShape()
    ensures forall i, j :: 0 <= i < j < |Emotions| ==> Emotions[i].name != Emotions[j].name
    ensures forall i, j :: 0 <= i < j < |Emotions| ==> Emotions[i].code != Emotions[j].code
    ensures forall e <- Emotions :: |e.code| == 2
  {
  }

  /** A palette name's code is that of the palette entry carrying the name. */
  lemma CodeOfSpec(name: string)
    requires IsCatalogName(name)
    ensures exists i :: 0 <= i < |Emotions| && Emotions[i].name == name && Emotions[i].code == CodeOf(name)
    ensures |CodeOf(name)| == 2
  {
    FindSpec(Emotions, name);
    CatalogShape();
    var e := Find(Emotions, name).value;
    var i :| 0 <= i < |Emotions| && Emotions[i] == e;
  }

  /** Every palette entry is reachable by its name. */
  lemma EntryIsCatalogName(e: Emotion)
    requires e in Emotions
    ensures IsCatalogName(e.name)
  {
    FindSpec(Emotions, e.name);
  }

  /** Two palette emotions with the same code are the same emotion, so ordering by code is total. */
  lemma CodeOfInjective(a: string, b: string)
    requires IsCatalogName(a) && IsCatalogName(b)
    requires CodeOf(a) == CodeOf(b)
    ensures a == b
  {
    CodeOfSpec(a);
    CodeOfSpec(b);
    CatalogShape();
  }

  /** A name identifies its palette entry: two entries with the same name are the same entry. */
  lemma EntryByName(e1: Emotion, e2: Emotion)
    requires e1 in Emotions && e2 in Emotions && e1.name == e2.name
    ensures e1 == e2
  {
    CatalogShape();
    var i :| 0 <= i < |Emotions| && Emotions[i] == e1;
    var j :| 0 <= j < |Emotions| && Emotions[j] == e2;
  }
}
