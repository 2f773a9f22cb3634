/**
 * The status code shown on the mixer's display (generateCSECode,
 * src/components/emotion-mixer-retro-react-fixed.tsx:212-233): a pure function
 * of the selection list and the intensity map.
 */
module CseCode {
  import opened Catalog
  import opened LexOrder
  import opened SortByKey

  /** The sentinel shown while nothing is selected. */
  const NoInput := "NO INPUT"
  const Separator := "."

  /** Intensity tier: low up to 3, medium 4 to 7, high from 8. */
  function Tier(v: int): (t: string)
    ensures t == "L" <==> v <= 3
    ensures t == "M" <==> 4 <= v <= 7
    ensures t == "H" <==> 8 <= v
  {
    if v <= 3 then "L" else if v <= 7 then "M" else "H"
  }

  /**
   * The tier of a selected emotion's map entry. A missing entry reads as
   * `undefined`, for which both comparisons are false, so it lands in "H".
   */
  function TierOf(values: map<string, int>, name: string): (t: string)
    ensures name in values ==> t == Tier(values[name])
    ensures name !in values ==> t == "H"
  {
    if name in values then Tier(values[name]) else "H"
  }

  /** `parts.join(sep)`. */
  function Join(parts: seq<string>, sep: string): string
    decreases |parts|
  {
    if |parts| == 0 then ""
    else if |parts| == 1 then parts[0]
    else parts[0] + sep + Join(parts[1..], sep)
  }

  /** `names.map(name => emotions.find(e => e.name === name).code)`. */
  function Codes(names: seq<string>): (codes: seq<string>)
    ensures |codes| == |names|
    ensures forall i :: 0 <= i < |names| ==> codes[i] == CodeOf(names[i])
  {
    if names == [] then [] else [CodeOf(names[0])] + Codes(names[1..])
  }

  /** `names.map(name => tier of emotionValues[name])`. */
  function Tiers(names: seq<string>, values: map<string, int>): (tiers: seq<string>)
    ensures |tiers| == |names|
    ensures forall i :: 0 <= i < |names| ==> tiers[i] == TierOf(values, names[i])
  {
    if names == [] then [] else [TierOf(values, names[0])] + Tiers(names[1..], values)
  }

  /** On palette names the code is a key that tells them apart. */
  lemma PaletteCodesInjective(s: seq<string>)
    requires AllCatalog(s)
    ensures KeyInjective(s, CodeOf)
  {
    forall x, y | x in s && y in s && CodeOf(x) == CodeOf(y) ensures x == y {
      CodeOfInjective(x, y);
    }
  }

  /** Sorting keeps exactly the selected names, so they stay palette names. */
  lemma SortedPalette(s: seq<string>)
    requires AllCatalog(s)
    ensures AllCatalog(SortBy(s, CodeOf))
    ensures |SortBy(s, CodeOf)| == |s|
  {
    var r := SortBy(s, CodeOf);
    forall x | x in r ensures IsCatalogName(x) {
      assert x in multiset(r);
    }
    assert |r| == |multiset(r)| == |multiset(s)| == |s|;
  }

  // ---------------------------------------------------------------------
  // Reference definition: the palette listed once in code order, restricted
  // to the selection.

  const NamesInCodeOrder: seq<string> :=
    ["Anger", "Anticipation", "Disgust", "Fear", "Joy", "Sadness", "Surprise", "Trust"]

  lemma NamesInCodeOrderCoversPalette(n: string)
    requires IsCatalogName(n)
    ensures n in NamesInCodeOrder
  {
    CodeOfSpec(n);
  }

  lemma CodeTableLow()
    ensures CodeOf("Anger") == "AG" && CodeOf("Anticipation") == "AN"
    ensures CodeOf("Disgust") == "DI" && CodeOf("Fear") == "FR"
  {
  }

  lemma CodeTableHigh()
    ensures CodeOf("Joy") == "JO" && CodeOf("Sadness") == "SA"
    ensures CodeOf("Surprise") == "SU" && CodeOf("Trust") == "TR"
  {
  }

  lemma NamesInCodeOrderAllPalette()
    ensures AllCatalog(NamesInCodeOrder)
  {
    CodeTableLow();
    CodeTableHigh();
  }

  lemma NamesInCodeOrderChained()
    ensures Chained(NamesInCodeOrder, CodeOf)
  {
    var s := NamesInCodeOrder;
    CodeTableLow();
    CodeTableHigh();
    assert Chained(s[6..], CodeOf);
    assert Chained(s[5..], CodeOf);
    assert Chained(s[4..], CodeOf);
    assert Chained(s[3..], CodeOf);
    assert Chained(s[2..], CodeOf);
    assert Chained(s[1..], CodeOf);
  }

  lemma NamesInCodeOrderIsPalette()
    ensures AllCatalog(NamesInCodeOrder)
    ensures StrictlyOrdered(NamesInCodeOrder, CodeOf)
    ensures forall n :: IsCatalogName(n) ==> n in NamesInCodeOrder
  {
    forall n | IsCatalogName(n) ensures n in NamesInCodeOrder {
      NamesInCodeOrderCoversPalette(n);
    }
    NamesInCodeOrderAllPalette();
    NamesInCodeOrderChained();
    ChainedStrictlyOrdered(NamesInCodeOrder, CodeOf);
  }

  /**
   * The sorted selection is the palette, listed in code order, restricted to
   * the selected names: it depends only on which emotions are selected.
   */
  lemma SortByCodeIsCodeOrder(s: seq<string>)
    requires AllCatalog(s) && NoDuplicates(s)
    ensures SortBy(s, CodeOf) == Restrict(NamesInCodeOrder, s)
  {
    var t := Restrict(NamesInCodeOrder, s);
    NamesInCodeOrderIsPalette();
    RestrictStrictlyOrdered(NamesInCodeOrder, s, CodeOf);
    RestrictMembers(NamesInCodeOrder, s);
    StrictlyOrderedNoDuplicates(t, CodeOf);
    SameElementsSameMultiset(s, t);
    SortedPalette(s);
    PaletteCodesInjective(SortBy(s, CodeOf));
    OrderedUnique(SortBy(s, CodeOf), t, CodeOf);
  }

  // ---------------------------------------------------------------------
  // The generator.

  function GenerateCode(selected: seq<string>, values: map<string, int>): (r: string)
    requires AllCatalog(selected)
    ensures r == NoInput <==> selected == []
  {
    if |selected| == 0 then NoInput
    else
      var sorted := SortBy(selected, CodeOf);
      var r := "CSE-[" + Join(Codes(sorted), Separator) + "]-[" + Join(Tiers(sorted, values), Separator) + "]-001";
      assert r[0] != NoInput[0];
      r
  }

  /** The same selected emotions, chosen in any order, give the same status code. */
  lemma GenerateCodeOrderIndependent(s1: seq<string>, s2: seq<string>, values: map<string, int>)
    requires AllCatalog(s1) && AllCatalog(s2) && multiset(s1) == multiset(s2)
    ensures GenerateCode(s1, values) == GenerateCode(s2, values)
  {
    assert |s1| == |multiset(s1)| == |multiset(s2)| == |s2|;
    SortedPalette(s1);
    PaletteCodesInjective(SortBy(s1, CodeOf));
    OrderedUnique(SortBy(s1, CodeOf), SortBy(s2, CodeOf), CodeOf);
  }

  /**
   * A non-empty selection gives CSE-[codes]-[tiers]-001 where the emotions are
   * the selected ones listed in palette code order: one code and one tier per
   * selected emotion, the codes strictly ascending, each tier that of the
   * emotion whose code stands at the same position.
   */
  lemma GenerateCodeLayout(selected: seq<string>, values: map<string, int>)
    requires AllCatalog(selected) && NoDuplicates(selected) && selected != []
    ensures
      var sorted := Restrict(NamesInCodeOrder, selected);
      var codes := Codes(sorted);
      var tiers := Tiers(sorted, values);
      && |codes| == |tiers| == |selected|
      && (forall n :: n in sorted <==> n in selected)
      && (forall i, j :: 0 <= i < j < |codes| ==> LexLess(codes[i], codes[j]))
      && (forall i :: 0 <= i < |tiers| ==> tiers[i] == TierOf(values, sorted[i]))
      && GenerateCode(selected, values)
         == "CSE-[" + Join(codes, Separator) + "]-[" + Join(tiers, Separator) + "]-001"
  {
    SortByCodeIsCodeOrder(selected);
    SortedPalette(selected);
    PaletteCodesInjective(selected);
    SortByStrict(selected, CodeOf);
    NamesInCodeOrderIsPalette();
    RestrictMembers(NamesInCodeOrder, selected);
  }

  lemma MulSucc(n: nat, m: nat)
    ensures (n + 1) * m == n * m + m
  {
  }

  lemma {:induction false} JoinLength(parts: seq<string>, k: nat)
    requires |parts| > 0 && forall p <- parts :: |p| == k
    ensures |Join(parts, Separator)| + 1 == |parts| * (k + 1)
    decreases |parts|
  {
    if |parts| > 1 {
      var n := |parts| - 1;
      var rest := parts[1..];
      assert forall p <- rest :: |p| == k;
      JoinLength(rest, k);
      assert |parts[0]| == k by {
        assert parts[0] in parts;
      }
      assert |Join(parts, Separator)| == k + 1 + |Join(rest, Separator)|;
      MulSucc(n, k + 1);
    }
  }

  lemma CodesSegmentLength(names: seq<string>)
    requires AllCatalog(names) && names != []
    ensures |Join(Codes(names), Separator)| == 3 * |names| - 1
  {
    var codes := Codes(names);
    forall p | p in codes ensures |p| == 2 {
      var i :| 0 <= i < |codes| && codes[i] == p;
      CodeOfSpec(names[i]);
    }
    JoinLength(codes, 2);
  }

  lemma TiersSegmentLength(names: seq<string>, values: map<string, int>)
    requires names != []
    ensures |Join(Tiers(names, values), Separator)| == 2 * |names| - 1
  {
    var tiers := Tiers(names, values);
    forall p | p in tiers ensures |p| == 1 {
      var i :| 0 <= i < |tiers| && tiers[i] == p;
    }
    JoinLength(tiers, 1);
  }

  /** Every selected emotion adds exactly five characters: "XX." and "T.". */
  lemma GenerateCodeLength(selected: seq<string>, values: map<string, int>)
    requires AllCatalog(selected) && selected != []
    ensures |GenerateCode(selected, values)| == 5 * |selected| + 11
  {
    var sorted := SortBy(selected, CodeOf);
    SortedPalette(selected);
    CodesSegmentLength(sorted);
    TiersSegmentLength(sorted, values);
  }

  lemma ExampleTarget(t: seq<string>)
    requires t == ["Anger", "Fear", "Joy"]
    ensures Ordered(t, CodeOf)
  {
    CodeTableLow();
    CodeTableHigh();
    assert Chained(t[1..], CodeOf);
    assert Chained(t, CodeOf);
    ChainedStrictlyOrdered(t, CodeOf);
    StrictlyOrderedNoDuplicates(t, CodeOf);
  }

  lemma ExampleSelection(s: seq<string>)
    requires s == ["Fear", "Joy", "Anger"]
    ensures AllCatalog(s)
  {
    CodeTableLow();
    CodeTableHigh();
  }

  lemma ExamplePermutation(s: seq<string>)
    requires s == ["Fear", "Joy", "Anger"]
    ensures multiset(s) == multiset(["Anger", "Fear", "Joy"])
  {
  }

  lemma ExampleSorted(s: seq<string>)
    requires s == ["Fear", "Joy", "Anger"]
    ensures AllCatalog(s)
    ensures SortBy(s, CodeOf) == ["Anger", "Fear", "Joy"]
  {
    var t := ["Anger", "Fear", "Joy"];
    ExampleTarget(t);
    ExampleSelection(s);
    ExamplePermutation(s);
    SortedPalette(s);
    PaletteCodesInjective(SortBy(s, CodeOf));
    OrderedUnique(SortBy(s, CodeOf), t, CodeOf);
  }

  lemma ExampleCodesSegment()
    ensures Join(Codes(["Anger", "Fear", "Joy"]), Separator) == "AG.FR.JO"
  {
    CodeTableLow();
    CodeTableHigh();
    assert Codes(["Anger", "Fear", "Joy"]) == ["AG", "FR", "JO"];
  }

  lemma ExampleTiersSegment()
    ensures Join(Tiers(["Anger", "Fear", "Joy"], map["Fear" := 2, "Joy" := 9, "Anger" := 5]), Separator) == "M.L.H"
  {
    assert Tiers(["Anger", "Fear", "Joy"], map["Fear" := 2, "Joy" := 9, "Anger" := 5]) == ["M", "L", "H"];
  }

  lemma ExampleTemplate(codes: string, tiers: string)
    requires codes == "AG.FR.JO" && tiers == "M.L.H"
    ensures "CSE-[" + codes + "]-[" + tiers + "]-001" == "CSE-[AG.FR.JO]-[M.L.H]-001"
  {
  }

  /** Fear 2, Joy 9, Anger 5, chosen in that order. */
  lemma GenerateCodeExample(s: seq<string>, values: map<string, int>)
    requires s == ["Fear", "Joy", "Anger"]
    requires values == map["Fear" := 2, "Joy" := 9, "Anger" := 5]
    ensures AllCatalog(s)
    ensures GenerateCode(s, values) == "CSE-[AG.FR.JO]-[M.L.H]-001"
  {
    ExampleSorted(s);
    ExampleCodesSegment();
    ExampleTiersSegment();
    var sorted := SortBy(s, CodeOf);
    ExampleTemplate(Join(Codes(sorted), Separator), Join(Tiers(sorted, values), Separator));
  }
}
