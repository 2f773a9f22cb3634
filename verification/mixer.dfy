/**
 * The mixer's selection state (EmotionMixer,
 * src/components/emotion-mixer-retro-react-fixed.tsx:183-254 and 333-352):
 * up to three palette emotions in the order they were picked, each with an
 * intensity from 0 to 10, changed by toggling, by the random buttons and by
 * turning a knob.
 */
module Mixer {
  import opened Wrappers
  import opened Catalog
  import opened SortByKey
  import opened CseCode
  import opened Knob

  const MaxSelected := 3
  const DefaultIntensity := 5
  const MinIntensity := 0
  const MaxIntensity := 10

  /** `selectedEmotions` (pick order) and `emotionValues`. */
  datatype MixerState = MixerState(selected: seq<string>, values: map<string, int>)

  const Initial := MixerState([], map[])

  /**
   * At most three distinct palette emotions; an intensity is kept exactly for
   * the selected ones, and lies within the knob's range.
   */
  predicate ValidState(st: MixerState) {
    && |st.selected| <= MaxSelected
    && NoDuplicates(st.selected)
    && AllCatalog(st.selected)
    && (forall n <- st.values :: n in st.selected)
    && (forall n <- st.selected :: n in st.values)
    && (forall n <- st.values :: MinIntensity <= st.values[n] <= MaxIntensity)
  }

  /** `s.filter(e => e !== x)`. */
  function Without(s: seq<string>, x: string): seq<string> {
    if s == [] then []
    else (if s[0] == x then [] else [s[0]]) + Without(s[1..], x)
  }

  lemma {:induction false} WithoutMembers(s: seq<string>, x: string)
    ensures forall y :: y in Without(s, x) <==> y in s && y != x
    ensures |Without(s, x)| <= |s|
    ensures x in s ==> |Without(s, x)| < |s|
  {
    if s != [] {
      WithoutMembers(s[1..], x);
      assert s == [s[0]] + s[1..];
    }
  }

  lemma {:induction false} WithoutAbsent(s: seq<string>, x: string)
    requires x !in s
    ensures Without(s, x) == s
  {
    if s != [] {
      WithoutAbsent(s[1..], x);
      assert s == [s[0]] + s[1..];
    }
  }

  lemma NoDuplicatesCons(a: string, t: seq<string>)
    requires a !in t && NoDuplicates(t)
    ensures NoDuplicates([a] + t)
  {
    var s := [a] + t;
    forall i, j | 0 <= i < j < |s| ensures s[i] != s[j] {
      assert s[j] == t[j - 1];
      if i > 0 {
        assert s[i] == t[i - 1];
      }
    }
  }

  lemma {:induction false} WithoutNoDuplicates(s: seq<string>, x: string)
    requires NoDuplicates(s)
    ensures NoDuplicates(Without(s, x))
  {
    if s != [] {
      var t := s[1..];
      assert NoDuplicates(t) by {
        forall i, j | 0 <= i < j < |t| ensures t[i] != t[j] {
          assert t[i] == s[i + 1] && t[j] == s[j + 1];
        }
      }
      WithoutNoDuplicates(t, x);
      WithoutMembers(t, x);
      if s[0] != x {
        assert s[0] !in t by {
          forall k | 0 <= k < |t| ensures t[k] != s[0] {
            assert t[k] == s[k + 1];
          }
        }
        NoDuplicatesCons(s[0], Without(t, x));
      }
    }
  }

  /** Filtering out the one occurrence of `s[i]` removes exactly position `i`. */
  lemma {:induction false} WithoutAt(s: seq<string>, i: nat)
    requires i < |s| && NoDuplicates(s)
    ensures Without(s, s[i]) == s[..i] + s[i + 1..]
  {
    var t := s[1..];
    assert s == [s[0]] + t;
    if i == 0 {
      assert s[0] !in t by {
        forall k | 0 <= k < |t| ensures t[k] != s[0] {
          assert t[k] == s[k + 1];
        }
      }
      WithoutAbsent(t, s[0]);
    } else {
      assert NoDuplicates(t) by {
        forall a, b | 0 <= a < b < |t| ensures t[a] != t[b] {
          assert t[a] == s[a + 1] && t[b] == s[b + 1];
        }
      }
      assert s[0] != s[i];
      assert t[i - 1] == s[i];
      WithoutAt(t, i - 1);
      assert s[..i] == [s[0]] + t[..i - 1];
      assert s[i + 1..] == t[i..];
    }
  }

  lemma {:induction false} WithoutLast(s: seq<string>, x: string)
    requires x !in s
    ensures Without(s + [x], x) == s
  {
    if s == [] {
      assert Without([x], x) == [] + Without([], x);
    } else {
      assert (s + [x])[1..] == s[1..] + [x];
      WithoutLast(s[1..], x);
      assert s == [s[0]] + s[1..];
    }
  }

  /** Clicking emotion `name`: drop it if selected, else add it with the default intensity when there is room. */
  function Toggled(st: MixerState, name: string): MixerState {
    if name in st.selected then
      MixerState(Without(st.selected, name), st.values - {name})
    else if |st.selected| < MaxSelected then
      MixerState(st.selected + [name], st.values[name := DefaultIntensity])
    else
      st
  }

  /** The knob of `name` reports value `v`. */
  function WithIntensity(st: MixerState, name: string, v: int): MixerState {
    MixerState(st.selected, st.values[name := v])
  }

  /** `shuffled.map(e => e.name)`. */
  function Names(es: seq<Emotion>): (names: seq<string>)
    ensures |names| == |es|
    ensures forall i :: 0 <= i < |es| ==> names[i] == es[i].name
  {
    if es == [] then [] else [es[0].name] + Names(es[1..])
  }

  /** `Object.fromEntries`: a later pair with the same key overrides an earlier one. */
  function FromEntries(keys: seq<string>, vals: seq<int>): map<string, int>
    requires |keys| == |vals|
    decreases |keys|
  {
    if keys == [] then map[]
    else
      var n := |keys| - 1;
      FromEntries(keys[..n], vals[..n])[keys[n] := vals[n]]
  }

  lemma {:induction false} FromEntriesSpec(keys: seq<string>, vals: seq<int>)
    requires |keys| == |vals| && NoDuplicates(keys)
    ensures forall k :: k in FromEntries(keys, vals) <==> k in keys
    ensures forall i :: 0 <= i < |keys| ==> FromEntries(keys, vals)[keys[i]] == vals[i]
    decreases |keys|
  {
    if keys != [] {
      var n := |keys| - 1;
      var prefix := keys[..n];
      assert NoDuplicates(prefix) by {
        forall a, b | 0 <= a < b < |prefix| ensures prefix[a] != prefix[b] {
          assert prefix[a] == keys[a] && prefix[b] == keys[b];
        }
      }
      FromEntriesSpec(prefix, vals[..n]);
      assert keys == prefix + [keys[n]];
      forall i | 0 <= i < n ensures keys[i] != keys[n] && prefix[i] == keys[i] {
      }
    }
  }

  /**
   * The state after a random button for `count` emotions: the first `count`
   * entries of the shuffled palette, each with its drawn intensity.
   */
  function Randomized(count: nat, shuffled: seq<Emotion>, draws: seq<int>): MixerState
    requires count <= |shuffled| && |draws| == count
  {
    var names := Names(shuffled[..count]);
    MixerState(names, FromEntries(names, draws))
  }

  /** `shuffled` lists every palette entry exactly once, in some order. */
  predicate IsShuffleOfCatalog(shuffled: seq<Emotion>) {
    && |shuffled| == |Emotions|
    && (forall e <- shuffled :: e in Emotions)
    && (forall i, j :: 0 <= i < j < |shuffled| ==> shuffled[i] != shuffled[j])
  }

  /** Toggling a palette emotion keeps the state valid. */
  lemma ToggleKeepsValid(st: MixerState, name: string)
    requires ValidState(st) && IsCatalogName(name)
    ensures ValidState(Toggled(st, name))
  {
    if name in st.selected {
      WithoutMembers(st.selected, name);
      WithoutNoDuplicates(st.selected, name);
    } else if |st.selected| < MaxSelected {
      var s := st.selected + [name];
      forall i, j | 0 <= i < j < |s| ensures s[i] != s[j] {
        if j == |s| - 1 {
          assert s[i] == st.selected[i];
        } else {
          assert s[i] == st.selected[i] && s[j] == st.selected[j];
        }
      }
    }
  }

  /**
   * Deselecting: the emotion leaves its place in the pick order, the others
   * keep theirs, and its intensity is forgotten while the others' are kept.
   */
  lemma ToggleRemoves(st: MixerState, i: nat)
    requires ValidState(st) && i < |st.selected|
    ensures
      var name := st.selected[i];
      var r := Toggled(st, name);
      && r.selected == st.selected[..i] + st.selected[i + 1..]
      && name !in r.values
      && r.values == st.values - {name}
  {
    WithoutAt(st.selected, i);
  }

  /**
   * Selecting an unselected emotion: with fewer than three selected it joins
   * at the end with intensity 5 and nothing else changes; with three it is
   * ignored.
   */
  lemma ToggleAbsent(st: MixerState, name: string)
    requires ValidState(st) && name !in st.selected
    ensures |st.selected| < MaxSelected ==>
      var r := Toggled(st, name);
      && r.selected[..|st.selected|] == st.selected
      && r.selected[|st.selected|..] == [name]
      && r.values[name] == DefaultIntensity
      && (forall n :: n != name ==> (n in r.values <==> n in st.values))
      && (forall n :: n in st.values ==> r.values[n] == st.values[n])
    ensures |st.selected| == MaxSelected ==> Toggled(st, name) == st
  {
    if |st.selected| < MaxSelected {
      var r := Toggled(st, name);
      assert r.selected == st.selected + [name];
    }
  }

  /** Selecting and then deselecting an emotion restores the previous state. */
  lemma ToggleTwiceRestores(st: MixerState, name: string)
    requires ValidState(st) && name !in st.selected && |st.selected| < MaxSelected
    ensures Toggled(Toggled(st, name), name) == st
  {
    WithoutLast(st.selected, name);
    assert name !in st.values;
    assert st.values[name := DefaultIntensity] - {name} == st.values;
  }

  /** Deselecting and then reselecting moves the emotion to the end and resets its intensity to 5. */
  lemma ReselectResets(st: MixerState, name: string)
    requires ValidState(st) && name in st.selected
    ensures
      var r := Toggled(Toggled(st, name), name);
      && r.selected == Without(st.selected, name) + [name]
      && name in r.values && r.values[name] == DefaultIntensity
  {
    WithoutMembers(st.selected, name);
  }

  /** A knob setting keeps the state valid and changes only that emotion's intensity. */
  lemma SetIntensityKeepsValid(st: MixerState, name: string, v: int)
    requires ValidState(st) && name in st.selected && MinIntensity <= v <= MaxIntensity
    ensures ValidState(WithIntensity(st, name, v))
    ensures TierOf(WithIntensity(st, name, v).values, name) == Tier(v)
    ensures forall n :: n != name && n in st.values ==>
              WithIntensity(st, name, v).values[n] == st.values[n]
  {
  }

  /** The names of the first `count` shuffled entries are distinct palette names. */
  lemma ShuffledNames(count: nat, shuffled: seq<Emotion>)
    requires count <= |shuffled| && IsShuffleOfCatalog(shuffled)
    ensures NoDuplicates(Names(shuffled[..count])) && AllCatalog(Names(shuffled[..count]))
  {
    var picked := shuffled[..count];
    var names := Names(picked);
    forall i, j | 0 <= i < j < |names| ensures names[i] != names[j] {
      assert picked[i] == shuffled[i] && picked[j] == shuffled[j];
      assert shuffled[i] in Emotions && shuffled[j] in Emotions;
      if names[i] == names[j] {
        EntryByName(shuffled[i], shuffled[j]);
      }
    }
    forall n | n in names ensures IsCatalogName(n) {
      var k :| 0 <= k < |names| && names[k] == n;
      assert picked[k] == shuffled[k];
      EntryIsCatalogName(shuffled[k]);
    }
  }

  /**
   * A random pick is a valid state of `count` distinct palette emotions, in
   * shuffled order, each with its drawn intensity.
   */
  lemma RandomizedValid(count: nat, shuffled: seq<Emotion>, draws: seq<int>)
    requires count <= MaxSelected && IsShuffleOfCatalog(shuffled) && |draws| == count
    requires forall d <- draws :: MinIntensity <= d <= MaxIntensity
    ensures
      var r := Randomized(count, shuffled, draws);
      && ValidState(r)
      && |r.selected| == count
      && (forall i :: 0 <= i < count ==> r.selected[i] == shuffled[i].name)
      && (forall i :: 0 <= i < count ==> r.values[r.selected[i]] == draws[i])
  {
    var names := Names(shuffled[..count]);
    ShuffledNames(count, shuffled);
    FromEntriesSpec(names, draws);
    var r := Randomized(count, shuffled, draws);
    forall n | n in r.values ensures MinIntensity <= r.values[n] <= MaxIntensity {
      var k :| 0 <= k < |names| && names[k] == n;
      assert draws[k] in draws;
    }
  }

  lemma TwoPicks(st: MixerState, a: string, b: string)
    requires a != b && a !in st.selected && b !in st.selected && |st.selected| + 2 <= MaxSelected
    ensures Toggled(Toggled(st, a), b)
         == MixerState(st.selected + [a, b], st.values[a := DefaultIntensity][b := DefaultIntensity])
  {
    assert st.selected + [a] + [b] == st.selected + [a, b];
  }

  lemma PicksInCatalog(st: MixerState, a: string, b: string)
    requires ValidState(st) && IsCatalogName(a) && IsCatalogName(b)
    ensures AllCatalog(st.selected + [a, b])
  {
  }

  lemma SwapLastTwo(s: seq<string>, a: string, b: string)
    ensures multiset(s + [a, b]) == multiset(s + [b, a])
  {
  }

  /** The status code does not depend on the order in which two emotions were picked. */
  lemma PickOrderIrrelevant(st: MixerState, a: string, b: string)
    requires ValidState(st) && IsCatalogName(a) && IsCatalogName(b) && a != b
    requires a !in st.selected && b !in st.selected && |st.selected| + 2 <= MaxSelected
    ensures
      var ab := Toggled(Toggled(st, a), b);
      var ba := Toggled(Toggled(st, b), a);
      && AllCatalog(ab.selected) && AllCatalog(ba.selected)
      && GenerateCode(ab.selected, ab.values) == GenerateCode(ba.selected, ba.values)
  {
    TwoPicks(st, a, b);
    TwoPicks(st, b, a);
    PicksInCatalog(st, a, b);
    PicksInCatalog(st, b, a);
    SwapLastTwo(st.selected, a, b);
    var values := st.values[a := DefaultIntensity][b := DefaultIntensity];
    assert values == st.values[b := DefaultIntensity][a := DefaultIntensity];
    GenerateCodeOrderIndependent(st.selected + [a, b], st.selected + [b, a], values);
  }

  /** The mixer: selection in pick order and the intensity of each selected emotion. */
  class EmotionMixer {
    var selected: seq<string>
    var values: map<string, int>

    function State(): MixerState
      reads this
    {
      MixerState(selected, values)
    }

    ghost predicate Valid()
      reads this
    {
      ValidState(State())
    }

    /** Nothing selected, no intensities. */
    constructor ()
      ensures Valid() && State() == Initial
    {
      selected, values := [], map[];
    }

    /** `handleEmotionSelect` (lines 200-210). */
    method Toggle(name: string)
      requires Valid() && IsCatalogName(name)
      modifies this
      ensures Valid() && State() == Toggled(old(State()), name)
    {
      ToggleKeepsValid(State(), name);
      if name in selected {
        selected := Without(selected, name);
        var newValues := values - {name};
        values := newValues;
      } else if |selected| < MaxSelected {
        selected := selected + [name];
        values := values[name := DefaultIntensity];
      }
    }

    /** The knob `onChange` callback for a selected emotion (lines 338-342). */
    method SetIntensity(name: string, v: int)
      requires Valid() && name in selected && MinIntensity <= v <= MaxIntensity
      modifies this
      ensures Valid() && State() == WithIntensity(old(State()), name, v)
    {
      SetIntensityKeepsValid(State(), name, v);
      values := values[name := v];
    }

    /**
     * `handleRandomClick` (lines 235-254): clear, then select the first `count`
     * shuffled entries with their drawn intensities. The shuffle and the draws
     * (`Math.floor(Math.random() * 11)`) are supplied by the caller.
     */
    method Randomize(count: nat, shuffled: seq<Emotion>, draws: seq<int>)
      requires Valid() && count <= MaxSelected && IsShuffleOfCatalog(shuffled) && |draws| == count
      requires forall d <- draws :: MinIntensity <= d <= MaxIntensity
      modifies this
      ensures Valid() && State() == Randomized(count, shuffled, draws)
    {
      selected, values := [], map[];
      var newEmotions := Names(shuffled[..count]);
      var newValues := FromEntries(newEmotions, draws);
      selected, values := newEmotions, newValues;
      RandomizedValid(count, shuffled, draws);
    }
  }

  /**
   * A mouse move over the knob of selected emotion `name` (lines 332-352):
   * the knob turns, and a value it reports becomes that emotion's intensity;
   * the new intensity then flows back into the knob as its external value.
   * The mixer's knobs span 0 to 10, so the state stays valid, and a knob that
   * showed its emotion's intensity still shows it afterwards.
   */
  method MoveKnob(mixer: EmotionMixer, knob: RetroKnob, name: string, y: real)
    requires mixer.Valid() && name in mixer.selected
    requires knob.min == MinIntensity && knob.max == MaxIntensity
    modifies mixer, knob`localValue
    ensures mixer.Valid()
    ensures
      var v := DragValue(knob.startValue, knob.startY, y, knob.sensitivity, knob.min, knob.max);
      mixer.State() ==
        if knob.isDragging && v != old(knob.localValue) then WithIntensity(old(mixer.State()), name, v)
        else old(mixer.State())
    ensures old(knob.localValue) == old(mixer.values[name]) ==> knob.localValue == mixer.values[name]
  {
    var emitted := knob.MouseMove(y);
    if emitted.Some? {
      mixer.SetIntensity(name, emitted.value);
      knob.Resync(mixer.values[name]);
    }
  }
}
