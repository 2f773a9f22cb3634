# Emotion mixer — a Dafny model

This project models the behaviour in `src/components/emotion-mixer-retro-react-fixed.tsx`.
That file is a retro control panel. The user picks up to three emotions from a fixed palette
of eight and sets an intensity from 0 to 10 for each one by dragging a rotary knob. The panel
shows a status code that sums up the selection, such as `CSE-[AG.FR.JO]-[M.L.H]-001`.

The model has three parts, in the form the source gives each one.

- **Status-code generator** (`generateCSECode`). This part is pure, so it is modelled as
  functions and lemmas.
  - `catalog.dfy` holds the palette and the name lookup.
  - `lex_order.dfy` holds the string order that orders the two-letter codes. `localeCompare`
    on upper-case ASCII codes agrees with plain lexicographic order.
  - `sort_by_key.dfy` holds a sort by key and the proof that an ordered permutation is unique.
  - `cse_code.dfy` holds the generator itself.
  - The central result is that the code depends only on *which* emotions are selected, never
    on the order in which they were picked.
- **Selection and intensity state** (`handleEmotionSelect`, `handleRandomClick`, and the knob
  `onChange` callback), in `mixer.dfy`.
  - A specification layer on values, `MixerState`, describes each transition as a function.
    Lemmas prove that each transition keeps the panel invariant: at most three distinct palette
    emotions, an intensity for exactly the selected ones, and every intensity in 0..10.
  - The class `EmotionMixer` replaces its `selected` and `values` fields step by step, as the
    component does. Each method is proved equal to its transition function.
- **Knob drag logic** (`RetroKnob`), in `knob.dfy`. This is a class over the per-instance state
  `isDragging`, `startY`, `startValue` and `localValue`, with methods for mouse-down, mouse-move,
  mouse-up and resync from the external value.
  - The drag arithmetic is over `real`. `Math.round` is `Floor(x + 0.5)`, and
    `Math.min`/`Math.max` are written out.
  - `Mixer.MoveKnob` wires a knob to the mixer the way the control panel does.

Randomness is supplied by the caller.
- `handleRandomClick` shuffles with `Math.random`. The model instead takes the shuffled palette
  as a parameter, required to list every palette entry once.
- `Math.floor(Math.random() * 11)` becomes a parameter sequence of draws, each required to lie
  in 0..10.

Where the code and its surrounding description differ, the model follows the code:
- The resync effect (lines 115-118) overwrites `localValue` whenever the external value changes.
  It has no "not while dragging" guard, so `Knob.RetroKnob.Resync` has none either.
- A selected emotion with no intensity would show tier `H`. In JavaScript, `undefined <= 3` and
  `undefined <= 7` are both false. `CseCode.TierOf` keeps this branch. Under the panel invariant
  it is never reached.

## Model

All source paths are under `src/components/emotion-mixer-retro-react-fixed.tsx`.

| member | source | states |
|---|---|---|
| Catalog.FindSpec | src/components/emotion-mixer-retro-react-fixed.tsx:216-217 | `find` by name returns an entry of the list that carries that name, and returns nothing exactly when no entry has the name |
| Catalog.CatalogShape | src/components/emotion-mixer-retro-react-fixed.tsx:189-198 | the eight palette entries have distinct names and distinct codes, and every code is two letters long |
| Catalog.CodeOfSpec | src/components/emotion-mixer-retro-react-fixed.tsx:216-217 | the code looked up for a palette name is the code of the palette entry that carries that name, and it is two letters long |
| Catalog.CodeOfInjective | src/components/emotion-mixer-retro-react-fixed.tsx:189-198 | two palette names with the same code are the same name, so sorting by code leaves no ties |
| Catalog.EntryIsCatalogName | src/components/emotion-mixer-retro-react-fixed.tsx:189-198 | every palette entry can be found by its own name |
| Catalog.EntryByName | src/components/emotion-mixer-retro-react-fixed.tsx:189-198 | two palette entries with the same name are the same entry |
| LexOrder.LexLessIrreflexive | src/components/emotion-mixer-retro-react-fixed.tsx:218 | no code compares before itself |
| LexOrder.LexLessTransitive | src/components/emotion-mixer-retro-react-fixed.tsx:218 | the code comparison is transitive |
| LexOrder.LexLessTrichotomy | src/components/emotion-mixer-retro-react-fixed.tsx:218 | any two distinct codes compare one way or the other, so the comparison is a total order |
| LexOrder.LexLessAsymmetric | src/components/emotion-mixer-retro-react-fixed.tsx:218 | two codes never each compare before the other |
| LexOrder.NotLessTransitive | src/components/emotion-mixer-retro-react-fixed.tsx:218 | "does not compare before" is transitive, which is what a sort by comparator needs |
| SortByKey.Insert | src/components/emotion-mixer-retro-react-fixed.tsx:215-219 | one insertion step of the sort adds exactly the inserted name to the multiset of names |
| SortByKey.InsertOrdered | src/components/emotion-mixer-retro-react-fixed.tsx:215-219 | inserting into a list ordered by key keeps it ordered |
| SortByKey.SortBy | src/components/emotion-mixer-retro-react-fixed.tsx:215-219 | sorting the copied selection gives a permutation of it that is ordered by key |
| SortByKey.OrderedUnique | src/components/emotion-mixer-retro-react-fixed.tsx:215-219 | two key-ordered permutations of the same names are equal when keys identify names, so every correct sort gives the same list |
| SortByKey.SortByStrict | src/components/emotion-mixer-retro-react-fixed.tsx:215-219 | with distinct names and keys that identify names, the sorted keys are strictly ascending |
| SortByKey.RestrictStrictlyOrdered | src/components/emotion-mixer-retro-react-fixed.tsx:215-219 | keeping only the chosen names of a strictly key-ordered list keeps it strictly ordered |
| SortByKey.RestrictMembers | src/components/emotion-mixer-retro-react-fixed.tsx:215-219 | keeping the chosen names of a list keeps exactly the names in both |
| CseCode.Tier | src/components/emotion-mixer-retro-react-fixed.tsx:228 | the tier is `L` iff the intensity is at most 3, `M` iff it is 4 to 7, and `H` iff it is at least 8 |
| CseCode.Codes | src/components/emotion-mixer-retro-react-fixed.tsx:221-222 | one code per sorted name, each being that name's palette code |
| CseCode.TierOf | src/components/emotion-mixer-retro-react-fixed.tsx:227-228 | a name with an intensity gets the tier of that intensity; a name with no entry gets `H`, since both comparisons on `undefined` are false |
| CseCode.Tiers | src/components/emotion-mixer-retro-react-fixed.tsx:225-229 | one tier letter per sorted name, each being the tier of that name's intensity |
| CseCode.SortedPalette | src/components/emotion-mixer-retro-react-fixed.tsx:215-219 | the sorted selection still holds only palette names and has the selection's length |
| CseCode.NamesInCodeOrderIsPalette | src/components/emotion-mixer-retro-react-fixed.tsx:189-198 | listing the palette names by code gives exactly the palette names, with strictly ascending codes |
| CseCode.SortByCodeIsCodeOrder | src/components/emotion-mixer-retro-react-fixed.tsx:215-219 | sorting a selection of distinct palette names by code gives the palette in code order, restricted to the selected names |
| CseCode.GenerateCode | src/components/emotion-mixer-retro-react-fixed.tsx:212-233 | the result is `NO INPUT` exactly when nothing is selected |
| CseCode.GenerateCodeOrderIndependent | src/components/emotion-mixer-retro-react-fixed.tsx:215-219 | two selections that are permutations of each other give the same status code |
| CseCode.GenerateCodeLayout | src/components/emotion-mixer-retro-react-fixed.tsx:221-232 | a non-empty code is `CSE-[` codes `]-[` tiers `]-001`, over exactly the selected emotions, with strictly ascending codes and the tiers in the same order, one per emotion |
| CseCode.JoinLength | src/components/emotion-mixer-retro-react-fixed.tsx:223 | joining n parts of length k with `.` gives n(k+1)-1 characters |
| CseCode.CodesSegmentLength | src/components/emotion-mixer-retro-react-fixed.tsx:221-223 | the codes segment has 3n-1 characters for n selected emotions |
| CseCode.TiersSegmentLength | src/components/emotion-mixer-retro-react-fixed.tsx:225-230 | the tiers segment has 2n-1 characters for n selected emotions |
| CseCode.GenerateCodeLength | src/components/emotion-mixer-retro-react-fixed.tsx:232 | a non-empty code has 5n+11 characters for n selected emotions |
| CseCode.ExampleSorted | src/components/emotion-mixer-retro-react-fixed.tsx:215-219 | Fear, Joy, Anger sort to Anger, Fear, Joy |
| CseCode.GenerateCodeExample | src/components/emotion-mixer-retro-react-fixed.tsx:212-233 | Fear 2, Joy 9, Anger 5, picked in that order, give `CSE-[AG.FR.JO]-[M.L.H]-001` |
| Knob.Round | src/components/emotion-mixer-retro-react-fixed.tsx:90 | `Math.round` gives the integer within half a unit, with halves rounded up |
| Knob.RoundMonotone | src/components/emotion-mixer-retro-react-fixed.tsx:90 | rounding never reverses the order of two values |
| Knob.Clamp | src/components/emotion-mixer-retro-react-fixed.tsx:90 | with ordered bounds the result lies within them; it is the input when that is in range, and the nearer bound otherwise; with reversed bounds it is the upper bound |
| Knob.ClampMonotone | src/components/emotion-mixer-retro-react-fixed.tsx:90 | clamping never reverses the order of two values |
| Knob.DragValue | src/components/emotion-mixer-retro-react-fixed.tsx:87-90 | the value a drag reaches lies in [min, max] with ordered bounds, and equals max with reversed bounds |
| Knob.DragValueAtAnchor | src/components/emotion-mixer-retro-react-fixed.tsx:87-90 | with the cursor back at the anchor height, the drag reaches the in-range value it started from |
| Knob.DragOffsetMonotone | src/components/emotion-mixer-retro-react-fixed.tsx:87-89 | with ordered bounds (min at most max) and a non-negative sensitivity, the offset grows as the cursor rises |
| Knob.DragValueMonotone | src/components/emotion-mixer-retro-react-fixed.tsx:87-90 | with ordered bounds (min at most max) and a non-negative sensitivity, moving the cursor higher never lowers the value |
| Knob.RetroKnob.constructor | src/components/emotion-mixer-retro-react-fixed.tsx:71-74 | a fresh knob is not dragging, has anchor height 0, and has the external value as anchor value and shown value |
| Knob.RetroKnob.MouseDown | src/components/emotion-mixer-retro-react-fixed.tsx:120-124 | starts a drag anchored at the cursor height and the shown value, and leaves the shown value alone |
| Knob.RetroKnob.MouseMove | src/components/emotion-mixer-retro-react-fixed.tsx:84-98 | emits exactly when dragging and the reached value differs from the shown one; an emitted value is the reached value, lies in [min, max] and becomes the shown value; otherwise nothing changes |
| Knob.RetroKnob.MouseUp | src/components/emotion-mixer-retro-react-fixed.tsx:100-102 | ends the drag and changes no value |
| Knob.RetroKnob.Resync | src/components/emotion-mixer-retro-react-fixed.tsx:115-118 | the shown value becomes the external value, and nothing else changes |
| Mixer.WithoutMembers | src/components/emotion-mixer-retro-react-fixed.tsx:202 | filtering out a name keeps exactly the other names and shortens a list that held it |
| Mixer.WithoutAt | src/components/emotion-mixer-retro-react-fixed.tsx:202 | in a list without duplicates, filtering out the name at position i removes exactly that position |
| Mixer.WithoutNoDuplicates | src/components/emotion-mixer-retro-react-fixed.tsx:202 | filtering keeps a list free of duplicates |
| Mixer.FromEntriesSpec | src/components/emotion-mixer-retro-react-fixed.tsx:245-250 | for distinct keys, the built map has exactly those keys, each mapped to its paired value |
| Mixer.Names | src/components/emotion-mixer-retro-react-fixed.tsx:244 | one name per shuffled entry, in the same order |
| Mixer.ToggleKeepsValid | src/components/emotion-mixer-retro-react-fixed.tsx:200-210 | toggling a palette emotion keeps the panel invariant |
| Mixer.ToggleRemoves | src/components/emotion-mixer-retro-react-fixed.tsx:201-205 | toggling a selected emotion removes it from its place, keeps the others in order, and the new intensities are the old ones with exactly its entry deleted |
| Mixer.ToggleAbsent | src/components/emotion-mixer-retro-react-fixed.tsx:206-209 | toggling an unselected emotion appends it with intensity 5 and changes nothing else when fewer than three are selected, and changes nothing at all when three are |
| Mixer.ToggleTwiceRestores | src/components/emotion-mixer-retro-react-fixed.tsx:200-210 | selecting and then deselecting an emotion restores the previous state exactly |
| Mixer.ReselectResets | src/components/emotion-mixer-retro-react-fixed.tsx:200-210 | deselecting and then reselecting an emotion moves it to the end and resets its intensity to 5 |
| Mixer.SetIntensityKeepsValid | src/components/emotion-mixer-retro-react-fixed.tsx:338-342 | a knob value in 0..10 for a selected emotion keeps the invariant, sets that emotion's tier, and keeps every other intensity |
| Mixer.ShuffledNames | src/components/emotion-mixer-retro-react-fixed.tsx:240-244 | the first `count` names of a shuffled palette are distinct palette names |
| Mixer.RandomizedValid | src/components/emotion-mixer-retro-react-fixed.tsx:235-254 | a random pick is a valid state with exactly `count` emotions, the first `count` shuffled names in order, each with its drawn intensity |
| Mixer.PickOrderIrrelevant | src/components/emotion-mixer-retro-react-fixed.tsx:200-233 | picking two emotions in either order gives the same status code |
| Mixer.EmotionMixer.constructor | src/components/emotion-mixer-retro-react-fixed.tsx:185-186 | the panel starts with nothing selected and no intensities, which satisfies the invariant |
| Mixer.EmotionMixer.Toggle | src/components/emotion-mixer-retro-react-fixed.tsx:200-210 | the new selection and intensities are the toggle transition of the old ones, and the invariant holds |
| Mixer.EmotionMixer.SetIntensity | src/components/emotion-mixer-retro-react-fixed.tsx:338-342 | the new state is the old one with that emotion's intensity overwritten, and the invariant holds |
| Mixer.EmotionMixer.Randomize | src/components/emotion-mixer-retro-react-fixed.tsx:235-254 | the old state is discarded, the new state is the random pick, and the invariant holds |
| Mixer.MoveKnob | src/components/emotion-mixer-retro-react-fixed.tsx:332-352 | a knob move changes the emotion's intensity exactly when the knob emits, the invariant holds, and a knob that showed its emotion's intensity still does |

## Left out

- The power switch and the `OFFLINE` display (line 282) are left out. They choose only what is rendered.
- `activeRandomButton` (lines 187, 236) only highlights a button.
- The knob's rotation angle (lines 75, 94, 117) is display only.
- The unused `step` prop (line 67) has no effect on the value.
- `preventDefault` and the `knobRef` check (lines 85-86) are left out. After mount, the ref is always set.
- The window listener registration and the effect lifecycle (lines 104-113) are left out.
  - The model treats every mouse move and mouse up as reaching the handlers exactly while a drag is active.
  - Listener leaks and cleanup on unmount are not modelled.
- Knob.RetroKnob.MouseMove: each state update is modelled as applied before the next event is
  handled. In the source, the mouse-move handler closes over the `localValue` and `isDragging` of the
  last render, and is re-created only after React re-renders and re-runs the effect (line 113). A
  second mouse move handled before that re-render compares against the old snapshot at line 92 and
  can emit the same value again. The model's "no repeated emission" holds only under this
  one-update-per-render assumption.
- `Math.random` (lines 241, 248) becomes caller-supplied parameters: the shuffled palette and the intensity draws.
- Knob.DragValue: the arithmetic is over exact reals, not IEEE doubles. Rounding errors in
  `(deltaY / 100) * range` that could move a value across a half-way point are not modelled.
- Knob.RetroKnob: the bounds and sensitivity are fixed per instance. The source lets the props change
  at runtime, which the model does not capture.
- SortByKey.SortBy: the sort is an insertion sort, not the engine's sort algorithm.
  - Because codes are distinct, `SortByKey.OrderedUnique` shows that every correct sort gives the same list.
  - An engine with an inconsistent comparator is not modelled.
- CseCode.GenerateCode requires every selected name to be in the palette. For any other name the source
  would fail on `find(...).code`. Only palette names are ever selected.
- Mixer.EmotionMixer.Toggle requires a palette name, since the toggle buttons are rendered from the palette.
- Mixer.EmotionMixer.Randomize accepts any count up to 3, including 0, while the buttons offer 1 to 3.
- `src/app/page.tsx` and the layout components (`RetroPanel`, `RetroLayout`, `RetroDisplayPanel`,
  `RetroControlPanel`) only render and are not part of this model.
