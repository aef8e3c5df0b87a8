# Portfolio translation resolver and matrix-text animation, in Dafny

This project models the two pieces of sequential logic in the portfolio site's
front end and proves properties of them.

- **Language provider** (`contexts/LanguageContext.tsx`, module
  `LanguageContext`). The provider holds the current language, which starts as
  Portuguese, and a toggle that switches between Portuguese and English. Its
  resolver `t(key)` splits a dotted key on `.` and walks the current language's
  catalog one segment at a time with optional chaining. If a step comes back
  undefined, it walks the same path again in the English catalog and returns
  `fallback || key`. Otherwise it returns `result || key`. A catalog is a
  `Tree`, either `Leaf(string)` or `Node(map<string, Tree>)`; a missing value
  is `None`. `t`'s result has type `Tree`, because the source returns subtrees
  unchanged; a returned key is `Leaf(key)`. The provider is a class with a
  `language` field. `ToggleLanguage` is a method that changes that field. `T`
  is a method with the source's two loops, proved equal to the pure
  specification function `Translate`. `useLanguage` returns a `Result` whose
  failure carries the message the source throws.
- **Matrix text** (`components/ui/matrix-text.tsx`, module
  `MatrixTextAnimation`). The component holds one `LetterState` per character
  of its text. The source's field `char` is called `character` here, because
  `char` is a Dafny keyword. `animateLetter` works in two steps: it first
  scrambles one letter to a random `'0'`/`'1'`, unless the letter is a space,
  and later restores it to the text's character. `startAnimation` animates
  indices 0, 1, … in order and starts again only when `loop` is set. The
  component is a class whose `letters` field is a `seq` that each step
  replaces with an updated copy, as the source's `[...prev]` does. The pure
  functions `Scrambled` and `Restored` specify those steps. The lemmas prove a
  state invariant `WellFormed`: every letter is either at rest or a scrambled
  non-space letter showing a binary digit. They also prove the frame
  properties, the scramble–restore round trip, and that steps at different
  indices commute pairwise. A ghost field `animated` records the index of
  every `animateLetter` call, and a ghost field `shown` records the letter
  list after every state update. So the order of the calls in a pass, and the
  scrambled state each letter passes through, are part of the contract. Both
  are needed because the restore overwrites everything the scramble wrote:
  the state after `animateLetter` does not depend on the scramble at all.

Two rules of `t` (contexts/LanguageContext.tsx:39) are easy to miss:
- A path that ends at an object returns that object. An object is truthy, so
  it is not replaced by the English value or the key.
- A path that ends at an empty string returns the key, not the English value.

The navigation bar only compares its `activeSection` prop with each item's
URL (components/ui/tubelight-navbar.tsx:73). Its caller, the home page, never
passes that prop (components/layout/home-client.tsx:81). So no scroll-section
tracker is modelled.

## Model

| member | source | states |
|---|---|---|
| `LanguageContext.Toggled` | contexts/LanguageContext.tsx:22-24 | the toggled language always differs from the old one, and Portuguese goes to English (and so English to Portuguese) |
| `LanguageContext.ToggleTwice` | contexts/LanguageContext.tsx:22-24 | toggling twice restores the original language |
| `LanguageContext.LanguageProvider.constructor` | contexts/LanguageContext.tsx:15-20 | a new provider holds the given catalogs and starts in Portuguese |
| `LanguageContext.LanguageProvider.ToggleLanguage` | contexts/LanguageContext.tsx:22-24 | the language becomes the toggled old language; nothing else changes |
| `LanguageContext.Split` | contexts/LanguageContext.tsx:27 | `key.split('.')` gives at least one segment, and no segment contains the separator |
| `LanguageContext.JoinSplit` | contexts/LanguageContext.tsx:27 | joining the segments with the separator gives back the key, so splitting loses nothing |
| `LanguageContext.SplitJoin` | contexts/LanguageContext.tsx:27 | splitting a join of separator-free segments gives back exactly those segments |
| `LanguageContext.WalkAppend` | contexts/LanguageContext.tsx:29-31 | walking a path one segment at a time is the same as walking its prefix and then the rest |
| `LanguageContext.WalkUndefinedStays` | contexts/LanguageContext.tsx:33-35 | once the value is undefined, `?.[k]` keeps it undefined for every remaining segment |
| `LanguageContext.WalkMissingPrefix` | contexts/LanguageContext.tsx:30-36 | if any prefix of the path is missing, the whole path is missing |
| `LanguageContext.EmptySegmentMisses` | contexts/LanguageContext.tsx:29-34 | in a catalog with no empty member names, a path with an empty segment never resolves |
| `LanguageContext.Truthy` | contexts/LanguageContext.tsx:36-39 | JavaScript truthiness of a catalog value: only the empty string is falsy, and every object is truthy |
| `LanguageContext.Step` | contexts/LanguageContext.tsx:30-34 | one step `v?.[k]`: the member `k` of an object, or undefined for a missing member, a string leaf or an undefined value |
| `LanguageContext.Walk` | contexts/LanguageContext.tsx:29-35 | the value reached by applying `Step` to the segments in order, as the two `for` loops do |
| `LanguageContext.OrKey` | contexts/LanguageContext.tsx:36-39 | the value when it is defined and truthy, otherwise the key |
| `LanguageContext.Translate` | contexts/LanguageContext.tsx:26-40 | the specification of `t`: the current language's walk of the split key, or the English walk when that breaks, each passed through `OrKey` |
| `LanguageContext.LanguageProvider.T` | contexts/LanguageContext.tsx:26-40 | the loops, including the early return into the English re-walk, compute exactly `Translate` for the current language; the method reads state and changes nothing |
| `LanguageContext.TranslateFound` | contexts/LanguageContext.tsx:27-39 | if the whole path exists in the current language with a truthy value, that value is returned |
| `LanguageContext.TranslateFallback` | contexts/LanguageContext.tsx:30-36 | if the path breaks in the current language, the result is the English walk of the full path, or the key when that walk is missing or falsy |
| `LanguageContext.TranslateKeyLeak` | contexts/LanguageContext.tsx:36-39 | if neither catalog yields a truthy value at the path, the key is returned verbatim |
| `LanguageContext.EmptyLeafYieldsKey` | contexts/LanguageContext.tsx:29-39 | an empty string at the path in the current language yields the key, whatever English holds |
| `LanguageContext.SubtreeReturned` | contexts/LanguageContext.tsx:39 | a path that ends at an object returns that object itself |
| `LanguageContext.EnglishMissYieldsKey` | contexts/LanguageContext.tsx:30-36 | with English current, a broken path breaks again in the re-walk and yields the key |
| `LanguageContext.TranslateShape` | contexts/LanguageContext.tsx:26-40 | the result is the current language's value, the English value or the key, and for a non-empty key it is never falsy |
| `LanguageContext.MissingKeyLeaks` | contexts/LanguageContext.tsx:26-39 | `"totally.missing.key"` returns itself when neither catalog has a top-level `"totally"` |
| `LanguageContext.EmptySegmentLeaks` | contexts/LanguageContext.tsx:26-39 | `"nav..home"` returns itself when neither catalog has an empty member name |
| `LanguageContext.UseLanguage` | contexts/LanguageContext.tsx:49-55 | outside a provider it fails with the source's message; inside one it returns that provider |
| `MatrixTextAnimation.Resting` | components/ui/matrix-text.tsx:33-37 | a letter at rest: the text's character, not scrambled, and a space exactly when the character is `' '` |
| `MatrixTextAnimation.Display` | components/ui/matrix-text.tsx:141 | a space letter is displayed as U+00A0, and any other letter as its current character |
| `MatrixTextAnimation.InitialLetters` | components/ui/matrix-text.tsx:32-38 | one letter per character of the text, each holding that character, not scrambled, and a space exactly when the character is `' '` |
| `MatrixTextAnimation.RandomChar` | components/ui/matrix-text.tsx:41-44 | the random character is `'0'` or `'1'`, and it is `'1'` exactly when the draw exceeds one half |
| `MatrixTextAnimation.Scrambled` | components/ui/matrix-text.tsx:52-60 | only position `index` may change; its `isSpace` is kept; a space is left untouched; a non-space letter becomes a scrambled `'0'`/`'1'` |
| `MatrixTextAnimation.Restored` | components/ui/matrix-text.tsx:64-72 | only position `index` changes; it holds the text's character, is not scrambled, and keeps its `isSpace`, whatever its previous state |
| `MatrixTextAnimation.InitialWellFormed` | components/ui/matrix-text.tsx:32-38 | the initial letters satisfy the invariant `WellFormed` |
| `MatrixTextAnimation.ScramblePreserves` | components/ui/matrix-text.tsx:53-59 | the scramble step preserves `WellFormed` |
| `MatrixTextAnimation.RestorePreserves` | components/ui/matrix-text.tsx:64-71 | the restore step preserves `WellFormed` and puts the letter back at rest |
| `MatrixTextAnimation.SpaceNeverScrambled` | components/ui/matrix-text.tsx:53-59 | in every well-formed state, a space letter is at rest and is displayed as a non-breaking space |
| `MatrixTextAnimation.DisplayWellFormed` | components/ui/matrix-text.tsx:141 | a space is displayed as U+00A0; any other letter shows its own character or, while scrambled, a binary digit |
| `MatrixTextAnimation.ScrambleRestoreRoundTrip` | components/ui/matrix-text.tsx:53-71 | scrambling a resting letter and then restoring it gives back the whole array unchanged |
| `MatrixTextAnimation.InitialRoundTrip` | components/ui/matrix-text.tsx:32-71 | from the initial letters, scramble then restore at any index gives back the initial letters |
| `MatrixTextAnimation.StepsCommute` | components/ui/matrix-text.tsx:50-73 | steps at different indices commute pairwise: a scramble and a restore, two scrambles, or two restores at distinct indices reach the same state in either order |
| `MatrixTextAnimation.MatrixText.constructor` | components/ui/matrix-text.tsx:32-38 | a new component holds its text and loop flag, its letters are the initial letters, and both ghost records are empty |
| `MatrixTextAnimation.MatrixText.WithDefaults` | components/ui/matrix-text.tsx:23-38 | with no props, the text is `"HelloWorld!"`, looping is off, the letters are initial, and both ghost records are empty |
| `MatrixTextAnimation.MatrixText.ScrambleLetter` | components/ui/matrix-text.tsx:51-61 | the letters become `Scrambled` of the old letters and are appended to `shown`, and the invariant holds |
| `MatrixTextAnimation.MatrixText.RestoreLetter` | components/ui/matrix-text.tsx:63-73 | the letters become `Restored` of the old letters and are appended to `shown`, and the restored letter is at rest |
| `MatrixTextAnimation.MatrixText.AnimateLetter` | components/ui/matrix-text.tsx:46-77 | the call is appended to the ghost call trace; an index past the text changes no letter and shows nothing; otherwise `shown` grows by exactly two states, first the scrambled letters and then the restored ones, and the letters end restored |
| `MatrixTextAnimation.Animated` | components/ui/matrix-text.tsx:46-77 | both steps of `animateLetter` at one index: scramble, then restore |
| `MatrixTextAnimation.AnimatedEndsRestored` | components/ui/matrix-text.tsx:51-73 | both steps at an index end in the same state as the restore alone, whatever the random draw, so only the intermediate state shows the scramble |
| `MatrixTextAnimation.PassShown` | components/ui/matrix-text.tsx:46-95 | the letter lists shown during the rest of a pass: two per index from `from` on, each as long as the text |
| `MatrixTextAnimation.PassShownScrambles` | components/ui/matrix-text.tsx:51-95 | during the rest of a pass, each index from `from` on is shown once scrambled to the digit of its draw (unless it is a space, which keeps `isSpace`) and then once restored to its character |
| `MatrixTextAnimation.Indices` | components/ui/matrix-text.tsx:80-93 | the values `currentIndex` takes in one pass: 0, 1, …, n−1, each at its own position |
| `MatrixTextAnimation.Pass` | components/ui/matrix-text.tsx:80-95 | the letters after the rest of a pass: `Animated` applied at `from`, `from`+1, …, length−1, in increasing order, each once |
| `MatrixTextAnimation.PassAt` | components/ui/matrix-text.tsx:80-95 | the rest of a pass from index `from` restores every index from `from` on to its character, keeps its `isSpace`, and leaves the earlier letters unchanged |
| `MatrixTextAnimation.PassRests` | components/ui/matrix-text.tsx:80-95 | from a well-formed state whose letters before `from` rest, the rest of a pass leaves every letter at rest, that is, equal to the initial letters |
| `MatrixTextAnimation.MatrixText.StartAnimation` | components/ui/matrix-text.tsx:79-98 | the call trace grows by exactly the indices 0, 1, …, length−1, in increasing order, so `animateLetter` runs on each index once; `shown` grows by exactly `PassShown` of the old letters, so every letter is shown scrambled and then restored; the letters become `Pass` of the old letters, which is every letter at rest; another pass is due exactly when `loop` is set |

## Left out

- React scheduling is not modelled: `useState`/`useEffect`, `requestAnimationFrame`, `setTimeout`, `clearTimeout`, and the delays (`initialDelay`, `letterAnimationDuration`, `letterInterval`, `loopDelay`). Each letter's scramble and restore are taken back to back, so the model's order is s0, r0, s1, r1, …. With the default delays (`letterInterval` 100 ms, `letterAnimationDuration` 500 ms) about five letters are scrambled at once, so in the source the scrambles of later letters come before the restores of earlier ones: s0, s1, …, s4, then restores and scrambles alternate. `StepsCommute` proves that steps at different letters commute pairwise. That the whole interleaved order reaches the same state follows from it but is not proved as a lemma. A second pass is reported through `StartAnimation`'s `again` result rather than run.
- `Math.random` is not modelled. The random draw is the `bit` parameter, and a pass takes one bit per letter.
- The catalog contents (`locales/en.json`, `locales/pt.json`) are not part of this model. The catalogs are arbitrary trees.
- JSON numbers, booleans and `null` as catalog values are left out; only strings and objects are modelled. Arrays are modelled as objects keyed by their index strings, and an array's `length` property is left out.
- Members inherited through the prototype chain are not modelled. In JavaScript, `result?.[k]` on a parsed object also finds `Object.prototype` members, and on an array also `Array.prototype` members, so `t("constructor")` or `t("projectData.map")` returns a function. In the model, a key that names such a member is treated as missing.
- Indexing into a string with `?.[k]`, which JavaScript allows, is left out. A JavaScript string supports `"abc"?.["0"]` and `"abc"?.["length"]`; in the model a leaf cannot be indexed, so the step is undefined.
- The `text` prop is constant for the life of a component. The source builds `letters` from the first `text` only, so a later change of the prop is not modelled.
- The matrix text is modelled only for texts with no character outside the Basic Multilingual Plane. JavaScript's `split("")` and `text[index]` work on UTF-16 code units, so such a character (an emoji, say) becomes two lone surrogate letters. A Dafny `char` is a Unicode scalar value and cannot hold a surrogate half.
- The unused `isAnimating` state, the motion variants, class names and all other markup are left out because they are rendering only.
- The rest of the site is not modelled because it is glue or presentation: the contact API route, open-graph image generation, the email template, the theme toggle, background paths, particles, text shimmer, layout components, and scroll or resize threshold checks.
