/**
 * The letter states behind the "matrix" text animation: every letter of the
 * text starts at rest, an animation step scrambles one letter to a random
 * binary digit and later restores it, and one pass of the animation visits
 * the letters from first to last. Timers are left out (each letter's scramble
 * and restore are taken back to back) and the random bit is a parameter.
 */
module MatrixTextAnimation {

  /** What the component keeps for one letter. */
  datatype LetterState = LetterState(character: char, isMatrix: bool, isSpace: bool)

  /** The character a space letter is displayed as (U+00A0). */
  const NoBreakSpace: char := '\U{00A0}'

  /** The text shown when the caller gives none. */
  const DefaultText: string := "HelloWorld!"

  /** A letter at rest: its own character, not scrambled, a space exactly when it is `' '`. */
  function Resting(c: char): LetterState {
    LetterState(c, false, c == ' ')
  }

  /** The initial `letters`: one resting letter per character of `text`. */
  function InitialLetters(text: string): (r: seq<LetterState>)
    ensures |r| == |text|
    ensures forall i :: 0 <= i < |text| ==> r[i] == Resting(text[i])
  {
    if |text| == 0 then [] else [Resting(text[0])] + InitialLetters(text[1..])
  }

  /** `getRandomChar`, with `bit` standing for `Math.random() > 0.5`. */
  function RandomChar(bit: bool): (c: char)
    ensures c == '0' || c == '1'
    ensures bit <==> c == '1'
  {
    if bit then '1' else '0'
  }

  /** What a letter is displayed as. */
  function Display(letter: LetterState): char {
    if letter.isSpace then NoBreakSpace else letter.character
  }

  /** The letters after the scramble step at `index`. */
  function Scrambled(letters: seq<LetterState>, index: nat, bit: bool): (r: seq<LetterState>)
    requires index < |letters|
    ensures |r| == |letters|
    ensures forall j :: 0 <= j < |letters| && j != index ==> r[j] == letters[j]
    ensures r[index].isSpace == letters[index].isSpace
    ensures letters[index].isSpace ==> r[index] == letters[index]
    ensures !letters[index].isSpace ==> r[index].isMatrix && (r[index].character == '0' || r[index].character == '1')
  {
    if letters[index].isSpace then letters
    else letters[index := letters[index].(character := RandomChar(bit), isMatrix := true)]
  }

  /** The letters after the restore step at `index`. */
  function Restored(letters: seq<LetterState>, text: string, index: nat): (r: seq<LetterState>)
    requires index < |letters| && index < |text|
    ensures |r| == |letters|
    ensures forall j :: 0 <= j < |letters| && j != index ==> r[j] == letters[j]
    ensures r[index] == LetterState(text[index], false, letters[index].isSpace)
  {
    letters[index := letters[index].(character := text[index], isMatrix := false)]
  }

  /**
   * The state every step keeps: one letter per character, and each letter is
   * either at rest or a scrambled non-space letter showing a binary digit.
   */
  predicate WellFormed(text: string, letters: seq<LetterState>) {
    |letters| == |text| &&
    forall i :: 0 <= i < |text| ==>
      letters[i] == Resting(text[i]) ||
      (text[i] != ' ' && letters[i] == LetterState(letters[i].character, true, false) &&
       (letters[i].character == '0' || letters[i].character == '1'))
  }

  lemma InitialWellFormed(text: string)
    ensures WellFormed(text, InitialLetters(text))
  {
  }

  lemma ScramblePreserves(text: string, letters: seq<LetterState>, index: nat, bit: bool)
    requires WellFormed(text, letters) && index < |text|
    ensures WellFormed(text, Scrambled(letters, index, bit))
  {
  }

  lemma RestorePreserves(text: string, letters: seq<LetterState>, index: nat)
    requires WellFormed(text, letters) && index < |text|
    ensures WellFormed(text, Restored(letters, text, index))
    ensures Restored(letters, text, index)[index] == Resting(text[index])
  {
  }

  /** A space letter is never scrambled: in every well-formed state it is at rest. */
  lemma SpaceNeverScrambled(text: string, letters: seq<LetterState>, i: nat)
    requires WellFormed(text, letters) && i < |text| && text[i] == ' '
    ensures letters[i] == Resting(' ')
    ensures Display(letters[i]) == NoBreakSpace
  {
  }

  /** What is displayed at a position of a well-formed state. */
  lemma DisplayWellFormed(text: string, letters: seq<LetterState>, i: nat)
    requires WellFormed(text, letters) && i < |text|
    ensures text[i] == ' ' ==> Display(letters[i]) == NoBreakSpace
    ensures text[i] != ' ' ==>
              Display(letters[i]) == text[i] || (letters[i].isMatrix && Display(letters[i]) in {'0', '1'})
  {
  }

  /** Scrambling a resting letter and restoring it gives back the letters one started with. */
  lemma ScrambleRestoreRoundTrip(text: string, letters: seq<LetterState>, index: nat, bit: bool)
    requires |letters| == |text| && index < |text|
    requires letters[index] == Resting(text[index])
    ensures Restored(Scrambled(letters, index, bit), text, index) == letters
  {
  }

  /** In particular, from the initial state it gives back the initial state. */
  lemma InitialRoundTrip(text: string, index: nat, bit: bool)
    requires index < |text|
    ensures Restored(Scrambled(InitialLetters(text), index, bit), text, index) == InitialLetters(text)
  {
  }

  /**
   * Steps at different positions commute pairwise: a scramble and a restore,
   * two scrambles or two restores at distinct indices reach the same state in
   * either order.
   */
  lemma StepsCommute(text: string, letters: seq<LetterState>, i: nat, j: nat, bi: bool, bj: bool)
    requires |letters| == |text| && i < |text| && j < |text| && i != j
    ensures Restored(Scrambled(letters, i, bi), text, j) == Scrambled(Restored(letters, text, j), i, bi)
    ensures Scrambled(Scrambled(letters, i, bi), j, bj) == Scrambled(Scrambled(letters, j, bj), i, bi)
    ensures Restored(Restored(letters, text, i), text, j) == Restored(Restored(letters, text, j), text, i)
  {
  }

  /** Both steps of `animateLetter` at `index`, taken in order. */
  function Animated(letters: seq<LetterState>, text: string, index: nat, bit: bool): (r: seq<LetterState>)
    requires index < |letters| && index < |text|
  {
    Restored(Scrambled(letters, index, bit), text, index)
  }

  /**
   * The restore overwrites everything the scramble wrote, so the state after
   * both steps does not depend on the draw: only the intermediate, scrambled
   * state shows the animation.
   */
  lemma AnimatedEndsRestored(letters: seq<LetterState>, text: string, index: nat, bit: bool)
    requires index < |letters| && index < |text|
    ensures Animated(letters, text, index, bit) == Restored(letters, text, index)
  {
  }

  /**
   * The letters after the rest of a pass of `startAnimation`, from index
   * `from` on: each index animated once, in increasing order.
   */
  function Pass(letters: seq<LetterState>, text: string, bits: seq<bool>, from: nat): seq<LetterState>
    requires |letters| == |text| == |bits|
    decreases |text| - from
  {
    if from >= |text| then letters
    else Pass(Animated(letters, text, from, bits[from]), text, bits, from + 1)
  }

  /**
   * The rest of a pass restores every index from `from` on to its character,
   * with its `isSpace` kept; the letters before `from` are unchanged.
   */
  lemma {:induction false} PassAt(letters: seq<LetterState>, text: string, bits: seq<bool>, from: nat)
    requires |letters| == |text| == |bits|
    ensures |Pass(letters, text, bits, from)| == |letters|
    ensures forall k :: 0 <= k < |letters| && k < from ==> Pass(letters, text, bits, from)[k] == letters[k]
    ensures forall k :: from <= k < |letters| ==>
              Pass(letters, text, bits, from)[k] == LetterState(text[k], false, letters[k].isSpace)
    decreases |text| - from
  {
    if from < |text| {
      PassAt(Animated(letters, text, from, bits[from]), text, bits, from + 1);
    }
  }

  /** From a well-formed state whose letters before `from` rest, the rest of a pass leaves all at rest. */
  lemma {:induction false} PassRests(letters: seq<LetterState>, text: string, bits: seq<bool>, from: nat)
    requires WellFormed(text, letters) && |bits| == |text|
    requires forall k :: 0 <= k < |text| && k < from ==> letters[k] == Resting(text[k])
    ensures Pass(letters, text, bits, from) == InitialLetters(text)
    decreases |text| - from
  {
    if from < |text| {
      var next := Animated(letters, text, from, bits[from]);
      ScramblePreserves(text, letters, from, bits[from]);
      RestorePreserves(text, Scrambled(letters, from, bits[from]), from);
      PassRests(next, text, bits, from + 1);
    } else {
      assert forall k :: 0 <= k < |text| ==> letters[k] == InitialLetters(text)[k];
    }
  }

  /**
   * The letter lists the component holds during the rest of a pass from
   * `from` on, in order: for each index, the state after its scramble and
   * then the state after its restore.
   */
  function PassShown(letters: seq<LetterState>, text: string, bits: seq<bool>, from: nat): (r: seq<seq<LetterState>>)
    requires |letters| == |text| == |bits|
    ensures from <= |text| ==> |r| == 2 * (|text| - from)
    ensures forall i :: 0 <= i < |r| ==> |r[i]| == |letters|
    decreases |text| - from
  {
    if from >= |text| then []
    else [Scrambled(letters, from, bits[from]), Animated(letters, text, from, bits[from])]
         + PassShown(Animated(letters, text, from, bits[from]), text, bits, from + 1)
  }

  /** One step of a pass: animate `from`, then continue from `from + 1`. */
  lemma PassStep(letters: seq<LetterState>, text: string, bits: seq<bool>, from: nat)
    requires |letters| == |text| == |bits| && from < |text|
    ensures Pass(letters, text, bits, from) == Pass(Animated(letters, text, from, bits[from]), text, bits, from + 1)
    ensures PassShown(letters, text, bits, from)
              == [Scrambled(letters, from, bits[from]), Animated(letters, text, from, bits[from])]
                 + PassShown(Animated(letters, text, from, bits[from]), text, bits, from + 1)
  {
  }

  /**
   * During the rest of a pass every index from `from` on is shown scrambled
   * once, as a binary digit unless it is a space, and is then shown restored
   * to its character.
   */
  lemma {:induction false} PassShownScrambles(letters: seq<LetterState>, text: string, bits: seq<bool>, from: nat)
    requires |letters| == |text| == |bits| && from <= |text|
    ensures forall k :: from <= k < |text| ==>
              var s := PassShown(letters, text, bits, from)[2 * (k - from)][k];
              s.isSpace == letters[k].isSpace &&
              (!letters[k].isSpace ==> s.isMatrix && s.character == RandomChar(bits[k]))
    ensures forall k :: from <= k < |text| ==>
              PassShown(letters, text, bits, from)[2 * (k - from) + 1][k]
                == LetterState(text[k], false, letters[k].isSpace)
    decreases |text| - from
  {
    if from < |text| {
      var next := Animated(letters, text, from, bits[from]);
      PassShownScrambles(next, text, bits, from + 1);
      var shown := PassShown(letters, text, bits, from);
      var rest := PassShown(next, text, bits, from + 1);
      assert shown == [Scrambled(letters, from, bits[from]), next] + rest;
      forall k | from < k < |text|
        ensures shown[2 * (k - from)] == rest[2 * (k - from - 1)]
        ensures shown[2 * (k - from) + 1] == rest[2 * (k - from - 1) + 1]
        ensures next[k] == letters[k]
      {
      }
    }
  }

  /** The indices 0, 1, ..., n - 1, in increasing order. */
  function Indices(n: nat): (r: seq<nat>)
    ensures |r| == n
    ensures forall k :: 0 <= k < n ==> r[k] == k
  {
    if n == 0 then [] else Indices(n - 1) + [n - 1]
  }

  /**
   * One `MatrixText` component: its text, whether it loops, and its letters.
   * The ghost `animated` records the index of every `animateLetter` call so
   * far, and the ghost `shown` every letter list a state update has produced,
   * both oldest first.
   */
  class MatrixText {
    const text: string
    const loop: bool
    var letters: seq<LetterState>
    ghost var animated: seq<nat>
    ghost var shown: seq<seq<LetterState>>

    ghost predicate Valid()
      reads this
    {
      WellFormed(text, letters)
    }

    constructor (text: string, loop: bool)
      ensures this.text == text && this.loop == loop
      ensures letters == InitialLetters(text) && animated == [] && shown == []
      ensures Valid()
    {
      this.text := text;
      this.loop := loop;
      letters := InitialLetters(text);
      animated := [];
      shown := [];
      InitialWellFormed(text);
    }

    /** A component given no props: the default text, no looping. */
    constructor WithDefaults()
      ensures text == DefaultText && !loop
      ensures letters == InitialLetters(text) && animated == [] && shown == []
      ensures Valid()
    {
      InitialWellFormed(DefaultText);
      text, loop := DefaultText, false;
      letters, animated, shown := InitialLetters(DefaultText), [], [];
    }

    /** The first state update of `animateLetter`: copy the letters and scramble one. */
    method ScrambleLetter(index: nat, bit: bool)
      requires Valid() && index < |text|
      modifies this`letters, this`shown
      ensures Valid()
      ensures letters == Scrambled(old(letters), index, bit)
      ensures shown == old(shown) + [letters]
    {
      var newLetters := letters;
      if !newLetters[index].isSpace {
        newLetters := newLetters[index := LetterState(RandomChar(bit), true, newLetters[index].isSpace)];
      }
      ScramblePreserves(text, letters, index, bit);
      letters := newLetters;
      shown := shown + [letters];
    }

    /** The delayed state update of `animateLetter`: copy the letters and restore one. */
    method RestoreLetter(index: nat)
      requires Valid() && index < |text|
      modifies this`letters, this`shown
      ensures Valid()
      ensures letters == Restored(old(letters), text, index)
      ensures shown == old(shown) + [letters]
      ensures letters[index] == Resting(text[index])
    {
      var newLetters := letters;
      newLetters := newLetters[index := LetterState(text[index], false, newLetters[index].isSpace)];
      RestorePreserves(text, letters, index);
      letters := newLetters;
      shown := shown + [letters];
    }

    /** `animateLetter`: an index past the text does nothing; otherwise scramble, then restore. */
    method AnimateLetter(index: nat, bit: bool)
      requires Valid()
      modifies this`letters, this`animated, this`shown
      ensures Valid()
      ensures animated == old(animated) + [index]
      ensures index >= |text| ==> letters == old(letters) && shown == old(shown)
      ensures index < |text| ==> letters == Animated(old(letters), text, index, bit)
      ensures index < |text| ==>
                shown == old(shown) + [Scrambled(old(letters), index, bit), Animated(old(letters), text, index, bit)]
    {
      animated := animated + [index];
      if index >= |text| {
        return;
      }
      ScrambleLetter(index, bit);
      RestoreLetter(index);
    }

    /**
     * One pass of `startAnimation`: `animateLetter` on `currentIndex` = 0, 1,
     * ..., |text| - 1, each once and in that order, which leaves every letter
     * at rest; another pass is due exactly when the component loops.
     */
    method StartAnimation(bits: seq<bool>) returns (again: bool)
      requires Valid() && |bits| == |text|
      modifies this`letters, this`animated, this`shown
      ensures Valid()
      ensures animated == old(animated) + Indices(|text|)
      ensures shown == old(shown) + PassShown(old(letters), text, bits, 0)
      ensures letters == Pass(old(letters), text, bits, 0)
      ensures letters == InitialLetters(text)
      ensures again == loop
    {
      PassRests(letters, text, bits, 0);
      var currentIndex := 0;
      while currentIndex < |text|
        invariant 0 <= currentIndex <= |text|
        invariant Valid()
        invariant animated == old(animated) + Indices(currentIndex)
        invariant Pass(letters, text, bits, currentIndex) == Pass(old(letters), text, bits, 0)
        invariant shown + PassShown(letters, text, bits, currentIndex) == old(shown) + PassShown(old(letters), text, bits, 0)
      {
        ghost var before, shownBefore := letters, shown;
        AnimateLetter(currentIndex, bits[currentIndex]);
        PassStep(before, text, bits, currentIndex);
        ghost var steps := [Scrambled(before, currentIndex, bits[currentIndex]), letters];
        ghost var rest := PassShown(letters, text, bits, currentIndex + 1);
        assert shownBefore + (steps + rest) == shown + rest;
        currentIndex := currentIndex + 1;
      }
      again := loop;
    }
  }
}
