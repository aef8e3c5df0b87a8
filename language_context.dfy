/**
 * The translation provider of the portfolio: a current language that starts
 * as Portuguese and can be toggled, and a resolver `t` that looks a dotted key
 * up in the current language's catalog, falls back to the English catalog
 * when the path breaks, and falls back to the key itself when the value found
 * is falsy.
 */
module LanguageContext {
  import opened Wrappers

  /** The two supported languages. */
  datatype Language = En | Pt

  /**
   * A value inside a translation catalog (a parsed JSON document): a display
   * string, or an object whose members are looked up by name. A JSON array is
   * represented as an object keyed by its index strings "0", "1", ...
   */
  datatype Tree = Leaf(text: string) | Node(children: map<string, Tree>)

  /** The catalog of each language; read only. */
  datatype Translations = Translations(en: Tree, pt: Tree) {
    function Of(language: Language): Tree {
      match language
      case En => en
      case Pt => pt
    }
  }

  /** The language a fresh provider starts in. */
  const InitialLanguage: Language := Pt

  /** The separator between the segments of a translation key. */
  const KeySeparator: char := '.'

  /** The message of the error thrown when the context is used outside a provider. */
  const OutsideProviderMessage: string := "useLanguage must be used within a LanguageProvider"

  /** The language `toggleLanguage` switches to. */
  function Toggled(language: Language): (r: Language)
    ensures r != language
    ensures language == Pt <==> r == En
  {
    if language == Pt then En else Pt
  }

  lemma ToggleTwice(language: Language)
    ensures Toggled(Toggled(language)) == language
  {
  }

  /** JavaScript truthiness of a catalog value: only the empty string is falsy. */
  predicate Truthy(v: Tree) {
    match v
    case Leaf(s) => s != ""
    case Node(_) => true
  }

  // ---------------------------------------------------------------------------
  // Key splitting (String.prototype.split with a one-character separator)
  // ---------------------------------------------------------------------------

  /** The segments of `s` between occurrences of `sep`, as JavaScript's `split` gives them. */
  function Split(s: string, sep: char): (r: seq<string>)
    ensures |r| >= 1
    ensures forall i :: 0 <= i < |r| ==> sep !in r[i]
    decreases |s|
  {
    if |s| == 0 then [""]
    else if s[0] == sep then [""] + Split(s[1..], sep)
    else
      var rest := Split(s[1..], sep);
      [[s[0]] + rest[0]] + rest[1..]
  }

  /** The segments glued back together with `sep` between neighbours. */
  function Join(segments: seq<string>, sep: char): string
    requires |segments| >= 1
  {
    if |segments| == 1 then segments[0]
    else segments[0] + [sep] + Join(segments[1..], sep)
  }

  /** Splitting loses nothing: joining the segments gives back the key. */
  lemma {:induction false} JoinSplit(s: string, sep: char)
    ensures Join(Split(s, sep), sep) == s
    decreases |s|
  {
    if |s| == 0 {
    } else if s[0] == sep {
      var rest := Split(s[1..], sep);
      JoinSplit(s[1..], sep);
      assert Split(s, sep) == [""] + rest;
      assert ([""] + rest)[1..] == rest;
      assert Join([""] + rest, sep) == "" + [sep] + Join(rest, sep);
      assert s == [s[0]] + s[1..];
    } else {
      var rest := Split(s[1..], sep);
      JoinSplit(s[1..], sep);
      var r := [[s[0]] + rest[0]] + rest[1..];
      assert Split(s, sep) == r;
      if |rest| == 1 {
        assert Join(r, sep) == [s[0]] + rest[0];
        assert Join(rest, sep) == rest[0];
      } else {
        assert r[1..] == rest[1..];
        assert Join(r, sep) == [s[0]] + rest[0] + [sep] + Join(rest[1..], sep);
        assert Join(rest, sep) == rest[0] + [sep] + Join(rest[1..], sep);
      }
      assert s == [s[0]] + s[1..];
    }
  }

  /** Splitting a separator-free word with more text behind it keeps the word as the first segment. */
  lemma {:induction false} SplitPrefix(w: string, tail: string, sep: char)
    requires sep !in w
    ensures Split(w + tail, sep)[0] == w + Split(tail, sep)[0]
    ensures Split(w + tail, sep)[1..] == Split(tail, sep)[1..]
    decreases |w|
  {
    if |w| > 0 {
      SplitPrefix(w[1..], tail, sep);
      assert (w + tail)[1..] == w[1..] + tail;
      assert (w + tail)[0] == w[0];
      assert [w[0]] + (w[1..] + Split(tail, sep)[0]) == w + Split(tail, sep)[0];
    } else {
      assert w + tail == tail;
    }
  }

  /** Joining separator-free segments and splitting again gives back the segments. */
  lemma {:induction false} SplitJoin(segments: seq<string>, sep: char)
    requires |segments| >= 1
    requires forall i :: 0 <= i < |segments| ==> sep !in segments[i]
    ensures Split(Join(segments, sep), sep) == segments
    decreases |segments|
  {
    var w := segments[0];
    if |segments| == 1 {
      SplitPrefix(w, "", sep);
      assert w + "" == w;
    } else {
      var rest := segments[1..];
      SplitJoin(rest, sep);
      var tail := [sep] + Join(rest, sep);
      assert Join(segments, sep) == w + tail;
      SplitPrefix(w, tail, sep);
      assert tail[0] == sep && tail[1..] == Join(rest, sep);
      assert Split(tail, sep) == [""] + rest;
      assert Split(w + tail, sep) == [w + ""] + rest;
      assert w + "" == w;
      assert segments == [w] + rest;
    }
  }

  // ---------------------------------------------------------------------------
  // Walking a catalog (`result = result?.[k]`, one segment at a time)
  // ---------------------------------------------------------------------------

  /** One step `v?.[k]`: a member of an object; a string leaf is not indexable. */
  function Step(v: Option<Tree>, k: string): (r: Option<Tree>)
    ensures r.Some? <==> v.Some? && v.value.Node? && k in v.value.children
    ensures r.Some? ==> r.value == v.value.children[k]
  {
    match v
    case Some(Node(m)) => if k in m then Some(m[k]) else None
    case _ => None
  }

  /** The value reached from `v` by following `keys` in order, or `None` once a step fails. */
  function Walk(v: Option<Tree>, keys: seq<string>): Option<Tree>
    decreases |keys|
  {
    if |keys| == 0 then v else Walk(Step(v, keys[0]), keys[1..])
  }

  /** Walking a concatenated path is walking the first part, then the second. */
  lemma {:induction false} WalkAppend(v: Option<Tree>, a: seq<string>, b: seq<string>)
    ensures Walk(v, a + b) == Walk(Walk(v, a), b)
    decreases |a|
  {
    if |a| > 0 {
      assert (a + b)[0] == a[0];
      assert (a + b)[1..] == a[1..] + b;
      WalkAppend(Step(v, a[0]), a[1..], b);
    } else {
      assert a + b == b;
    }
  }

  /** Optional chaining keeps an undefined value undefined for the rest of the path. */
  lemma {:induction false} WalkUndefinedStays(keys: seq<string>)
    ensures Walk(None, keys) == None
    decreases |keys|
  {
    if |keys| > 0 {
      WalkUndefinedStays(keys[1..]);
    }
  }

  /** Once a prefix of the path is missing, the whole path is missing. */
  lemma WalkMissingPrefix(v: Option<Tree>, keys: seq<string>, i: nat)
    requires i <= |keys|
    requires Walk(v, keys[..i]) == None
    ensures Walk(v, keys) == None
  {
    assert keys == keys[..i] + keys[i..];
    WalkAppend(v, keys[..i], keys[i..]);
    WalkUndefinedStays(keys[i..]);
  }

  /** A catalog none of whose objects has a member named by the empty string. */
  predicate NoEmptyNames(t: Tree) {
    match t
    case Leaf(_) => true
    case Node(m) => "" !in m && forall k :: k in m ==> NoEmptyNames(m[k])
  }

  /** In such a catalog, a path with an empty segment never resolves. */
  lemma {:induction false} EmptySegmentMisses(v: Option<Tree>, keys: seq<string>)
    requires v.Some? ==> NoEmptyNames(v.value)
    requires "" in keys
    ensures Walk(v, keys) == None
    decreases |keys|
  {
    var next := Step(v, keys[0]);
    if keys[0] == "" {
      assert next == None;
      WalkUndefinedStays(keys[1..]);
    } else {
      assert "" in keys[1..];
      EmptySegmentMisses(next, keys[1..]);
    }
  }

  // ---------------------------------------------------------------------------
  // The resolver
  // ---------------------------------------------------------------------------

  /** `v || key`: the value when it is defined and truthy, otherwise the key itself. */
  function OrKey(v: Option<Tree>, key: string): (r: Tree)
    ensures v.Some? && Truthy(v.value) ==> r == v.value
    ensures r == Leaf(key) || (v == Some(r) && Truthy(r))
  {
    if v.Some? && Truthy(v.value) then v.value else Leaf(key)
  }

  /** The value at `key` in `catalog`, if the whole path exists. */
  function Lookup(catalog: Tree, key: string): Option<Tree> {
    Walk(Some(catalog), Split(key, KeySeparator))
  }

  /** What `t(key)` returns while `language` is current. */
  function Translate(translations: Translations, language: Language, key: string): Tree {
    var found := Lookup(translations.Of(language), key);
    if found.None? then OrKey(Lookup(translations.en, key), key)
    else OrKey(found, key)
  }

  /** A path that exists in the current language with a truthy value yields that value. */
  lemma TranslateFound(translations: Translations, language: Language, key: string)
    requires Lookup(translations.Of(language), key).Some?
    requires Truthy(Lookup(translations.Of(language), key).value)
    ensures Translate(translations, language, key) == Lookup(translations.Of(language), key).value
  {
  }

  /** A path that breaks in the current language yields whatever `||` makes of the English walk. */
  lemma TranslateFallback(translations: Translations, language: Language, key: string)
    requires Lookup(translations.Of(language), key).None?
    ensures Translate(translations, language, key) == OrKey(Lookup(translations.en, key), key)
    ensures Lookup(translations.en, key).Some? && Truthy(Lookup(translations.en, key).value) ==>
              Translate(translations, language, key) == Lookup(translations.en, key).value
  {
  }

  /** A value is truthy at `key` in `catalog`. */
  predicate Yields(catalog: Tree, key: string) {
    var v := Lookup(catalog, key);
    v.Some? && Truthy(v.value)
  }

  /** When neither catalog yields a truthy value, the key comes back verbatim. */
  lemma TranslateKeyLeak(translations: Translations, language: Language, key: string)
    requires !Yields(translations.Of(language), key)
    requires !Yields(translations.en, key)
    ensures Translate(translations, language, key) == Leaf(key)
  {
  }

  /**
   * An empty string stored at the path in the current language yields the key,
   * not the English value: the walk never became undefined.
   */
  lemma EmptyLeafYieldsKey(translations: Translations, language: Language, key: string)
    requires Lookup(translations.Of(language), key) == Some(Leaf(""))
    ensures Translate(translations, language, key) == Leaf(key)
  {
  }

  /** A path ending at an object returns the object itself (callers use `t('projectData')` as a list). */
  lemma SubtreeReturned(translations: Translations, language: Language, key: string, m: map<string, Tree>)
    requires Lookup(translations.Of(language), key) == Some(Node(m))
    ensures Translate(translations, language, key) == Node(m)
  {
  }

  /** With English current, a broken path is walked again in English, breaks again, and yields the key. */
  lemma EnglishMissYieldsKey(translations: Translations, key: string)
    requires Lookup(translations.en, key).None?
    ensures Translate(translations, En, key) == Leaf(key)
  {
  }

  /**
   * The resolver never returns anything but the current language's value, the
   * English value or the key; for a non-empty key the result is always truthy.
   */
  lemma TranslateShape(translations: Translations, language: Language, key: string)
    ensures var r := Translate(translations, language, key);
            Some(r) == Lookup(translations.Of(language), key) ||
            Some(r) == Lookup(translations.en, key) ||
            r == Leaf(key)
    ensures key != "" ==> Truthy(Translate(translations, language, key))
  {
  }

  /** A key naming no top-level member of either catalog leaks, e.g. "totally.missing.key". */
  lemma MissingKeyLeaks(translations: Translations, language: Language)
    requires translations.Of(language).Node? ==> "totally" !in translations.Of(language).children
    requires translations.en.Node? ==> "totally" !in translations.en.children
    ensures Translate(translations, language, "totally.missing.key") == Leaf("totally.missing.key")
  {
    var keys := ["totally", "missing", "key"];
    SplitJoin(keys, KeySeparator);
    assert Join(keys, KeySeparator) == "totally.missing.key";
    WalkMissingPrefix(Some(translations.Of(language)), keys, 1);
    WalkMissingPrefix(Some(translations.en), keys, 1);
  }

  /** A key with an empty segment such as "nav..home" leaks in catalogs without empty member names. */
  lemma EmptySegmentLeaks(translations: Translations, language: Language)
    requires NoEmptyNames(translations.en) && NoEmptyNames(translations.pt)
    ensures Translate(translations, language, "nav..home") == Leaf("nav..home")
  {
    var keys := ["nav", "", "home"];
    SplitJoin(keys, KeySeparator);
    assert Join(keys, KeySeparator) == "nav..home";
    EmptySegmentMisses(Some(translations.Of(language)), keys);
    EmptySegmentMisses(Some(translations.en), keys);
  }

  // ---------------------------------------------------------------------------
  // The provider
  // ---------------------------------------------------------------------------

  /** The state of one language provider: the catalogs and the current language. */
  class LanguageProvider {
    const translations: Translations
    var language: Language

    constructor (translations: Translations)
      ensures this.translations == translations
      ensures language == InitialLanguage
    {
      this.translations := translations;
      language := InitialLanguage;
    }

    /** Switches Portuguese to English and English to Portuguese. */
    method ToggleLanguage()
      modifies this`language
      ensures language == Toggled(old(language))
    {
      language := Toggled(language);
    }

    /** `t(key)`: reads the catalogs and the current language and changes nothing. */
    method T(key: string) returns (r: Tree)
      ensures r == Translate(translations, language, key)
    {
      var keys := Split(key, KeySeparator);
      var root := Some(translations.Of(language));
      var result := root;
      var i := 0;
      while i < |keys|
        invariant 0 <= i <= |keys|
        invariant result.Some?
        invariant result == Walk(root, keys[..i])
      {
        assert keys[..i + 1] == keys[..i] + [keys[i]];
        WalkAppend(root, keys[..i], [keys[i]]);
        result := Step(result, keys[i]);
        if result.None? {
          var fallbackResult := Some(translations.en);
          var j := 0;
          while j < |keys|
            invariant 0 <= j <= |keys|
            invariant fallbackResult == Walk(Some(translations.en), keys[..j])
          {
            assert keys[..j + 1] == keys[..j] + [keys[j]];
            WalkAppend(Some(translations.en), keys[..j], [keys[j]]);
            fallbackResult := Step(fallbackResult, keys[j]);
            j := j + 1;
          }
          assert keys[..|keys|] == keys;
          WalkMissingPrefix(root, keys, i + 1);
          return OrKey(fallbackResult, key);
        }
        i := i + 1;
      }
      assert keys[..|keys|] == keys;
      return OrKey(result, key);
    }
  }

  /** `useLanguage`: the provider in scope, or the error thrown when there is none. */
  function UseLanguage(context: Option<LanguageProvider>): (r: Result<LanguageProvider, string>)
    ensures r.Failure? <==> context.None?
    ensures context.Some? ==> r == Success(context.value)
    ensures r.Failure? ==> r.error == OutsideProviderMessage
  {
    match context
    case None => Failure(OutsideProviderMessage)
    case Some(c) => Success(c)
  }
}
