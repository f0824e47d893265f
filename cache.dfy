/**
  The local response cache of src/App.jsx: a flat key/value store in browser
  local storage whose keys carry the `wordy_` namespace prefix, plus the two
  key builders the translate and grammar paths use.
 */
module Cache {
  import opened Maybe

  const CACHE_PREFIX: string := "wordy_"
  const TRANSLATE_TAG: string := "tr_"
  const GRAMMAR_TAG: string := "grammar_"

  /** The local-storage key under which `getCache(key)` / `setCache(key, v)` operate. */
  function StorageKey(key: string): (k: string)
    ensures |k| == |CACHE_PREFIX| + |key|
    ensures k[..|CACHE_PREFIX|] == CACHE_PREFIX && k[|CACHE_PREFIX|..] == key
  {
    CACHE_PREFIX + key
  }

  /** `getCache(key)`: the stored value, or nothing when the slot is empty. */
  function Get<V>(store: map<string, V>, key: string): (r: Option<V>)
    ensures r.Some? <==> StorageKey(key) in store
    ensures r.Some? ==> store[StorageKey(key)] == r.value
  {
    var k := StorageKey(key);
    if k in store then Some(store[k]) else None
  }

  /** `setCache(key, v)`: the slot now holds `v` and every other slot is as it was. */
  function Set<V>(store: map<string, V>, key: string, v: V): (r: map<string, V>)
    ensures Get(r, key) == Some(v)
    ensures forall other :: other != key ==> Get(r, other) == Get(store, other)
    ensures r.Keys == store.Keys + {StorageKey(key)}
    ensures forall k :: k in store && k != StorageKey(key) ==> r[k] == store[k]
  {
    var r := store[StorageKey(key) := v];
    assert forall other :: other != key ==> StorageKey(other) != StorageKey(key) by {
      forall other | other != key ensures StorageKey(other) != StorageKey(key) {
        assert StorageKey(other)[|CACHE_PREFIX|..] == other;
      }
    }
    r
  }

  /** The translation key `tr_<word>_<native>_<target>`. */
  function TranslateKey(word: string, native: string, target: string): string {
    TRANSLATE_TAG + word + "_" + native + "_" + target
  }

  /** The conjugation key `grammar_<word>_<target>`. */
  function GrammarKey(word: string, target: string): string {
    GRAMMAR_TAG + word + "_" + target
  }

  /** The storage slot of a translation is `wordy_tr_<word>_<native>_<target>`. */
  lemma TranslateSlot(word: string, native: string, target: string)
    ensures StorageKey(TranslateKey(word, native, target)) == "wordy_tr_" + word + "_" + native + "_" + target
  {
  }

  /** The storage slot of a conjugation table is `wordy_grammar_<word>_<target>`. */
  lemma GrammarSlot(word: string, target: string)
    ensures StorageKey(GrammarKey(word, target)) == "wordy_grammar_" + word + "_" + target
  {
  }

  /** The full storage slot of a translation lies in the `wordy_tr_` namespace. */
  predicate InTranslateSpace(k: string) {
    |k| >= |CACHE_PREFIX + TRANSLATE_TAG| && k[..|CACHE_PREFIX + TRANSLATE_TAG|] == CACHE_PREFIX + TRANSLATE_TAG
  }

  /** The full storage slot of a conjugation table lies in the `wordy_grammar_` namespace. */
  predicate InGrammarSpace(k: string) {
    |k| >= |CACHE_PREFIX + GRAMMAR_TAG| && k[..|CACHE_PREFIX + GRAMMAR_TAG|] == CACHE_PREFIX + GRAMMAR_TAG
  }

  /** Translation slots and conjugation slots never collide: the first character after `wordy_` differs. */
  lemma NamespacesDisjoint(word: string, native: string, target: string, gword: string, gtarget: string)
    ensures InTranslateSpace(StorageKey(TranslateKey(word, native, target)))
    ensures !InGrammarSpace(StorageKey(TranslateKey(word, native, target)))
    ensures InGrammarSpace(StorageKey(GrammarKey(gword, gtarget)))
    ensures !InTranslateSpace(StorageKey(GrammarKey(gword, gtarget)))
  {
    var t := StorageKey(TranslateKey(word, native, target));
    var g := StorageKey(GrammarKey(gword, gtarget));
    assert t == CACHE_PREFIX + TRANSLATE_TAG + (word + "_" + native + "_" + target);
    assert g == CACHE_PREFIX + GRAMMAR_TAG + (gword + "_" + gtarget);
    assert t[6] == 't' && g[6] == 'g';
  }

  /** A string with no `_`, such as every language code the app offers. */
  predicate NoUnderscore(s: string) {
    forall i :: 0 <= i < |s| ==> s[i] != '_'
  }

  /** Position `j` of `k` holds the last `_` of `k`. */
  predicate LastUnderscoreAt(k: string, j: nat) {
    j < |k| && k[j] == '_' && forall i :: j < i < |k| ==> k[i] != '_'
  }

  /** In `a_b` with no `_` in `b`, the joining `_` is the last one. */
  lemma JoinIsLastUnderscore(a: string, b: string)
    requires NoUnderscore(b)
    ensures LastUnderscoreAt(a + "_" + b, |a|)
  {
    var k := a + "_" + b;
    forall i | |a| < i < |k| ensures k[i] != '_' {
      assert k[i] == b[i - |a| - 1];
    }
  }

  /** `a_b` determines `a` and `b` when `b` has no underscore: `b` is what follows the last `_`. */
  lemma SplitLast(a: string, b: string, c: string, d: string)
    requires NoUnderscore(b) && NoUnderscore(d)
    requires a + "_" + b == c + "_" + d
    ensures a == c && b == d
  {
    var k := a + "_" + b;
    JoinIsLastUnderscore(a, b);
    JoinIsLastUnderscore(c, d);
    assert |a| == |c|;
    assert a == k[..|a|] == c;
    assert b == k[|a| + 1..] == d;
  }

  /**
    Two translation requests share a cache slot only when they are the same
    request: the language codes contain no `_`, so the key can be read back from
    its end even when the word itself contains underscores.
   */
  lemma TranslateKeyInjective(w1: string, n1: string, t1: string, w2: string, n2: string, t2: string)
    requires NoUnderscore(n1) && NoUnderscore(t1) && NoUnderscore(n2) && NoUnderscore(t2)
    requires TranslateKey(w1, n1, t1) == TranslateKey(w2, n2, t2)
    ensures w1 == w2 && n1 == n2 && t1 == t2
  {
    var k1 := TranslateKey(w1, n1, t1);
    assert k1 == (TRANSLATE_TAG + w1 + "_" + n1) + "_" + t1;
    assert TranslateKey(w2, n2, t2) == (TRANSLATE_TAG + w2 + "_" + n2) + "_" + t2;
    SplitLast(TRANSLATE_TAG + w1 + "_" + n1, t1, TRANSLATE_TAG + w2 + "_" + n2, t2);
    assert (TRANSLATE_TAG + w1) + "_" + n1 == (TRANSLATE_TAG + w2) + "_" + n2;
    SplitLast(TRANSLATE_TAG + w1, n1, TRANSLATE_TAG + w2, n2);
    assert w1 == (TRANSLATE_TAG + w1)[|TRANSLATE_TAG|..];
    assert w2 == (TRANSLATE_TAG + w2)[|TRANSLATE_TAG|..];
  }
}
