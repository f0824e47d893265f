/**
  What the handlers of src/App.jsx promise, stated over the step functions of
  module Session: the translate pipeline (blank input, cache hits, failures,
  the capped history), the save toggle, deletion, the speech toggle, the
  language swap and the suggestion guard, and that every handler keeps the
  state invariant.
 */
module Properties {
  import opened Maybe
  import opened Text
  import opened Lists
  import opened Cache
  import opened Entries
  import opened Session

  // ---------------------------------------------------------------- translate
  //
  // Most lemmas below are about `TranslateTrimmed(s, t, …)`, where `t` is the
  // trimmed input; `Translate(s, w, …)` is that function at `t == Trim(w)`.

  /** A blank word only triggers the shake cue: no cache lookup, no request, no history. */
  lemma BlankInputOnlyShakes(s: AppState, w: string, reply: Fetch<TranslateReply>, newId: Option<string>)
    requires IsBlank(w)
    ensures Translate(s, w, reply, newId) == s.(inputShake := true)
    ensures !TranslateCallsNetwork(s, Trim(w)) && TranslateDeletes(s, Trim(w), reply, newId) == []
  {
    TrimEmptyIffBlank(w);
  }

  /** A cache hit shows the cached translation and touches neither the network, the cache nor the lists. */
  lemma CacheHitLeavesLists(s: AppState, t: string, reply: Fetch<TranslateReply>, newId: Option<string>)
    requires t != "" && CachedTranslationOf(s, t).Some?
    ensures TranslateTrimmed(s, t, reply, newId)
            == s.(suggestions := [], result := Shown(CachedTranslationOf(s, t).value), grammar := None)
    ensures !TranslateCallsNetwork(s, t) && TranslateDeletes(s, t, reply, newId) == []
  {
  }

  /** Under the invariant every filled translation slot holds a translation, so a filled slot is a hit. */
  lemma FilledSlotIsHit(s: AppState, t: string)
    requires CacheWellTyped(s.cache)
    ensures CachedTranslationOf(s, t).Some? <==> Get(s.cache, TranslateKeyOf(s, t)).Some?
  {
    NamespacesDisjoint(t, s.nativeLang, s.targetLang, "", "");
  }

  /** A successful reply is cached under the key of the trimmed word and the pair (see `Cache.TranslateSlot`), and only there. */
  lemma SuccessIsCachedUnderKey(s: AppState, t: string, d: Translation, newId: Option<string>)
    requires TranslateCallsNetwork(s, t)
    ensures var s1 := TranslateTrimmed(s, t, Replied(TranslateReply("", d)), newId);
      && Get(s1.cache, TranslateKey(t, s.nativeLang, s.targetLang)) == Some(CachedTranslation(d))
      && (forall k :: k != TranslateKey(t, s.nativeLang, s.targetLang) ==> Get(s1.cache, k) == Get(s.cache, k))
  {
    var key := TranslateKey(t, s.nativeLang, s.targetLang);
    var s1 := TranslateTrimmed(s, t, Replied(TranslateReply("", d)), newId);
    assert s1.cache == Set(s.cache, key, CachedTranslation(d));
  }

  /**
    A successful reply is shown, unless a signed-in user's history write was
    rejected (see `HistoryWriteRejected`).
   */
  lemma SuccessShowsReply(s: AppState, t: string, d: Translation, newId: Option<string>)
    requires TranslateCallsNetwork(s, t) && (s.user.None? || newId.Some?)
    ensures TranslateTrimmed(s, t, Replied(TranslateReply("", d)), newId).result == Shown(d)
  {
  }

  /** An error reply or a thrown call shows an error and writes neither the cache nor any list. */
  lemma FailureWritesNothing(s: AppState, t: string, reply: Fetch<TranslateReply>, newId: Option<string>)
    requires TranslateCallsNetwork(s, t)
    requires reply.Threw? || reply.reply.error != ""
    ensures var s1 := TranslateTrimmed(s, t, reply, newId);
      && s1.result == Failed(if reply.Threw? then NETWORK_ERROR else reply.reply.error)
      && s1.cache == s.cache && s1.history == s.history && s1.saved == s.saved
    ensures TranslateDeletes(s, t, reply, newId) == []
  {
  }

  /**
    When `addDoc` rejects, the outer `catch` turns the result into the network
    error, but the cache write that came before it stays.
   */
  lemma HistoryWriteRejected(s: AppState, t: string, d: Translation)
    requires TranslateCallsNetwork(s, t) && s.user.Some?
    ensures var s1 := TranslateTrimmed(s, t, Replied(TranslateReply("", d)), None);
      && s1.result == Failed(NETWORK_ERROR)
      && Get(s1.cache, TranslateKeyOf(s, t)) == Some(CachedTranslation(d))
      && s1.history == s.history
  {
  }

  /**
    A recorded translation puts the new record first and keeps the first 100;
    the records deleted remotely are exactly those pushed to position 100 and
    beyond, and nothing is deleted while the list is shorter than the cap.
   */
  lemma HistoryIsCapped(s: AppState, t: string, reply: Fetch<TranslateReply>, newId: Option<string>)
    requires Recorded(s, t, reply, newId)
    ensures var s1 := TranslateTrimmed(s, t, reply, newId);
      var full := Prepended(s, t, reply, newId);
      && s1.history == Truncate(full, HISTORY_CAP)
      && s1.history[0] == HistoryItem(s, t, reply.reply.body, newId.value)
      && |s1.history| <= HISTORY_CAP
      && s1.history + Overflow(full, HISTORY_CAP) == full
      && TranslateDeletes(s, t, reply, newId) == Ids(Overflow(full, HISTORY_CAP))
    ensures |s.history| < HISTORY_CAP ==>
      TranslateTrimmed(s, t, reply, newId).history == Prepended(s, t, reply, newId)
      && TranslateDeletes(s, t, reply, newId) == []
  {
  }

  /** At the cap, one more record pushes out exactly the oldest one. */
  lemma HistoryAtCapDropsOldest(s: AppState, t: string, reply: Fetch<TranslateReply>, newId: Option<string>)
    requires Recorded(s, t, reply, newId) && |s.history| == HISTORY_CAP
    ensures TranslateTrimmed(s, t, reply, newId).history
            == [HistoryItem(s, t, reply.reply.body, newId.value)] + s.history[..HISTORY_CAP - 1]
    ensures TranslateDeletes(s, t, reply, newId) == [s.history[HISTORY_CAP - 1].id]
  {
    var full := Prepended(s, t, reply, newId);
    assert full[..HISTORY_CAP] == [full[0]] + s.history[..HISTORY_CAP - 1];
    assert full[HISTORY_CAP..] == [s.history[HISTORY_CAP - 1]];
  }

  /** Translating keeps the cache well typed. */
  lemma TranslateKeepsCacheTyped(s: AppState, t: string, reply: Fetch<TranslateReply>, newId: Option<string>)
    requires CacheWellTyped(s.cache)
    ensures CacheWellTyped(TranslateTrimmed(s, t, reply, newId).cache)
  {
    if t != "" {
      NamespacesDisjoint(t, s.nativeLang, s.targetLang, "", "");
    }
  }

  /**
    A successful translate makes the next translate of a word with the same
    trimmed form, in the same pair, a cache hit: same result, no request,
    history and cache unchanged.
   */
  lemma RepeatIsCacheHit(s: AppState, w: string, d: Translation, newId: Option<string>,
                         w2: string, reply2: Fetch<TranslateReply>, newId2: Option<string>)
    requires TranslateCallsNetwork(s, Trim(w)) && Trim(w2) == Trim(w)
    ensures var s1 := Translate(s, w, Replied(TranslateReply("", d)), newId);
      var s2 := Translate(s1, w2, reply2, newId2);
      && !TranslateCallsNetwork(s1, Trim(w2))
      && s2.result == Shown(d) && s2.history == s1.history && s2.cache == s1.cache
  {
    RepeatTrimmedIsCacheHit(s, Trim(w), d, newId, reply2, newId2);
  }

  /** `RepeatIsCacheHit` for the trimmed word. */
  lemma RepeatTrimmedIsCacheHit(s: AppState, t: string, d: Translation, newId: Option<string>,
                                reply2: Fetch<TranslateReply>, newId2: Option<string>)
    requires TranslateCallsNetwork(s, t)
    ensures var s1 := TranslateTrimmed(s, t, Replied(TranslateReply("", d)), newId);
      var s2 := TranslateTrimmed(s1, t, reply2, newId2);
      && !TranslateCallsNetwork(s1, t)
      && s2.result == Shown(d) && s2.history == s1.history && s2.cache == s1.cache
  {
    var s1 := TranslateTrimmed(s, t, Replied(TranslateReply("", d)), newId);
    SuccessIsCachedUnderKey(s, t, d, newId);
    assert TranslateKeyOf(s1, t) == TranslateKeyOf(s, t);
    CacheHitLeavesLists(s1, t, reply2, newId2);
  }

  /**
    Translating changes only the input cue, the suggestions, the result, the
    conjugation table, the cache and the history, and the history only when a
    record is written.
   */
  lemma TranslateFrame(s: AppState, t: string, reply: Fetch<TranslateReply>, newId: Option<string>)
    ensures var s1 := TranslateTrimmed(s, t, reply, newId);
      && s1.user == s.user && s1.nativeLang == s.nativeLang && s1.targetLang == s.targetLang && s1.word == s.word
      && s1.saved == s.saved && s1.speakingWord == s.speakingWord && s1.playback == s.playback
      && (!Recorded(s, t, reply, newId) ==> s1.history == s.history)
  {
  }

  /** The word `trim()` returns is a fixed point of `trim()`: it is empty or has no white space at either end. */
  predicate IsTrimmed(t: string) {
    t != [] ==> !IsSpace(t[0]) && !IsSpace(t[|t| - 1])
  }

  /** A history record written by a translate is well formed, and its word is already trimmed. */
  lemma HistoryItemWellFormed(s: AppState, t: string, d: Translation, id: string)
    requires t != "" && IsTrimmed(t)
    ensures WellFormedHistoryEntry(HistoryItem(s, t, d, id))
  {
  }

  /** The history a translate leaves stays within the cap and holds only well-formed records. */
  lemma TranslateHistoryWellFormed(s: AppState, t: string, reply: Fetch<TranslateReply>, newId: Option<string>)
    requires IsTrimmed(t)
    requires |s.history| <= HISTORY_CAP && forall e :: e in s.history ==> WellFormedHistoryEntry(e)
    ensures var h := TranslateHistory(s, t, reply, newId);
      |h| <= HISTORY_CAP && forall e :: e in h ==> WellFormedHistoryEntry(e)
  {
    if Recorded(s, t, reply, newId) {
      var full := Prepended(s, t, reply, newId);
      HistoryItemWellFormed(s, t, reply.reply.body, newId.value);
      var h := Truncate(full, HISTORY_CAP);
      forall k | 0 <= k < |h| ensures WellFormedHistoryEntry(h[k]) {
        assert h[k] == full[k];
        assert k > 0 ==> full[k] == s.history[k - 1];
      }
    }
  }

  /** Translating a trimmed word keeps the invariant. */
  lemma TranslateTrimmedPreservesInvariant(s: AppState, t: string, reply: Fetch<TranslateReply>, newId: Option<string>)
    requires Invariant(s) && IsTrimmed(t)
    ensures Invariant(TranslateTrimmed(s, t, reply, newId))
  {
    TranslateKeepsCacheTyped(s, t, reply, newId);
    TranslateHistoryWellFormed(s, t, reply, newId);
  }

  /** Translating any input keeps the invariant. */
  lemma TranslatePreservesInvariant(s: AppState, w: string, reply: Fetch<TranslateReply>, newId: Option<string>)
    requires Invariant(s)
    ensures Invariant(Translate(s, w, reply, newId))
  {
    TranslateTrimmedPreservesInvariant(s, Trim(w), reply, newId);
  }

  // ---------------------------------------------------------------- grammar

  /** Loading the conjugation table keeps the invariant. */
  lemma LoadGrammarPreservesInvariant(s: AppState, reply: Fetch<Grammar>)
    requires Invariant(s)
    ensures Invariant(LoadGrammar(s, reply))
  {
    NamespacesDisjoint("", "", "", s.word, s.targetLang);
  }

  /** Without a translation to conjugate, `loadGrammar()` does nothing and sends nothing. */
  lemma GrammarNeedsMain(s: AppState, reply: Fetch<Grammar>)
    requires !HasMain(s)
    ensures LoadGrammar(s, reply) == s && !GrammarCallsNetwork(s)
  {
  }

  /**
    A fetched conjugation table is shown and cached under the key of the word
    state as typed, and only there, so loading it again is served from the
    cache; a thrown call leaves the state as it was.
   */
  lemma GrammarFetchIsCached(s: AppState, g: Grammar, reply2: Fetch<Grammar>)
    requires GrammarCallsNetwork(s)
    ensures var s1 := LoadGrammar(s, Replied(g));
      && s1 == s.(grammar := Some(g), cache := s1.cache)
      && Get(s1.cache, GrammarKey(s.word, s.targetLang)) == Some(CachedGrammar(g))
      && (forall k :: k != GrammarKey(s.word, s.targetLang) ==> Get(s1.cache, k) == Get(s.cache, k))
      && !GrammarCallsNetwork(s1)
      && LoadGrammar(s1, reply2) == s1
    ensures LoadGrammar(s, Threw) == s
  {
  }

  // ---------------------------------------------------------------- save

  /** No two saved entries share an id (Firestore document ids). */
  ghost predicate UniqueIds(items: seq<Entry>) {
    AllDistinct(items, (e: Entry) => e.id)
  }

  /** No two saved entries share a (word, target language) pair. */
  ghost predicate UniqueWords(items: seq<Entry>) {
    AllDistinct(items, (e: Entry) => (e.word, e.toLang))
  }

  /** Without a result or without a user, saving does nothing. */
  lemma SaveNeedsResultAndUser(s: AppState, newId: string, remoteOk: bool)
    requires !s.result.Failed? && (s.result.NoResult? || s.user.None?)
    ensures Save(s, newId, remoteOk) == s
  {
  }

  /**
    Saving a pair that is already saved removes exactly the entries with the
    found entry's id; every other entry stays, in order.
   */
  lemma SaveRemovesFoundId(s: AppState, newId: string)
    requires s.result.Shown? && s.user.Some? && IsSaved(s.saved, s.word, s.targetLang)
    ensures var i := FindSaved(s.saved, s.word, s.targetLang).value;
      var t := Save(s, newId, true);
      && (forall e :: e in t.saved <==> e in s.saved && e.id != s.saved[i].id)
      && (forall e :: multiset(t.saved)[e] == if e.id != s.saved[i].id then multiset(s.saved)[e] else 0)
      && IsSubsequence(t.saved, s.saved)
      && t == s.(saved := t.saved)
  {
    var i := FindSaved(s.saved, s.word, s.targetLang).value;
    RemoveIdSpec(s.saved, s.saved[i].id);
  }

  /** Saving a new pair puts an entry with the shown translation in front of the others. */
  lemma SaveAddsEntry(s: AppState, newId: string)
    requires s.result.Shown? && s.user.Some? && !IsSaved(s.saved, s.word, s.targetLang)
    ensures var t := Save(s, newId, true);
      && t.saved == [SavedItem(s, newId)] + s.saved
      && t.saved[0].word == s.word && t.saved[0].toLang == s.targetLang
      && t.saved[0].translation == s.result.translation.main
      && t == s.(saved := t.saved)
  {
  }

  /** A rejected Firestore call leaves the saved list as it was. */
  lemma SaveRejectedChangesNothing(s: AppState, newId: string)
    requires !s.result.Failed?
    ensures Save(s, newId, false) == s
  {
  }

  /**
    With unique ids and a fresh id for a new document, saving toggles whether
    the typed pair is saved, and keeps ids and pairs unique.
   */
  lemma SaveToggles(s: AppState, newId: string)
    requires s.result.Shown? && s.user.Some?
    requires UniqueIds(s.saved) && UniqueWords(s.saved) && newId !in Ids(s.saved)
    ensures var t := Save(s, newId, true);
      && IsSaved(t.saved, s.word, s.targetLang) == !IsSaved(s.saved, s.word, s.targetLang)
      && UniqueIds(t.saved) && UniqueWords(t.saved)
  {
    var idKey := (e: Entry) => e.id;
    var pairKey := (e: Entry) => (e.word, e.toLang);
    var t := Save(s, newId, true);
    match FindSaved(s.saved, s.word, s.targetLang)
    case Some(i) =>
      var gone := s.saved[i].id;
      var keep := (e: Entry) => e.id != gone;
      SelectKeepsDistinct(s.saved, keep, idKey);
      SelectKeepsDistinct(s.saved, keep, pairKey);
      forall k | 0 <= k < |t.saved| ensures !(t.saved[k].word == s.word && t.saved[k].toLang == s.targetLang) {
        SelectMembers(s.saved, keep, t.saved[k]);
        var j :| 0 <= j < |s.saved| && s.saved[j] == t.saved[k];
        assert j != i;
        if i < j {
          DistinctAt(s.saved, pairKey, i, j);
        }
      }
    case None =>
      var item := SavedItem(s, newId);
      assert t.saved == [item] + s.saved;
      assert t.saved[0].word == s.word && t.saved[0].toLang == s.targetLang;
      forall x | x in s.saved ensures idKey(x) != idKey(item) && pairKey(x) != pairKey(item) {
        var j :| 0 <= j < |s.saved| && s.saved[j] == x;
        assert Ids(s.saved)[j] == x.id;
      }
      assert ([item] + s.saved)[1..] == s.saved;
  }

  /** Saving a new pair and then saving again restores the saved list exactly. */
  lemma SaveThenUnsave(s: AppState, newId: string, otherId: string)
    requires s.result.Shown? && s.user.Some? && !IsSaved(s.saved, s.word, s.targetLang) && newId !in Ids(s.saved)
    ensures Save(Save(s, newId, true), otherId, true) == s
  {
    var t := Save(s, newId, true);
    var item := SavedItem(s, newId);
    assert t.saved[0] == item;
    assert FindSaved(t.saved, s.word, s.targetLang) == Some(0);
    var keep := (e: Entry) => e.id != newId;
    forall j | 0 <= j < |s.saved| ensures keep(s.saved[j]) {
      assert Ids(s.saved)[j] == s.saved[j].id;
    }
    SelectAll(s.saved, keep);
    assert t.saved[1..] == s.saved;
  }

  /**
    The badge follows the save toggle when the service echoed the typed word:
    saving a new pair lights it.
   */
  lemma BadgeLightsOnSave(s: AppState, newId: string)
    requires s.result.Shown? && s.user.Some? && s.result.translation.word == s.word
    requires !IsSaved(s.saved, s.word, s.targetLang)
    ensures BadgeShown(Save(s, newId, true))
  {
    var t := Save(s, newId, true);
    assert t.saved[0].word == s.word && t.saved[0].toLang == s.targetLang;
  }

  /**
    The badge and the toggle look at different words: a word typed with a
    trailing space is saved as typed, while the badge looks up the word the
    service echoed, so after saving the badge stays off.
   */
  lemma BadgeMissesUntrimmedWord()
    ensures var s := AppState(Some("uid"), "en", "es", "hello ", Shown(Translation("hello", "hola")),
                              None, [], [], [], map[], "", Silent, false);
      var t := Save(s, "id1", true);
      && IsSaved(t.saved, "hello ", "es") && !BadgeShown(t)
  {
    var s := AppState(Some("uid"), "en", "es", "hello ", Shown(Translation("hello", "hola")),
                      None, [], [], [], map[], "", Silent, false);
    var t := Save(s, "id1", true);
    assert t.saved == [Entry("id1", "hello ", "hola", "en", "es", Translation("hello", "hola"))];
    assert t.saved[0].word == "hello " && t.saved[0].toLang == "es";
    assert "hello " != "hello" by { assert |"hello "| == 6; }
  }

  /** Saving keeps the invariant. */
  lemma SavePreservesInvariant(s: AppState, newId: string, remoteOk: bool)
    requires Invariant(s) && !s.result.Failed?
    ensures Invariant(Save(s, newId, remoteOk))
  {
    if s.result.Shown? && s.user.Some? && remoteOk {
      match FindSaved(s.saved, s.word, s.targetLang)
      case Some(i) => RemoveIdSpec(s.saved, s.saved[i].id);
      case None =>
    }
  }

  // ---------------------------------------------------------------- delete and clear

  /** `deleteSaved(id)` removes exactly the entries with that id and keeps the order of the rest. */
  lemma DeleteSavedRemovesId(s: AppState, id: string)
    requires s.user.Some?
    ensures var t := DeleteSaved(s, id, true);
      && (forall e :: e in t.saved <==> e in s.saved && e.id != id)
      && (forall e :: multiset(t.saved)[e] == if e.id != id then multiset(s.saved)[e] else 0)
      && IsSubsequence(t.saved, s.saved)
      && t == s.(saved := t.saved)
  {
    RemoveIdSpec(s.saved, id);
  }

  /** `deleteHistory(id)` removes exactly the records with that id and keeps the order of the rest. */
  lemma DeleteHistoryRemovesId(s: AppState, id: string)
    requires s.user.Some?
    ensures var t := DeleteHistory(s, id, true);
      && (forall e :: e in t.history <==> e in s.history && e.id != id)
      && (forall e :: multiset(t.history)[e] == if e.id != id then multiset(s.history)[e] else 0)
      && IsSubsequence(t.history, s.history)
      && t == s.(history := t.history)
  {
    RemoveIdSpec(s.history, id);
  }

  /** Deleting a record keeps the invariant. */
  lemma DeletePreservesInvariant(s: AppState, id: string, remoteOk: bool)
    requires Invariant(s)
    ensures Invariant(DeleteSaved(s, id, remoteOk)) && Invariant(DeleteHistory(s, id, remoteOk))
  {
    RemoveIdSpec(s.saved, id);
    RemoveIdSpec(s.history, id);
  }

  /** `clearHistory()` empties the history and deletes every record it held, in one batch. */
  lemma ClearHistoryEmpties(s: AppState)
    requires s.user.Some?
    ensures ClearHistory(s, true).history == [] && ClearHistory(s, true) == s.(history := [])
    ensures ClearDeletes(s, true) == Ids(s.history)
  {
  }

  // ---------------------------------------------------------------- speech

  /** Tapping the speaker of the text that is sounding stops it and sends no request. */
  lemma SpeakSameTextStops(s: AppState, text: string, lang: string, tts: TtsOutcome)
    requires s.speakingWord == text
    ensures Speak(s, text, lang, tts) == s.(speakingWord := "", playback := Silent)
    ensures !SpeakCallsNetwork(s, text)
  {
  }

  /**
    Tapping another text stops what sounded, marks the new text as speaking and
    plays it: the fetched audio, else the on-device voice for the language.
   */
  lemma SpeakNewTextStarts(s: AppState, text: string, lang: string, tts: TtsOutcome)
    requires s.speakingWord != text
    ensures var t := Speak(s, text, lang, tts);
      && t.speakingWord == text && SpeakCallsNetwork(s, text)
      && (tts.AudioReady? ==> t.playback == Audio(text))
      && (tts == TtsFailed(true) ==> t.playback == Voice(text, VoiceFor(lang)))
      && (tts == TtsFailed(false) ==> t.playback == Silent)
      && t == s.(speakingWord := t.speakingWord, playback := t.playback)
  {
  }

  /** Two taps on the same speaker return to silence. */
  lemma SpeakTwiceIsSilent(s: AppState, text: string, lang: string, tts1: TtsOutcome, tts2: TtsOutcome)
    requires s.speakingWord != text
    ensures Speak(Speak(s, text, lang, tts1), text, lang, tts2) == s.(speakingWord := "", playback := Silent)
  {
  }

  /** The fallback voice is the table's entry for the language, else "en-US". */
  lemma VoiceTable(lang: string)
    ensures lang in VOICES ==> |VoiceFor(lang)| == 5 && VoiceFor(lang)[..2] == lang && VoiceFor(lang)[2] == '-'
    ensures lang !in VOICES ==> VoiceFor(lang) == "en-US"
  {
  }

  /** Speaking and the end of playback keep the invariant. */
  lemma SpeakPreservesInvariant(s: AppState, text: string, lang: string, tts: TtsOutcome)
    requires Invariant(s)
    ensures Invariant(Speak(s, text, lang, tts)) && Invariant(PlaybackEnded(s))
  {
  }

  // ---------------------------------------------------------------- languages and suggestions

  /** Swapping twice restores the language pair; each swap clears the shown result and table. */
  lemma SwapTwiceRestoresPair(s: AppState)
    ensures SwapLangs(SwapLangs(s)) == s.(result := NoResult, grammar := None)
    ensures SwapLangs(s).nativeLang == s.targetLang && SwapLangs(s).targetLang == s.nativeLang
  {
  }

  /** Input shorter than two characters clears the suggestions whatever the network would say. */
  lemma ShortInputClearsSuggestions(s: AppState, text: string, r1: Fetch<Option<seq<string>>>, r2: Fetch<Option<seq<string>>>)
    requires |text| < MIN_SUGGEST
    ensures FetchSuggestions(s, text, r1) == FetchSuggestions(s, text, r2) == s.(suggestions := [])
  {
  }

  /** The remaining handlers keep the invariant. */
  lemma OtherHandlersPreserveInvariant(s: AppState, remoteOk: bool, val: string, text: string,
                                       reply: Fetch<Option<seq<string>>>)
    requires Invariant(s)
    ensures Invariant(ClearHistory(s, remoteOk)) && Invariant(SwapLangs(s))
    ensures Invariant(Input(s, val)) && Invariant(FetchSuggestions(s, text, reply))
  {
  }
}
