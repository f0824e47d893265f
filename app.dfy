/**
  The main component of src/App.jsx as an object: its state hooks are fields
  and its handlers are methods that update them step by step, as the source's
  `set…` calls do. Each method is proved to move the state exactly as the
  matching step function of module Session says, and to keep the invariant;
  what the handlers promise beyond that is proved about those functions in
  module Properties.

  The outcome of every awaited call (translate, grammar and TTS endpoints,
  Firestore writes) is a parameter; the methods return what they would send
  out: whether a request is made and which history documents are deleted.
 */
module App {
  import opened Maybe
  import opened Text
  import opened Cache
  import opened Entries
  import opened Session
  import opened Properties

  class Wordy {
    var user: Option<string>
    var nativeLang: string
    var targetLang: string
    var word: string
    var result: ResultView
    var grammar: Option<Grammar>
    var suggestions: seq<string>
    var saved: seq<Entry>
    var history: seq<Entry>
    var cache: map<string, CacheValue>
    var speakingWord: string
    var playback: Playback
    var inputShake: bool

    /** The fields as one value. */
    function State(): AppState
      reads this
    {
      AppState(user, nativeLang, targetLang, word, result, grammar, suggestions,
               saved, history, cache, speakingWord, playback, inputShake)
    }

    ghost predicate Valid()
      reads this
    {
      Invariant(State())
    }

    /** The component after sign-in, over whatever local storage already holds. */
    constructor(signedIn: Option<string>, stored: map<string, CacheValue>)
      requires CacheWellTyped(stored)
      ensures Valid() && State() == Initial(signedIn, stored)
    {
      user := signedIn;
      nativeLang, targetLang := "en", "es";
      word := "";
      result := NoResult;
      grammar := None;
      suggestions := [];
      saved, history := [], [];
      cache := stored;
      speakingWord := "";
      playback := Silent;
      inputShake := false;
    }

    /**
      `handleTranslate(w)`. `reply` is how the translate call ended and `newId`
      what `addDoc` resolved to. Returns whether the call was made and the ids
      of the history documents deleted for going past the cap.
     */
    method Translate(w: string, reply: Fetch<TranslateReply>, newId: Option<string>)
      returns (requested: bool, deleted: seq<string>)
      requires Valid()
      modifies this
      ensures Valid()
      ensures State() == Session.Translate(old(State()), w, reply, newId)
      ensures requested == TranslateCallsNetwork(old(State()), Trim(w))
      ensures deleted == TranslateDeletes(old(State()), Trim(w), reply, newId)
    {
      var trimmed := Trim(w);
      requested, deleted := TranslateWord(trimmed, reply, newId);
    }

    /** `handleTranslate` from `const word = w.trim()` on, for the trimmed word `t`. */
    method TranslateWord(t: string, reply: Fetch<TranslateReply>, newId: Option<string>)
      returns (requested: bool, deleted: seq<string>)
      requires Valid() && IsTrimmed(t)
      modifies this
      ensures Valid()
      ensures State() == TranslateTrimmed(old(State()), t, reply, newId)
      ensures requested == TranslateCallsNetwork(old(State()), t)
      ensures deleted == TranslateDeletes(old(State()), t, reply, newId)
    {
      ghost var before := State();
      TranslateTrimmedPreservesInvariant(before, t, reply, newId);
      requested, deleted := false, [];
      if t == "" {
        inputShake := true;
        return;
      }
      suggestions := [];
      var key := TranslateKey(t, nativeLang, targetLang);
      var slot := Get(cache, key);
      if slot.Some? && slot.value.CachedTranslation? {
        assert CachedTranslationOf(before, t) == Some(slot.value.translation);
        CacheHitLeavesLists(before, t, reply, newId);
        result := Shown(slot.value.translation);
        grammar := None;
        return;
      }
      assert TranslateCallsNetwork(before, t);
      requested := true;
      result := NoResult;
      grammar := None;
      deleted := Fetched(before, t, key, reply, newId);
    }

    /**
      The `try` block of `handleTranslate` after a cache miss: show the reply,
      cache it, and record it in the history when a user is signed in.
     */
    method Fetched(ghost s: AppState, t: string, key: string, reply: Fetch<TranslateReply>, newId: Option<string>)
      returns (deleted: seq<string>)
      requires TranslateCallsNetwork(s, t) && key == TranslateKeyOf(s, t)
      requires State() == s.(suggestions := [], result := NoResult, grammar := None)
      modifies this
      ensures State() == TranslateTrimmed(s, t, reply, newId)
      ensures deleted == TranslateDeletes(s, t, reply, newId)
    {
      deleted := [];
      match reply {
        case Threw =>
          result := Failed(NETWORK_ERROR);
        case Replied(d) =>
          if d.error != "" {
            result := Failed(d.error);
          } else {
            result := Shown(d.body);
            cache := Set(cache, key, CachedTranslation(d.body));
            if user.Some? {
              match newId {
                case None =>
                  result := Failed(NETWORK_ERROR);
                case Some(id) =>
                  deleted := Record(s, t, reply, newId);
              }
            }
          }
      }
    }

    /** The history write of `handleTranslate`: the new record first, the overflow deleted. */
    method Record(ghost s: AppState, t: string, reply: Fetch<TranslateReply>, newId: Option<string>)
      returns (deleted: seq<string>)
      requires Recorded(s, t, reply, newId)
      requires history == s.history && nativeLang == s.nativeLang && targetLang == s.targetLang
      modifies this
      ensures history == TranslateHistory(s, t, reply, newId)
      ensures deleted == TranslateDeletes(s, t, reply, newId)
      ensures State() == old(State()).(history := history)
    {
      var d := reply.reply.body;
      var item := Entry(newId.value, t, d.main, nativeLang, targetLang, d);
      var updated := [item] + history;
      assert updated == Prepended(s, t, reply, newId);
      deleted := [];
      if |updated| > HISTORY_CAP {
        deleted := DeleteIds(updated[HISTORY_CAP..]);
        history := updated[..HISTORY_CAP];
      } else {
        history := updated;
      }
    }

    /** `toDelete.forEach(i => deleteDoc(…, i.id))`: the ids, one delete per record, in order. */
    static method DeleteIds(toDelete: seq<Entry>) returns (ids: seq<string>)
      ensures ids == Ids(toDelete)
    {
      ids := [];
      var i := 0;
      while i < |toDelete|
        invariant 0 <= i <= |toDelete|
        invariant |ids| == i && forall k :: 0 <= k < i ==> ids[k] == toDelete[k].id
      {
        ids := ids + [toDelete[i].id];
        i := i + 1;
      }
    }

    /** `loadGrammar()`. Returns whether the grammar endpoint was called. */
    method LoadGrammar(reply: Fetch<Grammar>) returns (requested: bool)
      requires Valid()
      modifies this
      ensures Valid()
      ensures State() == Session.LoadGrammar(old(State()), reply)
      ensures requested == GrammarCallsNetwork(old(State()))
    {
      ghost var before := State();
      LoadGrammarPreservesInvariant(before, reply);
      requested := false;
      if !result.Shown? || result.translation.main == "" {
        return;
      }
      var key := GrammarKey(word, targetLang);
      var slot := Get(cache, key);
      if slot.Some? && slot.value.CachedGrammar? {
        grammar := Some(slot.value.grammar);
        return;
      }
      requested := true;
      match reply {
        case Threw =>
        case Replied(g) =>
          grammar := Some(g);
          cache := Set(cache, key, CachedGrammar(g));
      }
    }

    /**
      `handleSave()`: `newId` is the id `addDoc` would give a new document and
      `remoteOk` whether the awaited Firestore write succeeded.
     */
    method Save(newId: string, remoteOk: bool)
      requires Valid() && !result.Failed?
      modifies this
      ensures Valid()
      ensures State() == Session.Save(old(State()), newId, remoteOk)
    {
      ghost var before := State();
      SavePreservesInvariant(before, newId, remoteOk);
      if result.NoResult? || user.None? {
        return;
      }
      var already := FindSaved(saved, word, targetLang);
      if already.Some? {
        if !remoteOk {
          return;
        }
        saved := RemoveId(saved, saved[already.value].id);
        return;
      }
      if !remoteOk {
        return;
      }
      var item := Entry(newId, word, result.translation.main, nativeLang, targetLang, result.translation);
      saved := [item] + saved;
    }

    /** `speak(text, lang)`: `tts` is how the TTS request ended. Returns whether it was made. */
    method Speak(text: string, lang: string, tts: TtsOutcome) returns (requested: bool)
      requires Valid()
      modifies this
      ensures Valid()
      ensures State() == Session.Speak(old(State()), text, lang, tts)
      ensures requested == SpeakCallsNetwork(old(State()), text)
    {
      ghost var before := State();
      SpeakPreservesInvariant(before, text, lang, tts);
      playback := Silent;
      if speakingWord == text {
        speakingWord := "";
        return false;
      }
      speakingWord := text;
      requested := true;
      match tts {
        case AudioReady =>
          playback := Audio(text);
        case TtsFailed(synthesizer) =>
          if synthesizer {
            playback := Voice(text, VoiceFor(lang));
          }
      }
    }

    /** The `onended` / `onerror` callbacks of what is playing. */
    method PlaybackEnded()
      requires Valid()
      modifies this
      ensures Valid()
      ensures State() == Session.PlaybackEnded(old(State()))
    {
      ghost var before := State();
      SpeakPreservesInvariant(before, "", "", AudioReady);
      speakingWord := "";
      playback := Silent;
    }

    /** `deleteSaved(id)`; `remoteOk` is whether `deleteDoc` succeeded. */
    method DeleteSaved(id: string, remoteOk: bool)
      requires Valid()
      modifies this
      ensures Valid()
      ensures State() == Session.DeleteSaved(old(State()), id, remoteOk)
    {
      ghost var before := State();
      DeletePreservesInvariant(before, id, remoteOk);
      if user.None? || !remoteOk {
        return;
      }
      saved := RemoveId(saved, id);
    }

    /** `deleteHistory(id)`; `remoteOk` is whether `deleteDoc` succeeded. */
    method DeleteHistory(id: string, remoteOk: bool)
      requires Valid()
      modifies this
      ensures Valid()
      ensures State() == Session.DeleteHistory(old(State()), id, remoteOk)
    {
      ghost var before := State();
      DeletePreservesInvariant(before, id, remoteOk);
      if user.None? || !remoteOk {
        return;
      }
      history := RemoveId(history, id);
    }

    /**
      `clearHistory()`: one batch delete per record, committed at once;
      `remoteOk` is whether the commit succeeded. Returns the ids deleted.
     */
    method ClearHistory(remoteOk: bool) returns (deleted: seq<string>)
      requires Valid()
      modifies this
      ensures Valid()
      ensures State() == Session.ClearHistory(old(State()), remoteOk)
      ensures deleted == ClearDeletes(old(State()), remoteOk)
    {
      ghost var before := State();
      OtherHandlersPreserveInvariant(before, remoteOk, "", "", Threw);
      deleted := [];
      if user.None? && history != [] {
        // `user.uid` throws while the batch is built.
        return;
      }
      var batch := DeleteIds(history);
      if !remoteOk {
        return;
      }
      deleted := batch;
      history := [];
    }

    /** `handleSwapLangs()`. */
    method SwapLangs()
      requires Valid()
      modifies this
      ensures Valid()
      ensures State() == Session.SwapLangs(old(State()))
    {
      ghost var before := State();
      OtherHandlersPreserveInvariant(before, true, "", "", Threw);
      nativeLang, targetLang := targetLang, nativeLang;
      result := NoResult;
      grammar := None;
    }

    /** The `setWord(val)` of `handleInput(val)`. */
    method Input(val: string)
      requires Valid()
      modifies this
      ensures Valid()
      ensures State() == Session.Input(old(State()), val)
    {
      ghost var before := State();
      OtherHandlersPreserveInvariant(before, true, val, "", Threw);
      word := val;
    }

    /** `fetchSuggestions(text)`. Returns whether the suggestions endpoint was called. */
    method FetchSuggestions(text: string, reply: Fetch<Option<seq<string>>>) returns (requested: bool)
      requires Valid()
      modifies this
      ensures Valid()
      ensures State() == Session.FetchSuggestions(old(State()), text, reply)
      ensures requested <==> |text| >= MIN_SUGGEST
    {
      ghost var before := State();
      OtherHandlersPreserveInvariant(before, true, "", text, reply);
      if |text| < MIN_SUGGEST {
        suggestions := [];
        return false;
      }
      requested := true;
      match reply {
        case Replied(Some(xs)) => suggestions := xs;
        case _ => suggestions := [];
      }
    }
  }
}
