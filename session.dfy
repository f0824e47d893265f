/**
  The state of the main component of src/App.jsx as one value, and each of its
  handlers as a function from the state before to the state after. These
  functions are the specification the class in module App is proved against;
  the lemmas below state what the handlers promise.

  Calls the component makes to services it does not own are inputs:
  `Fetch<T>` is how an awaited HTTP call ended, an `Option<string>` id is what
  Firestore's `addDoc` resolved to (`None` when it rejected), and `remoteOk`
  says whether an awaited Firestore delete or batch commit succeeded.
 */
module Session {
  import opened Maybe
  import opened Text
  import opened Lists
  import opened Cache
  import opened Entries

  const HISTORY_CAP: nat := 100
  const MIN_SUGGEST: nat := 2
  const NETWORK_ERROR: string := "Network error. Please try again."
  const DEFAULT_VOICE: string := "en-US"

  /** The on-device voice for each app language (`langMap` of `speak`). */
  const VOICES: map<string, string> :=
    map["en" := "en-US", "es" := "es-ES", "pt" := "pt-PT", "de" := "de-DE",
        "fr" := "fr-FR", "uk" := "uk-UA", "ru" := "ru-RU"]

  /** The reply of the grammar endpoint, kept as it came (error replies included). */
  datatype Grammar = Grammar(body: string)

  /** A cached response: translations under `tr_` keys, conjugation tables under `grammar_` keys. */
  datatype CacheValue = CachedTranslation(translation: Translation) | CachedGrammar(grammar: Grammar)

  /** The `result` state: nothing shown, a translation, or `{ error }`. */
  datatype ResultView = NoResult | Shown(translation: Translation) | Failed(error: string)

  /** What is sounding: nothing, the fetched audio for a text, or an on-device utterance in a voice. */
  datatype Playback = Silent | Audio(text: string) | Voice(text: string, voice: string)

  /** How an awaited HTTP call ended: it threw (network failure, bad JSON), or it replied. */
  datatype Fetch<T> = Threw | Replied(reply: T)

  /** The JSON of `/api/translate`; an `error` of "" stands for an absent (falsy) `error` field. */
  datatype TranslateReply = TranslateReply(error: string, body: Translation)

  /** How the `/api/tts` request ended: playable audio, or a failure with or without an on-device synthesizer. */
  datatype TtsOutcome = AudioReady | TtsFailed(synthesizer: bool)

  /** The component state the core handlers read and write. */
  datatype AppState = AppState(
    user: Option<string>,
    nativeLang: string,
    targetLang: string,
    word: string,
    result: ResultView,
    grammar: Option<Grammar>,
    suggestions: seq<string>,
    saved: seq<Entry>,
    history: seq<Entry>,
    cache: map<string, CacheValue>,
    speakingWord: string,
    playback: Playback,
    inputShake: bool)

  /** The state right after sign-in, before any stored data is loaded. */
  function Initial(user: Option<string>, cache: map<string, CacheValue>): AppState {
    AppState(user, "en", "es", "", NoResult, None, [], [], [], cache, "", Silent, false)
  }

  // ---------------------------------------------------------------- invariant

  /** Every translation slot holds a translation and every grammar slot a conjugation table. */
  ghost predicate CacheWellTyped(cache: map<string, CacheValue>) {
    forall k :: k in cache ==>
      (InTranslateSpace(k) ==> cache[k].CachedTranslation?) && (InGrammarSpace(k) ==> cache[k].CachedGrammar?)
  }

  /**
    A history record as `handleTranslate` makes it: a non-empty word that
    neither starts nor ends with white space (a trimmed word), and its
    translation the reply's `main`.
   */
  ghost predicate WellFormedHistoryEntry(e: Entry) {
    && e.word != ""
    && !IsSpace(e.word[0]) && !IsSpace(e.word[|e.word| - 1])
    && e.translation == e.result.main
  }

  /** What the handlers keep true of the state. */
  ghost predicate Invariant(s: AppState) {
    && CacheWellTyped(s.cache)
    && |s.history| <= HISTORY_CAP
    && (forall e :: e in s.history ==> WellFormedHistoryEntry(e))
    && (forall e :: e in s.saved ==> e.translation == e.result.main)
    && (s.playback.Silent? || s.playback.text == s.speakingWord)
  }

  // ---------------------------------------------------------------- translate
  //
  // `handleTranslate(w)` works on `w.trim()` throughout; the functions below
  // take that trimmed word `t`, and `Translate` applies them to `Trim(w)`.

  /** The cache key of a translate request for `t` in the current language pair. */
  function TranslateKeyOf(s: AppState, t: string): string {
    TranslateKey(t, s.nativeLang, s.targetLang)
  }

  /**
    The translation cached for `t` in the current pair, if any. A slot holding
    a conjugation table would count as a miss; the invariant rules that out.
   */
  function CachedTranslationOf(s: AppState, t: string): Option<Translation> {
    match Get(s.cache, TranslateKeyOf(s, t))
    case Some(v) => if v.CachedTranslation? then Some(v.translation) else None
    case None => None
  }

  /** The history record a successful translate of `t` creates. */
  function HistoryItem(s: AppState, t: string, d: Translation, id: string): Entry {
    Entry(id, t, d.main, s.nativeLang, s.targetLang, d)
  }

  /** The translate endpoint is called: the word is not blank and the cache misses. */
  predicate TranslateCallsNetwork(s: AppState, t: string) {
    t != "" && CachedTranslationOf(s, t).None?
  }

  /** The reply carries a translation: the call did not throw and its `error` field is falsy. */
  predicate Succeeded(reply: Fetch<TranslateReply>) {
    reply.Replied? && reply.reply.error == ""
  }

  /** The network call succeeded, a user is signed in and `addDoc` resolved: a history record is written. */
  predicate Recorded(s: AppState, t: string, reply: Fetch<TranslateReply>, newId: Option<string>) {
    TranslateCallsNetwork(s, t) && Succeeded(reply) && s.user.Some? && newId.Some?
  }

  /** The history list with the new record in front, before the cap. */
  function Prepended(s: AppState, t: string, reply: Fetch<TranslateReply>, newId: Option<string>): seq<Entry>
    requires Recorded(s, t, reply, newId)
  {
    [HistoryItem(s, t, reply.reply.body, newId.value)] + s.history
  }

  /**
    What the result card shows after translating a non-blank `t`: the cached
    translation, the reply's error, the network error when the call threw or
    `addDoc` rejected, and otherwise the fresh translation.
   */
  function TranslateResult(s: AppState, t: string, reply: Fetch<TranslateReply>, newId: Option<string>): ResultView {
    match CachedTranslationOf(s, t)
    case Some(d) => Shown(d)
    case None =>
      match reply
      case Threw => Failed(NETWORK_ERROR)
      case Replied(r) =>
        if r.error != "" then Failed(r.error)
        else if s.user.Some? && newId.None? then Failed(NETWORK_ERROR)
        else Shown(r.body)
  }

  /** The cache after translating `t`: a fetched translation is stored before the history write. */
  function TranslateCache(s: AppState, t: string, reply: Fetch<TranslateReply>): map<string, CacheValue> {
    if TranslateCallsNetwork(s, t) && Succeeded(reply)
    then Set(s.cache, TranslateKeyOf(s, t), CachedTranslation(reply.reply.body))
    else s.cache
  }

  /** The history after translating `t`: the new record in front, cut to the first 100. */
  function TranslateHistory(s: AppState, t: string, reply: Fetch<TranslateReply>, newId: Option<string>): seq<Entry> {
    if Recorded(s, t, reply, newId) then Truncate(Prepended(s, t, reply, newId), HISTORY_CAP) else s.history
  }

  /**
    Translating the trimmed word `t`: a blank word only shakes the input;
    otherwise the suggestions and the conjugation table are cleared and the
    result, the cache and the history move as the three functions above say.
   */
  function TranslateTrimmed(s: AppState, t: string, reply: Fetch<TranslateReply>, newId: Option<string>): (r: AppState)
    ensures r.user == s.user && r.nativeLang == s.nativeLang && r.targetLang == s.targetLang
    ensures r.saved == s.saved && r.speakingWord == s.speakingWord && r.playback == s.playback
    ensures r.cache != s.cache ==> TranslateCallsNetwork(s, t) && Succeeded(reply)
    ensures r.history != s.history ==> Recorded(s, t, reply, newId)
  {
    if t == "" then s.(inputShake := true)
    else s.(suggestions := [], grammar := None,
            result := TranslateResult(s, t, reply, newId),
            cache := TranslateCache(s, t, reply),
            history := TranslateHistory(s, t, reply, newId))
  }

  /** `handleTranslate(w)`. */
  function Translate(s: AppState, w: string, reply: Fetch<TranslateReply>, newId: Option<string>): (r: AppState)
    ensures IsBlank(w) ==> r == s.(inputShake := true)
    ensures !IsBlank(w) ==> r.suggestions == [] && r.grammar == None && r.inputShake == s.inputShake
  {
    TrimEmptyIffBlank(w);
    TranslateTrimmed(s, Trim(w), reply, newId)
  }

  /** The history ids deleted remotely when translating `t`: those pushed past the cap. */
  function TranslateDeletes(s: AppState, t: string, reply: Fetch<TranslateReply>, newId: Option<string>): seq<string> {
    if Recorded(s, t, reply, newId) then Ids(Overflow(Prepended(s, t, reply, newId), HISTORY_CAP)) else []
  }

  // ---------------------------------------------------------------- grammar

  /** The key of the conjugation table: the `word` state as typed (untrimmed) and the target language. */
  function GrammarKeyOf(s: AppState): string {
    GrammarKey(s.word, s.targetLang)
  }

  /**
    The conjugation table cached for the current word, if any. A slot holding
    a translation would count as a miss; the invariant rules that out.
   */
  function CachedGrammarOf(s: AppState): Option<Grammar> {
    match Get(s.cache, GrammarKeyOf(s))
    case Some(v) => if v.CachedGrammar? then Some(v.grammar) else None
    case None => None
  }

  /** `loadGrammar()` has something to conjugate: a shown translation with a non-empty `main`. */
  predicate HasMain(s: AppState) {
    s.result.Shown? && s.result.translation.main != ""
  }

  /** `loadGrammar()` goes to the network: there is a translation and the cache misses. */
  predicate GrammarCallsNetwork(s: AppState) {
    HasMain(s) && CachedGrammarOf(s).None?
  }

  /**
    `loadGrammar()`: a cached table is shown; otherwise a fetched one is shown
    and cached, whatever it holds; a thrown call changes nothing.
   */
  function LoadGrammar(s: AppState, reply: Fetch<Grammar>): (r: AppState)
    ensures r == s.(grammar := r.grammar, cache := r.cache)
    ensures r.cache != s.cache ==> GrammarCallsNetwork(s) && reply.Replied?
  {
    if !HasMain(s) then s
    else match CachedGrammarOf(s)
      case Some(g) => s.(grammar := Some(g))
      case None =>
        match reply
        case Threw => s
        case Replied(g) => s.(grammar := Some(g), cache := Set(s.cache, GrammarKeyOf(s), CachedGrammar(g)))
  }

  // ---------------------------------------------------------------- save

  /** The saved record `handleSave` creates: the typed `word`, untrimmed, and the shown translation. */
  function SavedItem(s: AppState, id: string): Entry
    requires s.result.Shown?
  {
    Entry(id, s.word, s.result.translation.main, s.nativeLang, s.targetLang, s.result.translation)
  }

  /**
    `handleSave()`: a toggle on (typed word, target language). The save button
    is only rendered for a successful result, so an error result never reaches it.
   */
  function Save(s: AppState, newId: string, remoteOk: bool): (r: AppState)
    requires !s.result.Failed?
    ensures r == s.(saved := r.saved)
    ensures r.saved != s.saved ==> remoteOk && s.user.Some? && s.result.Shown?
  {
    if s.result.NoResult? || s.user.None? then s
    else match FindSaved(s.saved, s.word, s.targetLang)
      case Some(i) => if remoteOk then s.(saved := RemoveId(s.saved, s.saved[i].id)) else s
      case None => if remoteOk then s.(saved := [SavedItem(s, newId)] + s.saved) else s
  }

  /** The "Saved" badge of the result card: it looks up the word the service echoed, not the typed one. */
  predicate BadgeShown(s: AppState)
    requires s.result.Shown?
  {
    IsSaved(s.saved, s.result.translation.word, s.targetLang)
  }

  // ---------------------------------------------------------------- speech

  /** `langMap[lang] || "en-US"`. */
  function VoiceFor(lang: string): (v: string)
    ensures |v| == 5 && v[2] == '-'
  {
    if lang in VOICES then VOICES[lang] else DEFAULT_VOICE
  }

  /** `speak(text, lang)`: stop whatever sounds, then toggle off or start the new text. */
  function Speak(s: AppState, text: string, lang: string, tts: TtsOutcome): (r: AppState)
    ensures r == s.(speakingWord := r.speakingWord, playback := r.playback)
    ensures r.speakingWord == "" || r.speakingWord == text
  {
    var stopped := s.(playback := Silent);
    if s.speakingWord == text then stopped.(speakingWord := "")
    else
      var sound := match tts
        case AudioReady => Audio(text)
        case TtsFailed(synthesizer) => if synthesizer then Voice(text, VoiceFor(lang)) else Silent;
      stopped.(speakingWord := text, playback := sound)
  }

  /** `speak(text, lang)` requests audio from the TTS endpoint. */
  predicate SpeakCallsNetwork(s: AppState, text: string) {
    s.speakingWord != text
  }

  /** The `onended` / `onerror` callbacks of the audio element or the utterance. */
  function PlaybackEnded(s: AppState): AppState {
    s.(speakingWord := "", playback := Silent)
  }

  // ---------------------------------------------------------------- lists, languages, suggestions

  /** `deleteSaved(id)`: `user.uid` throws when signed out; a rejected delete leaves the list. */
  function DeleteSaved(s: AppState, id: string, remoteOk: bool): (r: AppState)
    ensures r == s.(saved := r.saved) && |r.saved| <= |s.saved|
  {
    if s.user.None? || !remoteOk then s else s.(saved := RemoveId(s.saved, id))
  }

  /** `deleteHistory(id)`. */
  function DeleteHistory(s: AppState, id: string, remoteOk: bool): (r: AppState)
    ensures r == s.(history := r.history) && |r.history| <= |s.history|
  {
    if s.user.None? || !remoteOk then s else s.(history := RemoveId(s.history, id))
  }

  /** The batch of `clearHistory()` cannot be built: signed out with records to delete. */
  predicate ClearBlocked(s: AppState, remoteOk: bool) {
    (s.user.None? && s.history != []) || !remoteOk
  }

  /** `clearHistory()`. */
  function ClearHistory(s: AppState, remoteOk: bool): (r: AppState)
    ensures r == s || r == s.(history := [])
  {
    if ClearBlocked(s, remoteOk) then s else s.(history := [])
  }

  /** The ids `clearHistory()` deletes in its batch. */
  function ClearDeletes(s: AppState, remoteOk: bool): seq<string> {
    if ClearBlocked(s, remoteOk) then [] else Ids(s.history)
  }

  /** `handleSwapLangs()`. */
  function SwapLangs(s: AppState): AppState {
    s.(nativeLang := s.targetLang, targetLang := s.nativeLang, result := NoResult, grammar := None)
  }

  /** `setWord(val)` of `handleInput`. */
  function Input(s: AppState, val: string): AppState {
    s.(word := val)
  }

  /** `fetchSuggestions(text)`: `d.suggestions || []`, and `[]` when the call throws. */
  function FetchSuggestions(s: AppState, text: string, reply: Fetch<Option<seq<string>>>): (r: AppState)
    ensures r == s.(suggestions := r.suggestions)
    ensures reply.Threw? ==> r.suggestions == []
  {
    if |text| < MIN_SUGGEST then s.(suggestions := [])
    else match reply
      case Replied(Some(xs)) => s.(suggestions := xs)
      case _ => s.(suggestions := [])
  }
}
