/**
  The saved-word and history records of src/App.jsx and the pure operations
  over lists of them: removal by id, the case-insensitive search of the Saved
  and History tabs, and the (word, target language) lookup behind the Save
  toggle and the "Saved" badge.
 */
module Entries {
  import opened Maybe
  import opened Text
  import opened Lists

  /**
    The part of a translation reply the core reads: the word as the service
    echoes it and its main translation. The reply's other fields (alternatives,
    meanings, forms, phonetics) are carried along and never inspected.
   */
  datatype Translation = Translation(word: string, main: string)

  /** A saved word or a history record: `{ id, word, translation, fromLang, toLang, result }`. */
  datatype Entry = Entry(id: string, word: string, translation: string, fromLang: string, toLang: string, result: Translation)

  /** The document ids of a list, in order. */
  function Ids(items: seq<Entry>): (r: seq<string>)
    ensures |r| == |items| && forall i :: 0 <= i < |items| ==> r[i] == items[i].id
  {
    seq(|items|, i requires 0 <= i < |items| => items[i].id)
  }

  /** `prev.filter(i => i.id !== id)`. */
  function RemoveId(items: seq<Entry>, id: string): (r: seq<Entry>)
    ensures |r| <= |items| && forall e :: e in r ==> e.id != id
  {
    Select(items, (e: Entry) => e.id != id)
  }

  /** Exactly the entries carrying `id` go; every other entry stays, in its original order. */
  lemma RemoveIdSpec(items: seq<Entry>, id: string)
    ensures forall e :: e in RemoveId(items, id) <==> e in items && e.id != id
    ensures IsSubsequence(RemoveId(items, id), items)
    ensures forall e :: multiset(RemoveId(items, id))[e] == if e.id != id then multiset(items)[e] else 0
    ensures id !in Ids(items) ==> RemoveId(items, id) == items
  {
    var keep := (e: Entry) => e.id != id;
    forall e ensures e in RemoveId(items, id) <==> e in items && e.id != id {
      SelectMembers(items, keep, e);
    }
    forall e ensures multiset(RemoveId(items, id))[e] == if e.id != id then multiset(items)[e] else 0 {
      SelectCount(items, keep, e);
    }
    SelectIsSubsequence(items, keep);
    if id !in Ids(items) {
      forall i | 0 <= i < |items| ensures keep(items[i]) {
        assert Ids(items)[i] == items[i].id;
      }
      SelectAll(items, keep);
    }
  }

  /**
    The search test of the Saved and History tabs: the query occurs in the
    word or in the translation, both sides lower-cased.
   */
  predicate Matches(e: Entry, query: string) {
    Contains(Lower(e.word), Lower(query)) || Contains(Lower(e.translation), Lower(query))
  }

  /** `filteredSaved` / `filteredHistory`: the entries that match the query, in list order. */
  function Search(items: seq<Entry>, query: string): (r: seq<Entry>)
    ensures |r| <= |items| && forall e :: e in r ==> Matches(e, query)
  {
    Select(items, (e: Entry) => Matches(e, query))
  }

  /** The search result is the order-preserving subsequence of exactly the matching entries. */
  lemma SearchSpec(items: seq<Entry>, query: string)
    ensures forall e :: e in Search(items, query) <==> e in items && Matches(e, query)
    ensures IsSubsequence(Search(items, query), items)
    ensures forall e :: multiset(Search(items, query))[e] == if Matches(e, query) then multiset(items)[e] else 0
  {
    var keep := (e: Entry) => Matches(e, query);
    forall e ensures e in Search(items, query) <==> e in items && Matches(e, query) {
      SelectMembers(items, keep, e);
    }
    forall e ensures multiset(Search(items, query))[e] == if Matches(e, query) then multiset(items)[e] else 0 {
      SelectCount(items, keep, e);
    }
    SelectIsSubsequence(items, keep);
  }

  /** An empty search box lists every entry. */
  lemma SearchEmptyQuery(items: seq<Entry>)
    ensures Search(items, "") == items
  {
    forall i | 0 <= i < |items| ensures Matches(items[i], "") {
      ContainsEmpty(Lower(items[i].word));
    }
    SelectAll(items, (e: Entry) => Matches(e, ""));
  }

  /** The search ignores the case of the query: typing it in capitals finds the same entries. */
  lemma SearchIgnoresQueryCase(items: seq<Entry>, query: string)
    ensures Search(items, query) == Search(items, Lower(query))
  {
    LowerIdempotent(query);
    SelectSameTest(items, (e: Entry) => Matches(e, query), (e: Entry) => Matches(e, Lower(query)));
  }

  /** `saved.some(s => s.word === word && s.toLang === toLang)`: the "Saved" badge test. */
  predicate IsSaved(saved: seq<Entry>, word: string, toLang: string) {
    exists i :: 0 <= i < |saved| && saved[i].word == word && saved[i].toLang == toLang
  }

  /** `saved.find(s => s.word === word && s.toLang === toLang)`: the first entry for that pair. */
  function FindSaved(saved: seq<Entry>, word: string, toLang: string): (r: Option<nat>)
    ensures r.Some? ==> r.value < |saved| && saved[r.value].word == word && saved[r.value].toLang == toLang
    ensures r.Some? ==> forall j :: 0 <= j < r.value ==> !(saved[j].word == word && saved[j].toLang == toLang)
    ensures r.None? <==> !IsSaved(saved, word, toLang)
  {
    if saved == [] then None
    else if saved[0].word == word && saved[0].toLang == toLang then Some(0)
    else match FindSaved(saved[1..], word, toLang)
      case None => None
      case Some(i) => Some(i + 1)
  }
}
