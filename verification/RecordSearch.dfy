/** Searching the records of the index: what the search returns, in terms of what a record stores. */
module RecordSearch {
  import opened Prelude
  import opened AttachmentRecords
  import opened AttachmentContents
  import opened TermMeaning
  import Matching = TermMatching
  import Search = AttachmentSearch
  import Floors

  /**
   Some text of the version matches the word: the path of its category, its stored document or,
   while it has none, its file name or its title.
   */
  predicate Matched(uni: Unicode, r: Record, path: string, word: string) {
    || Matching.TermMatch(uni, Some(path), word)
    || (r.doc.Some? && exists k | 0 <= k < |r.doc.value.texts| :: Matching.TermMatch(uni, Some(r.doc.value.texts[k]), word))
    || (r.doc.None? && (Matching.TermMatch(uni, Some(r.filename), word) || Matching.TermMatch(uni, Some(r.title), word)))
  }

  /** The narrowed search returns exactly the versions in which every word is matched by some text. */
  lemma RecordIsReturnedIff(uni: Unicode, records: seq<(Record, string)>, words: seq<string>, k: nat)
    requires Matching.Sensible(uni) && forall t: string :: uni.normalize(uni.normalize(t)) == uni.normalize(t)
    requires forall i | 0 <= i < |records| :: RecordOk(uni, records[i].0)
    requires forall j | 0 <= j < |records| ::
      forall i | 0 <= i < |words| :: Search.Served(uni, Shown(records[j].0, records[j].1), words[i])
    requires k < |records|
    ensures Rows(records)[k] in Search.Search(uni, Rows(records), words) <==>
            forall i | 0 <= i < |words| :: Matched(uni, records[k].0, records[k].1, words[i])
  {
    hide Matching.TermMatch, Search.Served, RecordOk;
    SearchOverRecordsIsScan(uni, records, words);
    ScanReturns(uni, Rows(records), words, Rows(records)[k]);
    assert Rows(records)[k] == Shown(records[k].0, records[k].1);
  }

  /** The text an image was read to last is searched: a word it affirms is matched. */
  lemma RecognisedTextIsMatched(uni: Unicode, r: Record, path: string, j: nat, word: string)
    requires RecordOk(uni, r) && r.doc.Some? && NewestGood(r, j) && r.jobs[j].status == Succeeded && r.jobs[j].text.Some?
    requires forall t: string :: uni.normalize(uni.normalize(t)) == uni.normalize(t)
    requires Floors.FloorText(word) != [] && NeverOverlaps(Floors.FloorText(word)) && Affirms(uni, r.jobs[j].text.value, word)
    ensures Matched(uni, r, path, word)
  {
    hide RecordOk, Matching.TermMatch, Floors.FloorText, NeverOverlaps;
    ContentsAre(uni, r);
    var text := uni.normalize(r.jobs[j].text.value);
    assert Stores(uni, r, OCR, r.jobs[j].text.value);
    assert Compared(uni, text) == Compared(uni, r.jobs[j].text.value);
    MatchIsAffirmed(uni, text, word);
    assert r.doc.value.texts[OCR] == text;
  }
}
