/** The attachment search: rows narrowed by the gram index first, then tested in full. */
module AttachmentSearch {
  import opened Prelude
  import opened Floors
  import opened TermMatching
  import opened FloorWords
  import opened StandingWords

  /**
   A visible attachment: its stored search document, absent if none is valid; its rows in the term
   table; and the live file name, title and category path.
   */
  datatype Attachment = Attachment(doc: Option<seq<string>>, terms: set<string>, filename: string, title: string, path: string)

  function Texts(a: Attachment): seq<string> {
    (if a.doc.Some? then a.doc.value else [a.filename, a.title]) + [a.path]
  }

  predicate Accepts(uni: Unicode, a: Attachment, word: string) {
    exists i | 0 <= i < |Texts(a)| :: TermMatch(uni, Some(Texts(a)[i]), word)
  }

  predicate Candidate(uni: Unicode, a: Attachment, word: string) {
    a.doc.None? || InTerms(word, a.terms) || TermMatch(uni, Some(a.path), word)
  }

  predicate AcceptsAll(uni: Unicode, a: Attachment, words: seq<string>) {
    forall i | 0 <= i < |words| :: Accepts(uni, a, words[i])
  }

  predicate CandidateForAll(uni: Unicode, a: Attachment, words: seq<string>) {
    forall i | 0 <= i < |words| :: Candidate(uni, a, words[i])
  }

  /** Every row tested: what the search is meant to return, before ranking and the limit. */
  function Scan(uni: Unicode, rows: seq<Attachment>, words: seq<string>): seq<Attachment> {
    if rows == [] then []
    else (if AcceptsAll(uni, rows[0], words) then [rows[0]] else []) + Scan(uni, rows[1..], words)
  }

  function Search(uni: Unicode, rows: seq<Attachment>, words: seq<string>): seq<Attachment> {
    if rows == [] then []
    else
      (if CandidateForAll(uni, rows[0], words) && AcceptsAll(uni, rows[0], words) then [rows[0]] else [])
      + Search(uni, rows[1..], words)
  }

  /** The index is fresh: stored fields are normalised and their grams are in the term table. */
  predicate Indexed(uni: Unicode, a: Attachment) {
    a.doc.Some? ==> forall i | 0 <= i < |a.doc.value| ::
      uni.normalize(a.doc.value[i]) == a.doc.value[i] && Grams(uni, a.doc.value[i]) <= a.terms
  }

  /** The narrowing serves the word in this text: it serves it in every text, or flooring changes nothing here. */
  predicate ServedIn(uni: Unicode, text: string, word: string) {
    || SingleFloor(word).Some?
    || (&& word != [] && !uni.isSpace(word[0])
        && (Stands(word) || (FloorText(text) == text && Contains(FloorText(word), Prefix3(word)))))
  }

  /** If only stored fields match the word, it is served in one of them. */
  predicate Served(uni: Unicode, a: Attachment, word: string) {
    a.doc.Some? && !TermMatch(uni, Some(a.path), word) && (exists i | 0 <= i < |a.doc.value| :: TermMatch(uni, Some(a.doc.value[i]), word))
    ==> exists i | 0 <= i < |a.doc.value| :: TermMatch(uni, Some(a.doc.value[i]), word) && ServedIn(uni, a.doc.value[i], word)
  }

  lemma ServedInLosesNothing(uni: Unicode, text: string, word: string)
    requires Sensible(uni) && ServedIn(uni, text, word) && uni.normalize(text) == text && TermMatch(uni, Some(text), word)
    ensures InTerms(word, Grams(uni, text))
  {
    if SingleFloor(word).Some? {
      FloorWordsLoseNothing(uni, word, text);
    } else if Stands(word) {
      StandingWordsLoseNothing(uni, word, text);
    } else {
      PlainWordsLoseNothing(uni, word, text);
    }
  }

  lemma AcceptedIsCandidate(uni: Unicode, a: Attachment, word: string)
    requires Sensible(uni) && Indexed(uni, a) && Served(uni, a, word) && Accepts(uni, a, word)
    ensures Candidate(uni, a, word)
  {
    if !Candidate(uni, a, word) {
      var k :| 0 <= k < |Texts(a)| && TermMatch(uni, Some(Texts(a)[k]), word);
      assert k < |a.doc.value| && Texts(a)[k] == a.doc.value[k];
      var i :| 0 <= i < |a.doc.value| && TermMatch(uni, Some(a.doc.value[i]), word) && ServedIn(uni, a.doc.value[i], word);
      ServedInLosesNothing(uni, a.doc.value[i], word);
      MoreTerms(word, Grams(uni, a.doc.value[i]), a.terms);
    }
  }

  lemma MoreTerms(word: string, some: set<string>, all: set<string>)
    requires InTerms(word, some) && some <= all
    ensures InTerms(word, all)
  {
  }

  /** The narrowed search returns exactly what testing every row returns, in the same order. */
  lemma {:induction false} SearchIsScan(uni: Unicode, rows: seq<Attachment>, words: seq<string>)
    requires Sensible(uni)
    requires forall k | 0 <= k < |rows| :: Indexed(uni, rows[k]) && forall i | 0 <= i < |words| :: Served(uni, rows[k], words[i])
    ensures Search(uni, rows, words) == Scan(uni, rows, words)
  {
    if rows != [] {
      if AcceptsAll(uni, rows[0], words) {
        forall i | 0 <= i < |words| ensures Candidate(uni, rows[0], words[i]) {
          assert Accepts(uni, rows[0], words[i]);
          AcceptedIsCandidate(uni, rows[0], words[i]);
        }
      }
      SearchIsScan(uni, rows[1..], words);
    }
  }
}
