/** What the rows of a conversation hold after a turn, field by field. */
module ConversationRecord {
  import opened Prelude
  import opened ConversationThread
  import opened ConversationRewind

  /**
   An answer gains one version.  If it had none, the answer so far is kept as version 1, with the
   sources and the query the conversation ended with.
   */
  ghost predicate GainsAnswer(t: Thread, before: Row, after: Row, reply: Reply, question: Option<nat>) {
    var kept := if before.answers == []
      then [AnswerVersion(1, before.content, before.sources, [], None, t.lastSources, t.lastSearchQuery, None)]
      else before.answers;
    var sources := if reply.sources == [] then None else Some(reply.sources);
    && after.answers == kept + [AnswerVersion(|kept| + 1, reply.answer, sources, reply.files, reply.policy,
                                              reply.finalSources, reply.searchQuery, question)]
    && after.answerHead == Some(|kept|)
    && after.(answers := [], answerHead := None) == before.(answers := [], answerHead := None)
  }

  /** A question gains one wording.  If it had no versions, the wording so far is kept as version 1. */
  ghost predicate GainsWording(before: Row, after: Row, text: string) {
    var kept := if before.edits == [] then [UserVersion(1, before.content)] else before.edits;
    && after.edits == kept + [UserVersion(|kept| + 1, text)]
    && after.editHead == Some(|kept|)
    && after.(edits := [], editHead := None) == before.(edits := [], editHead := None)
  }

  /** Only the last two rows changed, and the conversation ends with what the reply says. */
  ghost predicate LatestTurnOnly(before: Thread, after: Thread, reply: Reply) {
    && |after.rows| == |before.rows| >= 2 && after.rows[..|before.rows| - 2] == before.rows[..|before.rows| - 2]
    && after.turnIndex == before.turnIndex
    && after.lastSources == reply.finalSources && after.lastSearchQuery == reply.searchQuery
  }

  /** A new turn adds a question, with the categories chosen for it, and its first answer. */
  lemma NewTurnRecords(t: Thread, text: string, categories: Option<seq<string>>, reply: Reply)
    ensures var after := NewTurn(t, text, categories, reply); var n := |t.rows|;
      && |after.rows| == n + 2 && after.rows[..n] == t.rows && after.turnIndex == t.turnIndex + 1
      && after.lastSources == reply.finalSources && after.lastSearchQuery == reply.searchQuery
      && after.rows[n] == Row(User, text, None, [], [], None, [], None,
                              if categories.Some? && categories.value != [] then categories else None)
      && after.rows[n + 1].answers == [AnswerVersion(1, reply.answer, after.rows[n + 1].sources, reply.files, reply.policy,
                                                     reply.finalSources, reply.searchQuery, None)]
      && after.rows[n + 1].(answers := [])
         == Row(Assistant, reply.answer, if reply.sources == [] then None else Some(reply.sources), reply.files, [], Some(0), [], None, None)
  {
    hide NewTurn;
    NewTurnIs(t, text, categories, reply);
  }

  /** Generating the latest answer again adds a version to it, bound to the wording shown. */
  lemma RegenerationRecords(t: Thread, reply: Reply)
    requires Sound(t) && |t.rows| >= 2
    ensures var n := |t.rows|; var after := RedoneOnce(t, Regenerate(n - 1, reply));
      && LatestTurnOnly(t, after, reply) && after.rows[n - 2] == t.rows[n - 2]
      && GainsAnswer(t, t.rows[n - 1], after.rows[n - 1], reply, t.rows[n - 2].editHead)
  {
    hide RedoneOnce;
    RegenerateIs(t, reply);
    assert TurnOk(t.rows[|t.rows| - 2], t.rows[|t.rows| - 1]);
  }

  /** Editing the latest question adds a wording to it and a version, bound to that wording, to its answer. */
  lemma EditRecords(t: Thread, text: string, reply: Reply)
    requires Sound(t) && |t.rows| >= 2
    ensures var n := |t.rows|; var after := RedoneOnce(t, Edit(n - 2, text, reply));
      && LatestTurnOnly(t, after, reply)
      && GainsWording(t.rows[n - 2], after.rows[n - 2], text)
      && GainsAnswer(t, t.rows[n - 1], after.rows[n - 1], reply, after.rows[n - 2].editHead)
  {
    hide RedoneOnce;
    EditIs(t, text, reply);
    assert TurnOk(t.rows[|t.rows| - 2], t.rows[|t.rows| - 1]);
  }

  /** A message is shown by its newest version, and as it was stored if it has none. */
  lemma ShownIs(row: Row)
    requires RowOk(row)
    ensures row.answers == [] && row.edits == [] ==> Shown(row) == Message(row.role, row.content, row.sources, row.files, None)
    ensures row.edits != [] ==> Shown(row) == Message(row.role, row.edits[|row.edits| - 1].content, row.sources, row.files, None)
    ensures row.answers != [] ==>
              var newest := row.answers[|row.answers| - 1];
              Shown(row) == Message(row.role, newest.content, if newest.sources.Some? then newest.sources else row.sources,
                                    newest.files, newest.policy)
  {
  }

  /** Doing the latest turn over starts from the messages before it, as shown but for their policies. */
  lemma RewoundMessages(t: Thread, i: nat)
    requires Sound(t) && i + 2 < |t.rows|
    ensures Rewind(t, |t.rows| - 1).Ok?
    ensures var messages := Rewind(t, |t.rows| - 1).value.session.messages;
      |messages| == |t.rows| - 2 && messages[i] == Hydrate(t).messages[i].(policy := None)
  {
    hide Rewind, Shown, Sound;
    RewindIs(t);
  }
}
