/** What regenerating and editing keep: one turn is rewound, nothing recorded is lost. */
module ConversationRewind {
  import opened Prelude
  import opened ConversationThread

  /** Versions are numbered 1, 2, ... without gaps and the head names the newest. */
  predicate RowOk(row: Row) {
    && (row.role == User ==> row.answers == [] && row.sources.None?)
    && (row.role == Assistant ==> row.edits == [])
    && (forall i | 0 <= i < |row.answers| :: row.answers[i].index == i + 1)
    && (forall i | 0 <= i < |row.edits| :: row.edits[i].index == i + 1)
    && row.answerHead == (if row.answers == [] then None else Some(|row.answers| - 1))
    && row.editHead == (if row.edits == [] then None else Some(|row.edits| - 1))
  }

  /** An edited question is answered by an answer to its newest wording. */
  predicate TurnOk(question: Row, answer: Row) {
    && question.role == User && answer.role == Assistant && RowOk(question) && RowOk(answer)
    && (question.edits != [] ==> answer.answers != [] && answer.answers[|answer.answers| - 1].userVersion == question.editHead)
  }

  predicate RowsOk(rows: seq<Row>) {
    && |rows| % 2 == 0
    && (forall i | 0 <= i < |rows| :: rows[i].role == if i % 2 == 0 then User else Assistant)
    && (forall i | 0 <= i < |rows| && i % 2 == 0 :: TurnOk(rows[i], rows[i + 1]))
  }

  predicate Versioned(rows: seq<Row>) {
    rows == [] || rows[|rows| - 1].answers != []
  }

  /** Turns from before answers had versions come first, if there are any. */
  predicate LegacyFirst(rows: seq<Row>) {
    forall i, j | 0 <= i < j < |rows| && rows[j].role == Assistant :: rows[i].answers != [] ==> rows[j].answers != []
  }

  predicate Sound(t: Thread) {
    && RowsOk(t.rows)
    && LegacyFirst(t.rows)
    && t.turnIndex == |t.rows| / 2
    && (t.rows == [] ==> t.lastSources == [] && t.lastSearchQuery == "")
    && (t.rows != [] && Versioned(t.rows) ==>
          var newest := t.rows[|t.rows| - 1].answers[|t.rows[|t.rows| - 1].answers| - 1];
          newest.finalSources == t.lastSources && newest.searchQuery == t.lastSearchQuery)
  }

  /** Rows and versions already stored are still there, unaltered. */
  predicate RowExtends(before: Row, after: Row) {
    && after.(answers := before.answers, answerHead := before.answerHead, edits := before.edits, editHead := before.editHead) == before
    && before.answers <= after.answers
    && before.edits <= after.edits
  }

  /** Only the latest turn differs, and it only gained versions. */
  predicate SameButLatest(before: Thread, after: Thread) {
    && |before.rows| == |after.rows| && before.turnIndex == after.turnIndex
    && forall i | 0 <= i < |before.rows| :: RowExtends(before.rows[i], after.rows[i])
                                            && (i < |before.rows| - 2 ==> after.rows[i] == before.rows[i])
  }

  lemma {:induction false} UserCountIs(rows: seq<Row>)
    requires |rows| % 2 == 0 && forall i | 0 <= i < |rows| :: rows[i].role == if i % 2 == 0 then User else Assistant
    ensures UserCount(WithoutPolicies(ShownAll(rows))) == |rows| / 2
  {
    hide ShownAll, WithoutPolicies;
    if rows == [] {
      NothingShown();
    } else {
      var n := |rows|;
      UserCountIs(rows[..n - 2]);
      LastTwoShown(rows);
    }
  }

  lemma NothingShown()
    ensures WithoutPolicies(ShownAll([])) == []
  {
  }

  lemma LastTwoShown(rows: seq<Row>)
    requires |rows| >= 2
    ensures var n := |rows|; var messages := WithoutPolicies(ShownAll(rows));
      && |messages| == n && messages[n - 2].role == rows[n - 2].role && messages[n - 1].role == rows[n - 1].role
      && messages[..n - 1][n - 2] == messages[n - 2] && messages[..n - 1][..n - 2] == WithoutPolicies(ShownAll(rows[..n - 2]))
  {
  }

  /** In a sound thread the latest answer and question are the last two rows. */
  lemma LatestTurn(rows: seq<Row>)
    requires RowsOk(rows) && rows != []
    ensures LastOf(rows, Assistant, |rows|) == Some(|rows| - 1)
    ensures LastOf(rows, User, |rows| - 1) == Some(|rows| - 2)
    ensures LastAsked(rows, |rows|) == Some(|rows| - 2)
    ensures FirstAssistant(rows, |rows| - 2) == Some(|rows| - 1)
  {
    var n := |rows|;
    assert rows[n - 2].role == User && rows[n - 1].role == Assistant;
    assert FirstAssistant(rows, n - 2) == FirstAssistant(rows, n - 1);
    assert LastAsked(rows, n) == LastAsked(rows, n - 1);
  }

  lemma {:induction false} PriorAnswerIs(rows: seq<Row>, n: nat)
    requires n <= |rows| && RowsOk(rows[..n]) && LegacyFirst(rows[..n])
    ensures PriorAnswer(rows, n) == if n > 0 && rows[n - 1].answers != [] then Some(rows[n - 1].answers[|rows[n - 1].answers| - 1]) else None
  {
    if n > 0 {
      var prefix := rows[..n];
      assert TurnOk(prefix[n - 2], prefix[n - 1]);
      if rows[n - 1].answers == [] {
        NoneVersioned(rows, n);
      }
    }
  }

  lemma {:induction false} NoneVersioned(rows: seq<Row>, n: nat)
    requires n <= |rows| && forall i | 0 <= i < n :: rows[i].answers == [] || rows[i].role == User
    ensures PriorAnswer(rows, n) == None
  {
    if n > 0 {
      NoneVersioned(rows, n - 1);
    }
  }

  // ---- what every turn keeps ----

  /** The rows of a new turn. */
  function Turned(text: string, categories: Option<seq<string>>, reply: Reply): (Row, Row) {
    var version := AnswerVersion(1, reply.answer, Stored(reply.sources), reply.files, reply.policy, reply.finalSources, reply.searchQuery, None);
    (Row(User, text, None, [], [], None, [], None, if categories.Some? then Stored(categories.value) else None),
     Row(Assistant, reply.answer, Stored(reply.sources), reply.files, [version], Some(0), [], None, None))
  }

  lemma NewTurnIs(t: Thread, text: string, categories: Option<seq<string>>, reply: Reply)
    ensures var (question, answer) := Turned(text, categories, reply);
      NewTurn(t, text, categories, reply)
      == Thread(t.rows + [question, answer], t.turnIndex + 1, reply.finalSources, reply.searchQuery)
  {
    PersistAsked(t, Plan(None, None, None, categories), Hydrate(t), text, reply);
  }

  lemma TurnAppended(rows: seq<Row>, question: Row, answer: Row)
    requires RowsOk(rows) && LegacyFirst(rows) && TurnOk(question, answer) && question.role == User && answer.role == Assistant
    requires answer.answers != []
    ensures RowsOk(rows + [question, answer]) && LegacyFirst(rows + [question, answer])
  {
    var after, n := rows + [question, answer], |rows|;
    forall i | 0 <= i < |after| && i % 2 == 0 ensures TurnOk(after[i], after[i + 1]) {
      if i < n {
        assert TurnOk(rows[i], rows[i + 1]);
      }
    }
  }

  lemma NewTurnKeeps(t: Thread, text: string, categories: Option<seq<string>>, reply: Reply)
    requires Sound(t)
    ensures Sound(NewTurn(t, text, categories, reply)) && Versioned(NewTurn(t, text, categories, reply).rows)
    ensures NewTurn(t, text, categories, reply).rows[..|t.rows|] == t.rows
    ensures |NewTurn(t, text, categories, reply).rows| == |t.rows| + 2
  {
    hide NewTurn, RowsOk, LegacyFirst;
    var (question, answer) := Turned(text, categories, reply);
    NewTurnIs(t, text, categories, reply);
    SoundParts(t);
    TurnAppended(t.rows, question, answer);
  }

  lemma SoundParts(t: Thread)
    requires Sound(t)
    ensures RowsOk(t.rows) && LegacyFirst(t.rows) && |t.rows| % 2 == 0
  {
  }

  /** The thread with its latest turn replaced. */
  function Replaced(t: Thread, question: Row, answer: Row, reply: Reply): Thread
    requires |t.rows| >= 2
  {
    var n := |t.rows|;
    t.(rows := t.rows[n - 2 := question][n - 1 := answer], lastSources := reply.finalSources, lastSearchQuery := reply.searchQuery)
  }

  /** The latest answer of a thread with one more version. */
  function Answered(t: Thread, reply: Reply, userVersion: Option<nat>): Row
    requires t.rows != []
  {
    var row := FirstAnswerKept(t, t.rows[|t.rows| - 1]);
    var version := AnswerVersion(|row.answers| + 1, reply.answer, Stored(reply.sources), reply.files, reply.policy,
                                 reply.finalSources, reply.searchQuery, userVersion);
    row.(answers := row.answers + [version], answerHead := Some(|row.answers|))
  }

  /** A question put differently. */
  function Reworded(row: Row, text: string): Row {
    var kept := FirstEditKept(row);
    kept.(edits := kept.edits + [UserVersion(|kept.edits| + 1, text)], editHead := Some(|kept.edits|))
  }

  predicate Effective(t: Thread, redo: Redo) {
    match redo
    case Lost => false
    case Regenerate(place, _) => |t.rows| >= 2 && place == |t.rows| - 1
    case Edit(place, _, _) => |t.rows| >= 2 && place == |t.rows| - 2
  }

  /** A session that ends with a turn is stored by one of the three branches. */
  lemma PersistAsked(t: Thread, plan: Plan, s: Session, text: string, reply: Reply)
    ensures var asked := Asked(s, text, reply); var user := Message(User, text, None, [], None);
      var asst := Message(Assistant, reply.answer, Stored(reply.sources), reply.files, reply.policy);
      Persist(t, plan, asked) ==
        if plan.editUser.Some? then
          if plan.editAssistant.None? then t else PersistEdited(t, plan.editUser.value, plan.editAssistant.value, asked, user, asst)
        else if plan.regenerate.Some? then PersistRegenerated(t, plan.regenerate.value, asked, asst)
        else PersistNew(t, asked, user, asst, plan.categories)
  {
  }

  lemma FirstKeptOk(t: Thread, row: Row)
    requires RowOk(row)
    ensures row.role == Assistant ==> RowOk(FirstAnswerKept(t, row).(answerHead := Some(|FirstAnswerKept(t, row).answers| - 1)))
    ensures row.role == User ==> RowOk(FirstEditKept(row)) && FirstEditKept(row).editHead.Some?
  {
  }

  lemma RegenerateIs(t: Thread, reply: Reply)
    requires Sound(t) && |t.rows| >= 2
    ensures var n := |t.rows|; var question := t.rows[n - 2];
      RedoneOnce(t, Regenerate(n - 1, reply)) == Replaced(t, question, Answered(t, reply, question.editHead), reply)
  {
    hide PersistRegenerated, PersistEdited, PersistNew, Persist, Answered, Replaced, Hydrate;
    var n := |t.rows|;
    LatestTurn(t.rows);
    assert TurnOk(t.rows[n - 2], t.rows[n - 1]);
    var r := Rewind(t, n - 1).value;
    PersistAsked(t, Plan(Some(n - 1), None, None, r.categories), r.session, r.query, reply);
    PersistRegeneratedIs(t, Asked(r.session, r.query, reply), reply);
  }

  lemma PersistRegeneratedIs(t: Thread, s: Session, reply: Reply)
    requires |t.rows| >= 2 && TurnOk(t.rows[|t.rows| - 2], t.rows[|t.rows| - 1])
    requires LastOf(t.rows, User, |t.rows| - 1) == Some(|t.rows| - 2)
    requires s.lastSources == reply.finalSources && s.lastSearchQuery == reply.searchQuery
    ensures var n := |t.rows|; var question := t.rows[n - 2];
      PersistRegenerated(t, n - 1, s, Message(Assistant, reply.answer, Stored(reply.sources), reply.files, reply.policy))
      == Replaced(t, question, Answered(t, reply, question.editHead), reply)
  {
    var n := |t.rows|;
    FirstKeptOk(t, t.rows[n - 1]);
    assert t.rows[n - 2 := t.rows[n - 2]] == t.rows;
  }

  lemma EditIs(t: Thread, text: string, reply: Reply)
    requires Sound(t) && |t.rows| >= 2
    ensures var n := |t.rows|; var question := Reworded(t.rows[n - 2], text);
      RedoneOnce(t, Edit(n - 2, text, reply)) == Replaced(t, question, Answered(t, reply, question.editHead), reply)
  {
    hide PersistRegenerated, PersistEdited, PersistNew, Persist, Answered, Replaced, Reworded, Hydrate, UserCount, PriorAnswer, ShownAll,
         WithoutPolicies, RowOk, ActiveEdit;
    var n := |t.rows|;
    LatestTurn(t.rows);
    assert TurnOk(t.rows[n - 2], t.rows[n - 1]);
    var (session, categories, answer) := RewindForEdit(t, n - 2).value;
    PersistAsked(t, Plan(None, Some(n - 2), Some(n - 1), categories), session, text, reply);
    PersistEditedIs(t, Asked(session, text, reply), text, reply);
  }

  lemma PersistEditedIs(t: Thread, s: Session, text: string, reply: Reply)
    requires |t.rows| >= 2 && TurnOk(t.rows[|t.rows| - 2], t.rows[|t.rows| - 1])
    requires s.lastSources == reply.finalSources && s.lastSearchQuery == reply.searchQuery
    ensures var n := |t.rows|; var question := Reworded(t.rows[n - 2], text);
      PersistEdited(t, n - 2, n - 1, s, Message(User, text, None, [], None),
                    Message(Assistant, reply.answer, Stored(reply.sources), reply.files, reply.policy))
      == Replaced(t, question, Answered(t, reply, question.editHead), reply)
  {
    var n := |t.rows|;
    FirstKeptOk(t, t.rows[n - 1]);
    FirstKeptOk(t, t.rows[n - 2]);
  }

  lemma OtherPlacesRefused(t: Thread, redo: Redo)
    requires Sound(t) && !Effective(t, redo)
    ensures RedoneOnce(t, redo) == t
  {
    if t.rows != [] {
      LatestTurn(t.rows);
    }
  }

  lemma RewordedOk(row: Row, text: string)
    requires RowOk(row) && row.role == User
    ensures RowOk(Reworded(row, text)) && RowExtends(row, Reworded(row, text))
  {
  }

  lemma AnsweredOk(t: Thread, reply: Reply, userVersion: Option<nat>)
    requires t.rows != [] && RowOk(t.rows[|t.rows| - 1]) && t.rows[|t.rows| - 1].role == Assistant
    ensures RowOk(Answered(t, reply, userVersion)) && RowExtends(t.rows[|t.rows| - 1], Answered(t, reply, userVersion))
  {
  }

  lemma RowsReplacedOk(rows: seq<Row>, question: Row, answer: Row)
    requires RowsOk(rows) && |rows| >= 2 && TurnOk(question, answer)
    ensures RowsOk(rows[|rows| - 2 := question][|rows| - 1 := answer])
  {
    var after := rows[|rows| - 2 := question][|rows| - 1 := answer];
    forall i | 0 <= i < |rows| && i % 2 == 0 ensures TurnOk(after[i], after[i + 1]) {
      assert TurnOk(rows[i], rows[i + 1]);
    }
  }

  lemma ReplacedKeeps(t: Thread, question: Row, answer: Row, reply: Reply)
    requires Sound(t) && |t.rows| >= 2 && TurnOk(question, answer) && answer.answers != []
    requires RowExtends(t.rows[|t.rows| - 2], question) && RowExtends(t.rows[|t.rows| - 1], answer)
    requires var newest := answer.answers[|answer.answers| - 1];
      newest.finalSources == reply.finalSources && newest.searchQuery == reply.searchQuery
    ensures var after := Replaced(t, question, answer, reply); Sound(after) && Versioned(after.rows) && SameButLatest(t, after)
  {
    RowsReplacedOk(t.rows, question, answer);
    var after := Replaced(t, question, answer, reply);
    assert LegacyFirst(after.rows) by {
      forall i, j | 0 <= i < j < |after.rows| && after.rows[j].role == Assistant && after.rows[i].answers != []
        ensures after.rows[j].answers != []
      {
        assert question.answers == [];
      }
    }
  }

  lemma RegenerateKeeps(t: Thread, reply: Reply)
    requires Sound(t) && |t.rows| >= 2
    ensures var after := RedoneOnce(t, Regenerate(|t.rows| - 1, reply)); Sound(after) && SameButLatest(t, after) && Versioned(after.rows)
  {
    var question := t.rows[|t.rows| - 2];
    assert TurnOk(question, t.rows[|t.rows| - 1]);
    RegenerateIs(t, reply);
    AnsweredOk(t, reply, question.editHead);
    ReplacedKeeps(t, question, Answered(t, reply, question.editHead), reply);
  }

  lemma EditKeeps(t: Thread, text: string, reply: Reply)
    requires Sound(t) && |t.rows| >= 2
    ensures var after := RedoneOnce(t, Edit(|t.rows| - 2, text, reply)); Sound(after) && SameButLatest(t, after) && Versioned(after.rows)
  {
    var question := t.rows[|t.rows| - 2];
    assert TurnOk(question, t.rows[|t.rows| - 1]);
    EditIs(t, text, reply);
    RewordedOk(question, text);
    AnsweredOk(t, reply, Reworded(question, text).editHead);
    ReplacedKeeps(t, Reworded(question, text), Answered(t, reply, Reworded(question, text).editHead), reply);
  }

  lemma RedoneOnceKeeps(t: Thread, redo: Redo)
    requires Sound(t)
    ensures var after := RedoneOnce(t, redo);
      Sound(after) && SameButLatest(t, after) && (Versioned(t.rows) ==> Versioned(after.rows))
  {
    if !Effective(t, redo) {
      OtherPlacesRefused(t, redo);
    } else if redo.Regenerate? {
      assert redo == Regenerate(|t.rows| - 1, redo.reply);
      RegenerateKeeps(t, redo.reply);
    } else {
      assert redo == Edit(|t.rows| - 2, redo.text, redo.reply);
      EditKeeps(t, redo.text, redo.reply);
    }
  }

  lemma SameTwice(a: Thread, b: Thread, c: Thread)
    requires SameButLatest(a, b) && SameButLatest(b, c)
    ensures SameButLatest(a, c)
  {
    forall i | 0 <= i < |a.rows| ensures RowExtends(a.rows[i], c.rows[i]) {
      assert RowExtends(a.rows[i], b.rows[i]) && RowExtends(b.rows[i], c.rows[i]);
    }
  }

  lemma {:induction false} RedoneKeeps(t: Thread, redos: seq<Redo>)
    requires Sound(t)
    ensures Sound(Redone(t, redos)) && SameButLatest(t, Redone(t, redos)) && (Versioned(t.rows) ==> Versioned(Redone(t, redos).rows))
  {
    if redos != [] {
      var before := Redone(t, redos[..|redos| - 1]);
      RedoneKeeps(t, redos[..|redos| - 1]);
      RedoneOnceKeeps(before, redos[|redos| - 1]);
      SameTwice(t, before, Redone(t, redos));
    }
  }

  // ---- main results ----

  function WithoutPolicy(s: Session): Session {
    s.(messages := WithoutPolicies(s.messages))
  }

  lemma PriorRowsOk(rows: seq<Row>)
    requires RowsOk(rows) && LegacyFirst(rows) && rows != []
    ensures RowsOk(rows[..|rows| - 2]) && LegacyFirst(rows[..|rows| - 2])
  {
    var prior := rows[..|rows| - 2];
    forall i | 0 <= i < |prior| && i % 2 == 0 ensures TurnOk(prior[i], prior[i + 1]) {
      assert TurnOk(rows[i], rows[i + 1]);
    }
  }

  lemma RewindUnfolds(t: Thread)
    requires |t.rows| >= 2 && LastOf(t.rows, Assistant, |t.rows|) == Some(|t.rows| - 1)
    requires LastOf(t.rows, User, |t.rows| - 1) == Some(|t.rows| - 2)
    ensures var n := |t.rows|; var prior := PriorAnswer(t.rows, n - 2);
      var messages := WithoutPolicies(ShownAll(t.rows[..n - 2]));
      Rewind(t, n - 1) == Ok(Rewound(
        Session(messages, UserCount(messages),
                if prior.Some? then prior.value.finalSources else [],
                if prior.Some? then prior.value.searchQuery else ""),
        if ActiveEdit(t.rows[n - 2]).Some? then ActiveEdit(t.rows[n - 2]).value.content else t.rows[n - 2].content,
        t.rows[n - 2].categories))
  {
  }

  lemma QuestionShown(row: Row)
    requires RowOk(row) && row.role == User
    ensures Shown(row).content == if ActiveEdit(row).Some? then ActiveEdit(row).value.content else row.content
  {
  }

  /** Rewinding a sound thread, in terms of the rows before its latest turn. */
  lemma RewindIs(t: Thread)
    requires Sound(t) && t.rows != []
    ensures var n := |t.rows|; var r := Rewind(t, n - 1); var prior := t.rows[..n - 2];
      && r.Ok?
      && r.value.session.messages == WithoutPolicies(ShownAll(prior))
      && r.value.session.turnIndex == |prior| / 2
      && r.value.query == Shown(t.rows[n - 2]).content
      && r.value.categories == t.rows[n - 2].categories
      && (prior != [] && Versioned(prior) ==>
            var newest := prior[n - 3].answers[|prior[n - 3].answers| - 1];
            r.value.session.lastSources == newest.finalSources && r.value.session.lastSearchQuery == newest.searchQuery)
      && (prior == [] || !Versioned(prior) ==> r.value.session.lastSources == [] && r.value.session.lastSearchQuery == "")
  {
    hide Rewind, PriorAnswer, LastOf, LastAsked, FirstAssistant, UserCount, ShownAll, WithoutPolicies, ActiveEdit, Shown;
    var n := |t.rows|;
    LatestTurn(t.rows);
    PriorRowsOk(t.rows);
    UserCountIs(t.rows[..n - 2]);
    PriorAnswerIs(t.rows, n - 2);
    assert TurnOk(t.rows[n - 2], t.rows[n - 1]);
    QuestionShown(t.rows[n - 2]);
    RewindUnfolds(t);
  }

  lemma RewindForEditIs(t: Thread)
    requires Sound(t) && t.rows != [] && Rewind(t, |t.rows| - 1).Ok?
    ensures var r := Rewind(t, |t.rows| - 1).value;
      RewindForEdit(t, |t.rows| - 2) == Ok((r.session, r.categories, |t.rows| - 1))
  {
    LatestTurn(t.rows);
  }

  /**
   Regeneration rewinds exactly one turn.  Ask a question, then regenerate the answer and edit the
   question any number of times: regenerating (or editing) once more starts from the messages and
   the turn count from before that question, policy snapshots aside, and with the same last
   sources and search query exactly if the answer before it has versions or there were none to
   restore.  The category choice survives exactly if it was not the empty list.
   */
  lemma RewindsOneTurn(t: Thread, text: string, categories: Option<seq<string>>, reply: Reply, redos: seq<Redo>)
    requires Sound(t)
    ensures var now := Redone(NewTurn(t, text, categories, reply), redos); var r := Rewind(now, |t.rows| + 1);
      && r.Ok?
      && r.value.session.messages == WithoutPolicies(Hydrate(t).messages)
      && r.value.session.turnIndex == t.turnIndex
      && (r.value.session == WithoutPolicy(Hydrate(t)) <==> Versioned(t.rows) || (t.lastSources == [] && t.lastSearchQuery == ""))
      && r.value.query == Hydrate(now).messages[|t.rows|].content
      && (r.value.categories == categories <==> categories != Some([]))
      && RewindForEdit(now, |t.rows|) == Ok((r.value.session, r.value.categories, |t.rows| + 1))
  {
    var once := NewTurn(t, text, categories, reply);
    var now := Redone(once, redos);
    NewTurnKeeps(t, text, categories, reply);
    RedoneKeeps(once, redos);
    RewindIs(now);
    RewindForEditIs(now);
    var n := |t.rows|;
    assert now.rows[..n] == t.rows by {
      forall i | 0 <= i < n ensures now.rows[i] == t.rows[i] {
        assert once.rows[i] == once.rows[..n][i];
      }
    }
    assert RowExtends(once.rows[n], now.rows[n]);
  }

  predicate ShowsReply(m: Message, reply: Reply, original: Option<seq<Source>>) {
    && m.(sources := None) == Message(Assistant, reply.answer, None, reply.files, reply.policy)
    && (m.sources == Stored(reply.sources) <==> reply.sources != [] || original.None?)
  }

  lemma AnsweredShows(t: Thread, reply: Reply, userVersion: Option<nat>)
    requires t.rows != [] && RowOk(t.rows[|t.rows| - 1]) && t.rows[|t.rows| - 1].role == Assistant
    ensures ShowsReply(Shown(Answered(t, reply, userVersion)), reply, t.rows[|t.rows| - 1].sources)
  {
  }

  lemma RewordedShows(row: Row, text: string)
    requires RowOk(row) && row.role == User
    ensures Shown(Reworded(row, text)) == Shown(row).(content := text)
  {
  }

  /**
   A latest turn done over shows as if the turn had gone that way at once, except that an answer
   without sources shows those of the message it stands for.
   */
  lemma RegenerationReplacesAnswer(t: Thread, reply: Reply)
    requires Sound(t) && |t.rows| >= 2
    ensures |Hydrate(RedoneOnce(t, Regenerate(|t.rows| - 1, reply))).messages| == |t.rows|
    ensures var n := |t.rows|; var before := Hydrate(t); var after := Hydrate(RedoneOnce(t, Regenerate(n - 1, reply)));
      && after.messages[..n - 1] == before.messages[..n - 1]
      && ShowsReply(after.messages[n - 1], reply, t.rows[n - 1].sources)
      && after == Session(after.messages, before.turnIndex, reply.finalSources, reply.searchQuery)
  {
    hide RedoneOnce, Rewind;
    RegenerateIs(t, reply);
    assert TurnOk(t.rows[|t.rows| - 2], t.rows[|t.rows| - 1]);
    AnsweredShows(t, reply, t.rows[|t.rows| - 2].editHead);
  }

  lemma EditReplacesTurn(t: Thread, text: string, reply: Reply)
    requires Sound(t) && |t.rows| >= 2
    ensures |Hydrate(RedoneOnce(t, Edit(|t.rows| - 2, text, reply))).messages| == |t.rows|
    ensures var n := |t.rows|; var before := Hydrate(t); var after := Hydrate(RedoneOnce(t, Edit(n - 2, text, reply)));
      && after.messages[..n - 2] == before.messages[..n - 2]
      && after.messages[n - 2] == before.messages[n - 2].(content := text)
      && ShowsReply(after.messages[n - 1], reply, t.rows[n - 1].sources)
      && after == Session(after.messages, before.turnIndex, reply.finalSources, reply.searchQuery)
  {
    hide RedoneOnce, Rewind;
    EditIs(t, text, reply);
    assert TurnOk(t.rows[|t.rows| - 2], t.rows[|t.rows| - 1]);
    RewordedShows(t.rows[|t.rows| - 2], text);
    AnsweredShows(t, reply, Reworded(t.rows[|t.rows| - 2], text).editHead);
  }

  datatype Turn = Turn(text: string, categories: Option<seq<string>>, reply: Reply, redos: seq<Redo>)

  /** A conversation from its creation on. */
  function Conversed(turns: seq<Turn>): Thread {
    if turns == [] then NewThread
    else
      var turn := turns[|turns| - 1];
      Redone(NewTurn(Conversed(turns[..|turns| - 1]), turn.text, turn.categories, turn.reply), turn.redos)
  }

  lemma OneMoreTurn(before: Thread, turn: Turn)
    requires Sound(before) && Versioned(before.rows)
    ensures var after := Redone(NewTurn(before, turn.text, turn.categories, turn.reply), turn.redos);
      var r := Rewind(after, |before.rows| + 1);
      && Sound(after) && Versioned(after.rows) && |after.rows| == |before.rows| + 2
      && r.Ok? && r.value.session == WithoutPolicy(Hydrate(before))
  {
    NewTurnKeeps(before, turn.text, turn.categories, turn.reply);
    RedoneKeeps(NewTurn(before, turn.text, turn.categories, turn.reply), turn.redos);
    RewindsOneTurn(before, turn.text, turn.categories, turn.reply, turn.redos);
  }

  lemma NothingSaid()
    ensures Sound(Conversed([])) && Versioned(Conversed([]).rows) && Conversed([]).rows == []
  {
  }

  /** In a conversation without legacy messages the whole session is restored, at every turn. */
  lemma {:induction false} WholeConversationRewinds(turns: seq<Turn>)
    ensures Sound(Conversed(turns)) && Versioned(Conversed(turns).rows) && |Conversed(turns).rows| == 2 * |turns|
    ensures turns != [] ==>
              var r := Rewind(Conversed(turns), 2 * |turns| - 1);
              r.Ok? && r.value.session == WithoutPolicy(Hydrate(Conversed(turns[..|turns| - 1])))
  {
    hide Sound, Versioned, Rewind, Hydrate, WithoutPolicy, NewTurn, Redone;
    if turns == [] {
      NothingSaid();
    } else {
      var earlier, turn := turns[..|turns| - 1], turns[|turns| - 1];
      WholeConversationRewinds(earlier);
      OneMoreTurn(Conversed(earlier), turn);
    }
  }

  /** A turn on a conversation whose only answer so far has no versions: rewinding forgets its sources. */
  lemma LegacySourcesAreForgotten(text: string, reply: Reply)
    ensures var question := Row(User, "q", None, [], [], None, [], None, None);
      var answer := Row(Assistant, "a", None, [], [], None, [], None, None);
      var legacy := Thread([question, answer], 1, ["s"], "q");
      && Sound(legacy) && Rewind(NewTurn(legacy, text, None, reply), 3).Ok?
      && Rewind(NewTurn(legacy, text, None, reply), 3).value.session.lastSources != Hydrate(legacy).lastSources
  {
    var question := Row(User, "q", None, [], [], None, [], None, None);
    var answer := Row(Assistant, "a", None, [], [], None, [], None, None);
    var legacy := Thread([question, answer], 1, ["s"], "q");
    assert TurnOk(legacy.rows[0], legacy.rows[1]);
    NewTurnKeeps(legacy, text, None, reply);
    var next := NewTurn(legacy, text, None, reply);
    RewindIs(next);
    assert next.rows[..2] == legacy.rows;
  }
}
