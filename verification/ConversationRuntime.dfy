/** The conversation runtime: the statements of each transaction, one after the other. */
module ConversationRuntime {
  import opened Prelude
  import opened ConversationThread
  import opened ConversationRewind

  datatype Command = Ask(text: string, categories: Option<seq<string>>, reply: Reply) | Again(redo: Redo)

  class Conversation {
    var rows: seq<Row>
    var turnIndex: nat
    var lastSources: seq<Source>
    var lastSearchQuery: string

    constructor ()
      ensures View() == NewThread
    {
      rows, turnIndex, lastSources, lastSearchQuery := [], 0, [], "";
    }

    function View(): Thread
      reads this
    {
      Thread(rows, turnIndex, lastSources, lastSearchQuery)
    }

    method HydrateSession() returns (s: Session)
      ensures s == Hydrate(View())
    {
      var messages: seq<Message> := [];
      for i := 0 to |rows|
        invariant messages == ShownAll(rows[..i])
      {
        messages := messages + [Shown(rows[i])];
      }
      assert rows[..|rows|] == rows;
      return Session(messages, turnIndex, lastSources, lastSearchQuery);
    }

    method PrepareRegeneration(answer: nat) returns (r: Result<Rewound, Refusal>)
      ensures r == Rewind(View(), answer)
    {
      var a := LastOf(rows, Assistant, |rows|);
      if a.None? || a.value != answer {
        return Err(OnlyLatestAnswer);
      }
      var u := LastOf(rows, User, answer);
      if u.None? {
        return Err(OnlyLatestAnswer);
      }
      var messages: seq<Message> := [];
      for i := 0 to u.value
        invariant messages == WithoutPolicies(ShownAll(rows[..i]))
      {
        messages := messages + [Shown(rows[i]).(policy := None)];
      }
      var s := Session(messages, UserCount(messages), [], "");
      var prior := PriorAnswer(rows, u.value);
      if prior.Some? {
        s := s.(lastSources := prior.value.finalSources, lastSearchQuery := prior.value.searchQuery);
      }
      var row := rows[u.value];
      var query := if ActiveEdit(row).Some? then ActiveEdit(row).value.content else row.content;
      return Ok(Rewound(s, query, row.categories));
    }

    method PrepareUserEdit(question: nat) returns (r: Result<(Session, Option<seq<string>>, nat), Refusal>)
      ensures r == RewindForEdit(View(), question)
    {
      var u := LastAsked(rows, |rows|);
      if u.None? || u.value != question {
        return Err(OnlyLatestQuestion);
      }
      var answer := FirstAssistant(rows, question).value;
      var rewound := PrepareRegeneration(answer);
      match rewound
      case Ok(v) => return Ok((v.session, v.categories, answer));
      case Err(refusal) => return Err(refusal);
    }

    /** An answer from before versions were kept becomes version 1. */
    method KeepFirstAnswer(a: nat)
      requires a < |rows|
      modifies this`rows
      ensures rows == old(rows)[a := FirstAnswerKept(old(View()), old(rows)[a])]
    {
      if rows[a].answers == [] {
        var version := AnswerVersion(1, rows[a].content, rows[a].sources, [], None, lastSources, lastSearchQuery, None);
        rows := rows[a := rows[a].(answers := [version])];
      }
    }

    method InsertAnswer(a: nat, s: Session, asst: Message, userVersion: Option<nat>) returns (place: nat)
      requires a < |rows|
      modifies this`rows
      ensures place == |old(rows)[a].answers|
      ensures rows == old(rows)[a := old(rows)[a].(answers := old(rows)[a].answers + [NextAnswer(old(rows)[a], s, asst, userVersion)])]
    {
      place := |rows[a].answers|;
      rows := rows[a := rows[a].(answers := rows[a].answers + [NextAnswer(rows[a], s, asst, userVersion)])];
    }

    /** The wording a question had so far becomes version 1 when it is first edited. */
    method InsertEdit(u: nat, text: string) returns (place: nat)
      requires u < |rows|
      modifies this`rows
      ensures var kept := FirstEditKept(old(rows)[u]);
        && place == |kept.edits|
        && rows == old(rows)[u := kept.(edits := kept.edits + [UserVersion(MaxIndex(EditIndices(kept.edits)) + 1, text)])]
    {
      if rows[u].edits == [] {
        rows := rows[u := rows[u].(edits := [UserVersion(1, rows[u].content)], editHead := Some(0))];
      }
      place := |rows[u].edits|;
      var next := MaxIndex(EditIndices(rows[u].edits)) + 1;
      rows := rows[u := rows[u].(edits := rows[u].edits + [UserVersion(next, text)])];
    }

    method StoreNewTurn(s: Session, user: Message, asst: Message, categories: Option<seq<string>>)
      modifies this
      ensures View() == PersistNew(old(View()), s, user, asst, categories)
    {
      rows := rows + [Row(User, user.content, None, [], [], None, [], None, None)];
      var u := |rows| - 1;
      rows := rows + [Row(Assistant, asst.content, asst.sources, asst.files, [], None, [], None, None)];
      var a := |rows| - 1;
      var place := InsertAnswer(a, s, asst, None);
      rows := rows[a := rows[a].(answerHead := Some(place))];
      rows := rows[u := rows[u].(categories := if categories.Some? then Stored(categories.value) else None)];
      turnIndex, lastSources, lastSearchQuery := s.turnIndex, s.lastSources, s.lastSearchQuery;
      ghost var after := PersistNew(old(View()), s, user, asst, categories).rows;
      assert rows[a].answers == after[a].answers;
      assert rows == after;
    }

    method StoreRegeneration(a: nat, s: Session, asst: Message)
      modifies this
      ensures View() == PersistRegenerated(old(View()), a, s, asst)
    {
      if a >= |rows| || rows[a].role != Assistant {
        return;
      }
      KeepFirstAnswer(a);
      var u := LastOf(rows, User, a);
      SameLast(old(rows), rows, a);
      var place := InsertAnswer(a, s, asst, if u.Some? then rows[u.value].editHead else None);
      rows := rows[a := rows[a].(answerHead := Some(place))];
      lastSources, lastSearchQuery := s.lastSources, s.lastSearchQuery;
    }

    method StoreEdit(u: nat, a: nat, s: Session, user: Message, asst: Message)
      modifies this
      ensures View() == PersistEdited(old(View()), u, a, s, user, asst)
    {
      if u >= |rows| || rows[u].role != User || a >= |rows| || rows[a].role != Assistant {
        return;
      }
      var edit := InsertEdit(u, user.content);
      var headed := rows[a].answers == [] || rows[a].answerHead.Some?;
      KeepFirstAnswer(a);
      var place := InsertAnswer(a, s, asst, Some(edit));
      if rows[u].editHead.Some? {
        rows := rows[u := rows[u].(editHead := Some(edit))];
      }
      if headed {
        rows := rows[a := rows[a].(answerHead := Some(place))];
      }
      lastSources, lastSearchQuery := s.lastSources, s.lastSearchQuery;
    }

    method PersistTurn(plan: Plan, s: Session)
      modifies this
      ensures View() == Persist(old(View()), plan, s)
    {
      var n := |s.messages|;
      if n < 2 {
        return;
      }
      var user, asst := s.messages[n - 2], s.messages[n - 1];
      if user.role != User || asst.role != Assistant {
        return;
      }
      if plan.editUser.Some? {
        if plan.editAssistant.Some? {
          StoreEdit(plan.editUser.value, plan.editAssistant.value, s, user, asst);
        }
      } else if plan.regenerate.Some? {
        StoreRegeneration(plan.regenerate.value, s, asst);
      } else {
        StoreNewTurn(s, user, asst, plan.categories);
      }
    }

    /** One request under the conversation's lock. */
    method Handle(c: Command)
      requires Sound(View())
      modifies this
      ensures Sound(View())
      ensures View() == match c
                        case Ask(text, categories, reply) => NewTurn(old(View()), text, categories, reply)
                        case Again(redo) => RedoneOnce(old(View()), redo)
    {
      match c
      case Ask(text, categories, reply) =>
        NewTurnKeeps(View(), text, categories, reply);
        var s := HydrateSession();
        PersistTurn(Plan(None, None, None, categories), Asked(s, text, reply));
      case Again(redo) =>
        RedoneOnceKeeps(View(), redo);
        match redo {
          case Lost =>
          case Regenerate(place, reply) =>
            var r := PrepareRegeneration(place);
            if r.Ok? {
              PersistTurn(Plan(Some(place), None, None, r.value.categories), Asked(r.value.session, r.value.query, reply));
            }
          case Edit(place, text, reply) =>
            var r := PrepareUserEdit(place);
            if r.Ok? {
              var (session, categories, answer) := r.value;
              PersistTurn(Plan(None, Some(place), Some(answer), categories), Asked(session, text, reply));
            }
        }
    }
  }

  lemma {:induction false} SameLast(before: seq<Row>, after: seq<Row>, n: nat)
    requires n <= |before| == |after| && forall i | 0 <= i < n :: before[i].role == after[i].role
    ensures LastOf(before, User, n) == LastOf(after, User, n)
  {
    if n > 0 {
      SameLast(before, after, n - 1);
    }
  }
}
