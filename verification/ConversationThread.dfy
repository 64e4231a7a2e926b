/**
 A conversation as its rows record it: messages are never rewritten, versions of questions and
 answers are only added, and heads say which versions are shown.
 */
module ConversationThread {
  import opened Prelude

  type Source = string
  type File = string
  type Policy = string

  datatype Role = User | Assistant

  datatype AnswerVersion = AnswerVersion(
    index: nat, content: string, sources: Option<seq<Source>>, files: seq<File>, policy: Option<Policy>,
    finalSources: seq<Source>, searchQuery: string, userVersion: Option<nat>)

  datatype UserVersion = UserVersion(index: nat, content: string)

  /**
   A message with the versions that refer to it.  Heads name versions by their place in the order
   of insertion.  `categories` is the stored turn request of a user message.
   */
  datatype Row = Row(
    role: Role, content: string, sources: Option<seq<Source>>, files: seq<File>,
    answers: seq<AnswerVersion>, answerHead: Option<nat>,
    edits: seq<UserVersion>, editHead: Option<nat>, categories: Option<seq<string>>)

  datatype Thread = Thread(rows: seq<Row>, turnIndex: nat, lastSources: seq<Source>, lastSearchQuery: string)

  datatype Message = Message(role: Role, content: string, sources: Option<seq<Source>>, files: seq<File>, policy: Option<Policy>)

  datatype Session = Session(messages: seq<Message>, turnIndex: nat, lastSources: seq<Source>, lastSearchQuery: string)

  /** What one turn of the chat session produces. */
  datatype Reply = Reply(
    answer: string, sources: seq<Source>, files: seq<File>, policy: Option<Policy>,
    finalSources: seq<Source>, searchQuery: string)

  const NewThread := Thread([], 0, [], "")

  /** Empty lists are stored as NULL. */
  function Stored<T(==)>(list: seq<T>): Option<seq<T>> {
    if list == [] then None else Some(list)
  }

  function OrElse<T>(x: Option<T>, y: Option<T>): Option<T> {
    if x.Some? then x else y
  }

  // ---- reading ----

  function ActiveAnswer(row: Row): Option<AnswerVersion> {
    if row.answerHead.Some? && row.answerHead.value < |row.answers| then Some(row.answers[row.answerHead.value]) else None
  }

  function ActiveEdit(row: Row): Option<UserVersion> {
    if row.editHead.Some? && row.editHead.value < |row.edits| then Some(row.edits[row.editHead.value]) else None
  }

  /** One row of list_messages. */
  function Shown(row: Row): Message {
    var v, uv := ActiveAnswer(row), ActiveEdit(row);
    Message(
      row.role,
      if uv.Some? then uv.value.content else if v.Some? then v.value.content else row.content,
      if v.Some? then OrElse(v.value.sources, row.sources) else row.sources,
      if v.Some? then v.value.files else row.files,
      if v.Some? then v.value.policy else None)
  }

  function ShownAll(rows: seq<Row>): (r: seq<Message>)
    ensures |r| == |rows|
  {
    seq(|rows|, i requires 0 <= i < |rows| => Shown(rows[i]))
  }

  function Hydrate(t: Thread): Session {
    Session(ShownAll(t.rows), t.turnIndex, t.lastSources, t.lastSearchQuery)
  }

  function WithoutPolicies(messages: seq<Message>): (r: seq<Message>)
    ensures |r| == |messages|
  {
    seq(|messages|, i requires 0 <= i < |messages| => messages[i].(policy := None))
  }

  /** The place of the last row of a role among the first `n`. */
  function LastOf(rows: seq<Row>, role: Role, n: nat): (r: Option<nat>)
    requires n <= |rows|
    ensures r.Some? ==> r.value < n && rows[r.value].role == role
  {
    if n == 0 then None
    else if rows[n - 1].role == role then Some(n - 1)
    else LastOf(rows, role, n - 1)
  }

  function PriorAnswer(rows: seq<Row>, n: nat): Option<AnswerVersion>
    requires n <= |rows|
  {
    if n == 0 then None
    else if rows[n - 1].role == Assistant && ActiveAnswer(rows[n - 1]).Some? then ActiveAnswer(rows[n - 1])
    else PriorAnswer(rows, n - 1)
  }

  function UserCount(messages: seq<Message>): nat {
    if messages == [] then 0
    else UserCount(messages[..|messages| - 1]) + if messages[|messages| - 1].role == User then 1 else 0
  }

  datatype Rewound = Rewound(session: Session, query: string, categories: Option<seq<string>>)
  datatype Refusal = OnlyLatestAnswer | OnlyLatestQuestion

  /** `prepare_regeneration`: the conversation just before its latest turn. */
  function Rewind(t: Thread, answer: nat): Result<Rewound, Refusal> {
    var a := LastOf(t.rows, Assistant, |t.rows|);
    if a.None? || a.value != answer then Err(OnlyLatestAnswer)
    else
      var u := LastOf(t.rows, User, answer);
      if u.None? then Err(OnlyLatestAnswer)
      else
        var row := t.rows[u.value];
        var messages := WithoutPolicies(ShownAll(t.rows[..u.value]));
        var prior := PriorAnswer(t.rows, u.value);
        Ok(Rewound(
             Session(messages, UserCount(messages),
                     if prior.Some? then prior.value.finalSources else [],
                     if prior.Some? then prior.value.searchQuery else ""),
             if ActiveEdit(row).Some? then ActiveEdit(row).value.content else row.content,
             row.categories))
  }

  function FirstAssistant(rows: seq<Row>, n: nat): (r: Option<nat>)
    requires n <= |rows|
    ensures r.Some? ==> n <= r.value < |rows| && rows[r.value].role == Assistant
    decreases |rows| - n
  {
    if n == |rows| then None
    else if rows[n].role == Assistant then Some(n)
    else FirstAssistant(rows, n + 1)
  }

  /** The newest user row that an assistant row follows. */
  function LastAsked(rows: seq<Row>, n: nat): (r: Option<nat>)
    requires n <= |rows|
    ensures r.Some? ==> r.value < n && rows[r.value].role == User && FirstAssistant(rows, r.value).Some?
  {
    if n == 0 then None
    else if rows[n - 1].role == User && FirstAssistant(rows, n - 1).Some? then Some(n - 1)
    else LastAsked(rows, n - 1)
  }

  /** `prepare_user_edit`: the same, found from the question; also the place of its answer. */
  function RewindForEdit(t: Thread, question: nat): Result<(Session, Option<seq<string>>, nat), Refusal> {
    var u := LastAsked(t.rows, |t.rows|);
    if u.None? || u.value != question then Err(OnlyLatestQuestion)
    else
      var answer := FirstAssistant(t.rows, question).value;
      match Rewind(t, answer)
      case Ok(rewound) => Ok((rewound.session, rewound.categories, answer))
      case Err(refusal) => Err(refusal)
  }

  // ---- writing ----

  function MaxIndex(indices: seq<nat>): (r: nat)
    ensures (forall i | 0 <= i < |indices| :: indices[i] == i + 1) ==> r == |indices|
  {
    if indices == [] then 0
    else
      var n := |indices| - 1;
      var rest := MaxIndex(indices[..n]);
      if indices[n] > rest then indices[n] else rest
  }

  function AnswerIndices(answers: seq<AnswerVersion>): seq<nat> {
    seq(|answers|, i requires 0 <= i < |answers| => answers[i].index)
  }

  function EditIndices(edits: seq<UserVersion>): seq<nat> {
    seq(|edits|, i requires 0 <= i < |edits| => edits[i].index)
  }

  /** An answer from before versions were kept is saved as version 1 first. */
  function FirstAnswerKept(t: Thread, row: Row): Row {
    if row.answers == []
    then row.(answers := [AnswerVersion(1, row.content, row.sources, [], None, t.lastSources, t.lastSearchQuery, None)])
    else row
  }

  function NextAnswer(row: Row, s: Session, asst: Message, userVersion: Option<nat>): AnswerVersion {
    AnswerVersion(MaxIndex(AnswerIndices(row.answers)) + 1, asst.content, asst.sources, asst.files, asst.policy,
                  s.lastSources, s.lastSearchQuery, userVersion)
  }

  function FirstEditKept(row: Row): Row {
    if row.edits == [] then row.(edits := [UserVersion(1, row.content)], editHead := Some(0)) else row
  }

  datatype Plan = Plan(regenerate: Option<nat>, editUser: Option<nat>, editAssistant: Option<nat>, categories: Option<seq<string>>)

  function PersistNew(t: Thread, s: Session, user: Message, asst: Message, categories: Option<seq<string>>): Thread {
    var version := AnswerVersion(1, asst.content, asst.sources, asst.files, asst.policy, s.lastSources, s.lastSearchQuery, None);
    var request := if categories.Some? then Stored(categories.value) else None;
    Thread(t.rows + [Row(User, user.content, None, [], [], None, [], None, request),
                     Row(Assistant, asst.content, asst.sources, asst.files, [version], Some(0), [], None, None)],
           s.turnIndex, s.lastSources, s.lastSearchQuery)
  }

  function PersistRegenerated(t: Thread, a: nat, s: Session, asst: Message): Thread {
    if a >= |t.rows| || t.rows[a].role != Assistant then t
    else
      var row := FirstAnswerKept(t, t.rows[a]);
      var u := LastOf(t.rows, User, a);
      var version := NextAnswer(row, s, asst, if u.Some? then t.rows[u.value].editHead else None);
      t.(rows := t.rows[a := row.(answers := row.answers + [version], answerHead := Some(|row.answers|))],
         lastSources := s.lastSources, lastSearchQuery := s.lastSearchQuery)
  }

  function PersistEdited(t: Thread, u: nat, a: nat, s: Session, user: Message, asst: Message): Thread {
    if u >= |t.rows| || t.rows[u].role != User || a >= |t.rows| || t.rows[a].role != Assistant then t
    else
      var question := FirstEditKept(t.rows[u]);
      var edit := UserVersion(MaxIndex(EditIndices(question.edits)) + 1, user.content);
      var row := FirstAnswerKept(t, t.rows[a]);
      var head := if t.rows[a].answers == [] || row.answerHead.Some? then Some(|row.answers|) else None;
      var version := NextAnswer(row, s, asst, Some(|question.edits|));
      t.(rows := t.rows[u := question.(edits := question.edits + [edit],
                                       editHead := if question.editHead.Some? then Some(|question.edits|) else None)]
                       [a := row.(answers := row.answers + [version], answerHead := head)],
         lastSources := s.lastSources, lastSearchQuery := s.lastSearchQuery)
  }

  /** `persist_turn`: store the pair of messages that the session ends with. */
  function Persist(t: Thread, plan: Plan, s: Session): Thread {
    var n := |s.messages|;
    if n < 2 || s.messages[n - 2].role != User || s.messages[n - 1].role != Assistant then t
    else
      var user, asst := s.messages[n - 2], s.messages[n - 1];
      if plan.editUser.Some? then
        if plan.editAssistant.None? then t else PersistEdited(t, plan.editUser.value, plan.editAssistant.value, s, user, asst)
      else if plan.regenerate.Some? then PersistRegenerated(t, plan.regenerate.value, s, asst)
      else PersistNew(t, s, user, asst, plan.categories)
  }

  // ---- turns ----

  /** The contract of a chat session: one turn adds a question and an answer. */
  function Asked(s: Session, text: string, reply: Reply): Session {
    Session(s.messages + [Message(User, text, None, [], None),
                          Message(Assistant, reply.answer, Stored(reply.sources), reply.files, reply.policy)],
            s.turnIndex + 1, reply.finalSources, reply.searchQuery)
  }

  function NewTurn(t: Thread, text: string, categories: Option<seq<string>>, reply: Reply): Thread {
    Persist(t, Plan(None, None, None, categories), Asked(Hydrate(t), text, reply))
  }

  /** A turn done over: the latest answer generated again, the latest question edited, or a turn lost before it was stored. */
  datatype Redo = Regenerate(place: nat, reply: Reply) | Edit(place: nat, text: string, reply: Reply) | Lost

  function RedoneOnce(t: Thread, redo: Redo): Thread {
    match redo
    case Lost => t
    case Regenerate(place, reply) =>
      (match Rewind(t, place)
       case Ok(r) => Persist(t, Plan(Some(place), None, None, r.categories), Asked(r.session, r.query, reply))
       case Err(_) => t)
    case Edit(place, text, reply) =>
      (match RewindForEdit(t, place)
       case Ok((session, categories, answer)) =>
         Persist(t, Plan(None, Some(place), Some(answer), categories), Asked(session, text, reply))
       case Err(_) => t)
  }

  function Redone(t: Thread, redos: seq<Redo>): Thread {
    if redos == [] then t else RedoneOnce(Redone(t, redos[..|redos| - 1]), redos[|redos| - 1])
  }
}
