/** The conversation session and one turn of process_question: classify the
    question, record the intent, route to a project, ask the QnA service,
    record the reply and append the exchange to the history. An exception at
    any step ends the turn and keeps every write made before it. */
module Session {
  import opened Text
  import opened Router

  /** One history entry, `{"role": ..., "content": ...}`. */
  datatype Message = Message(role: string, content: string)

  const UserRole: string := "Usuario"
  const AssistantRole: string := "Asistente"

  /** The reply recorded when the QnA service returns no answer. */
  const NoAnswerReply: string := "No se encontró una respuesta relevante."

  /** The `intent_data` record: top intent and the entities as returned. */
  datatype IntentData = IntentData(intent: string, entities: seq<Entity>)

  /** The intent shown before the first question is processed. */
  const WaitingIntent: string := "Esperando entrada..."

  /** What the conversation-analysis call produces for one question: an
      exception (service, credential or malformed-response failure) or the
      top intent with the entities in the order the service gave them. */
  datatype Classification = ClassifyFail | Classified(topIntent: string, entities: seq<Entity>)

  /** What the question-answering call produces: an exception, or the
      answers in rank order (possibly none). */
  datatype QaResponse = QaFail | Answers(answers: seq<string>)

  /** Where a turn ended. `Errored` is the `st.error` report of line 118. */
  datatype FailurePoint = ClassificationFailed | CategoryKeyError | QaFailed
  datatype TurnOutcome = Recorded | Errored(at: FailurePoint)

  /** The projects offered by the example-question buttons (the keys of the
      example-question table). */
  const ExampleProjects: set<string> := {CrewAi, LangGraph}

  /** Line 111: the top answer, or the fixed fallback when there is none. */
  function Reply(answers: seq<string>): (r: string)
    ensures answers != [] ==> r == answers[0]
    ensures answers == [] ==> r == NoAnswerReply
  {
    if answers != [] then answers[0] else NoAnswerReply
  }

  /** The history entries one successful turn appends, in order. */
  function Exchange(question: string, reply: string): (m: seq<Message>)
    ensures |m| == 2
    ensures m[0].role == UserRole && m[0].content == question
    ensures m[1].role == AssistantRole && m[1].content == reply
  {
    [Message(UserRole, question), Message(AssistantRole, reply)]
  }

  class ChatSession {
    var selectedProject: string
    var conversationHistory: seq<Message>
    var intentData: IntentData
    var qnaReply: string

    /** The selected project is always a configured project. */
    ghost predicate Valid()
      reads this
    {
      selectedProject in ProjectNames
    }

    /** Session initialisation: first configured project, empty history,
        the waiting intent and an empty reply. */
    constructor ()
      ensures Valid()
      ensures selectedProject == ProjectNames[0]
      ensures conversationHistory == []
      ensures intentData == IntentData(WaitingIntent, [])
      ensures qnaReply == ""
    {
      selectedProject := ProjectNames[0];
      conversationHistory := [];
      intentData := IntentData(WaitingIntent, []);
      qnaReply := "";
    }

    /** One turn. `nlu` stands for the conversation-analysis call on the
        question and `qa` for the QnA call on the question and the project
        it is sent to. */
    method ProcessQuestion(question: string, nlu: string -> Classification, qa: (string, string) -> QaResponse)
      returns (outcome: TurnOutcome)
      requires Valid()
      modifies this
      ensures Valid()
      // The history only ever grows at its end.
      ensures old(conversationHistory) <= conversationHistory
      // Classification fails: nothing changes.
      ensures nlu(question).ClassifyFail? ==>
        outcome == Errored(ClassificationFailed)
        && selectedProject == old(selectedProject) && intentData == old(intentData)
        && qnaReply == old(qnaReply) && conversationHistory == old(conversationHistory)
      // Otherwise the intent is recorded first, whatever happens next.
      ensures nlu(question).Classified? ==>
        intentData == IntentData(nlu(question).topIntent, nlu(question).entities)
      // An examined entity has no category: only the intent changed.
      ensures nlu(question).Classified? && Route(old(selectedProject), nlu(question).entities).CategoryMissing? ==>
        outcome == Errored(CategoryKeyError)
        && selectedProject == old(selectedProject)
        && qnaReply == old(qnaReply) && conversationHistory == old(conversationHistory)
      // Routing succeeded: the routed project is selected and is the one asked.
      ensures nlu(question).Classified? && Route(old(selectedProject), nlu(question).entities).Routed? ==>
        selectedProject == Route(old(selectedProject), nlu(question).entities).project
        && (qa(question, selectedProject).QaFail? ==>
              outcome == Errored(QaFailed)
              && qnaReply == old(qnaReply) && conversationHistory == old(conversationHistory))
        && (qa(question, selectedProject).Answers? ==>
              outcome == Recorded
              && qnaReply == Reply(qa(question, selectedProject).answers)
              && conversationHistory == old(conversationHistory) + Exchange(question, qnaReply))
    {
      var lu := nlu(question);
      if lu.ClassifyFail? {
        return Errored(ClassificationFailed);
      }
      intentData := IntentData(lu.topIntent, lu.entities);

      var routed := RouteScan(selectedProject, lu.entities);
      if routed.CategoryMissing? {
        return Errored(CategoryKeyError);
      }
      RouteStaysConfigured(selectedProject, lu.entities);
      selectedProject := routed.project;

      var response := qa(question, selectedProject);
      if response.QaFail? {
        return Errored(QaFailed);
      }
      var reply := Reply(response.answers);
      qnaReply := reply;

      conversationHistory := conversationHistory + [Message(UserRole, question)];
      conversationHistory := conversationHistory + [Message(AssistantRole, reply)];
      return Recorded;
    }

    /** An example-question button: select the button's project, then run the
        turn on its question (which may route elsewhere). */
    method ClickExample(project: string, question: string, nlu: string -> Classification, qa: (string, string) -> QaResponse)
      returns (outcome: TurnOutcome)
      requires Valid()
      requires project in ExampleProjects
      modifies this
      ensures Valid()
      ensures old(conversationHistory) <= conversationHistory
      // The button's project is selected before the turn runs.
      ensures nlu(question).ClassifyFail? ==>
        outcome == Errored(ClassificationFailed)
        && selectedProject == project && intentData == old(intentData)
        && qnaReply == old(qnaReply) && conversationHistory == old(conversationHistory)
      ensures nlu(question).Classified? ==>
        intentData == IntentData(nlu(question).topIntent, nlu(question).entities)
      ensures nlu(question).Classified? && Route(project, nlu(question).entities).CategoryMissing? ==>
        outcome == Errored(CategoryKeyError)
        && selectedProject == project
        && qnaReply == old(qnaReply) && conversationHistory == old(conversationHistory)
      ensures nlu(question).Classified? && Route(project, nlu(question).entities).Routed? ==>
        selectedProject == Route(project, nlu(question).entities).project
        && (qa(question, selectedProject).QaFail? ==>
              outcome == Errored(QaFailed)
              && qnaReply == old(qnaReply) && conversationHistory == old(conversationHistory))
        && (qa(question, selectedProject).Answers? ==>
              outcome == Recorded
              && qnaReply == Reply(qa(question, selectedProject).answers)
              && conversationHistory == old(conversationHistory) + Exchange(question, qnaReply))
    {
      selectedProject := project;
      outcome := ProcessQuestion(question, nlu, qa);
    }
  }
}
