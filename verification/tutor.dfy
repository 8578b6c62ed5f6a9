/** The tutor's conversation state (backend/app/services/ai_tutor_service.py): one message
    list per user, the messages sent with each question, and the default lookups for
    learning styles and depth levels. The chat completion is outside the model; its
    outcome enters as a `Result<string>`. */
module Tutor {
  import opened Wrappers
  import opened Strings

  datatype Role = System | User | Assistant

  datatype Message = Message(role: Role, content: string)

  /** `conversation_history`: user id to stored messages. */
  type Histories = map<int, seq<Message>>

  /** The messages stored for `userId`, none when the user has no entry. */
  function HistoryOf(histories: Histories, userId: int): seq<Message>
  {
    if userId in histories then histories[userId] else []
  }

  // ---------------------------------------------------------------------------
  // Default lookups

  const StyleInstructions: map<string, string> := map[
    "visual" := "Use visual descriptions, analogies, and suggest diagrams. Structure information hierarchically.",
    "auditory" := "Use conversational tone, explain things step-by-step verbally, use rhythm in explanations.",
    "kinesthetic" := "Focus on practical examples, hands-on applications, and real-world scenarios.",
    "reading" := "Provide detailed written explanations, definitions, and written examples."
  ]

  const DepthInstructions: map<string, string> := map[
    "beginner" := "Explain in simple terms, assume no prior knowledge",
    "intermediate" := "Provide moderate detail with some technical terms",
    "advanced" := "Use technical terminology and dive deep into nuances"
  ]

  const StylePreferences: map<string, string> := map[
    "visual" := "videos, infographics, diagrams",
    "auditory" := "podcasts, audiobooks, lectures",
    "kinesthetic" := "interactive simulations, labs, hands-on projects",
    "reading" := "textbooks, articles, written tutorials"
  ]

  const VariousFormats: string := "various formats"

  /** `style_instructions.get(learning_style, style_instructions["visual"])`. */
  function StyleInstruction(style: string): (instruction: string)
    ensures instruction in StyleInstructions.Values
    ensures style in StyleInstructions ==> instruction == StyleInstructions[style]
    ensures style !in StyleInstructions ==> instruction == StyleInstructions["visual"]
  {
    if style in StyleInstructions then StyleInstructions[style] else StyleInstructions["visual"]
  }

  /** `depth_instructions.get(depth_level, depth_instructions["intermediate"])`. */
  function DepthInstruction(depth: string): (instruction: string)
    ensures instruction in DepthInstructions.Values
    ensures depth in DepthInstructions ==> instruction == DepthInstructions[depth]
    ensures depth !in DepthInstructions ==> instruction == DepthInstructions["intermediate"]
  {
    if depth in DepthInstructions then DepthInstructions[depth] else DepthInstructions["intermediate"]
  }

  /** `style_preferences.get(learning_style, "various formats")`: the fallback is not one of
      the listed preferences, so it shows exactly when the style is unknown. */
  function PreferredFormats(style: string): (formats: string)
    ensures formats == VariousFormats <==> style !in StylePreferences
    ensures style in StylePreferences ==> formats == StylePreferences[style]
  {
    if style in StylePreferences then StylePreferences[style] else VariousFormats
  }

  /** The four learning styles are the only keys, and every other style reads like "visual"
      in the tutor prompt and gets the generic formats in resource recommendations. */
  lemma UnknownStyleReadsAsVisual(style: string)
    requires style != "visual" && style != "auditory" && style != "kinesthetic" && style != "reading"
    ensures StyleInstruction(style) == StyleInstruction("visual")
    ensures PreferredFormats(style) == VariousFormats
  {
  }

  /** The three depth levels are the only keys, and every other level reads like "intermediate". */
  lemma UnknownDepthReadsAsIntermediate(depth: string)
    requires depth != "beginner" && depth != "intermediate" && depth != "advanced"
    ensures DepthInstruction(depth) == DepthInstruction("intermediate")
  {
  }

  // ---------------------------------------------------------------------------
  // Outgoing messages

  const PromptOpening: string := "You are a patient, encouraging AI tutor "
  const PromptApproach: string := ".\n        \nTeaching approach:\n- "
  const PromptClosing: string :=
    "\n- Break down complex topics into manageable chunks"
    + "\n- Use the Socratic method when appropriate"
    + "\n- Encourage critical thinking"
    + "\n- Provide examples and analogies"
    + "\n- Check for understanding"
    + "\n- Be supportive and encouraging"
    + "\n\nRemember: You're helping the student learn, not just giving answers."
  const SpecializingIn: string := "specializing in "
  const ReferenceMaterial: string := "Reference material:\n"

  /** The number of stored messages sent along with a question. */
  const WindowSize: nat := 10

  /** Python truthiness of an optional string: present and non-empty. */
  predicate Given(s: Option<string>)
  {
    s.Some? && s.value != ""
  }

  /** `system_prompt`: the subject, when given, after "specializing in", and the style's
      instruction as the first teaching bullet. */
  function SystemPrompt(style: string, subject: Option<string>): (p: string)
    ensures StartsWith(p, PromptOpening)
    ensures Given(subject) ==> OccursAt(p, SpecializingIn + subject.value, |PromptOpening|)
    ensures !Given(subject) ==> OccursAt(p, PromptApproach + StyleInstruction(style), |PromptOpening|)
    ensures Contains(p, StyleInstruction(style))
    ensures |p| >= |PromptClosing| && p[|p| - |PromptClosing|..] == PromptClosing
  {
    var subjectContext := if Given(subject) then SpecializingIn + subject.value else "";
    FiveParts(PromptOpening, subjectContext, PromptApproach, StyleInstruction(style), PromptClosing);
    PromptOpening + subjectContext + PromptApproach + StyleInstruction(style) + PromptClosing
  }

  /** Where each of five concatenated parts lies in the whole. */
  lemma FiveParts(a: string, b: string, c: string, d: string, e: string)
    ensures var p := a + b + c + d + e;
            && StartsWith(p, a)
            && OccursAt(p, b, |a|)
            && OccursAt(p, c + d, |a| + |b|)
            && OccursAt(p, d, |a| + |b| + |c|)
            && Contains(p, d)
            && p[|p| - |e|..] == e
  {
    var p := a + b + c + d + e;
    assert p[..|a|] == a;
    assert p[|a|..|a| + |b|] == b;
    assert p[|a| + |b|..|a| + |b| + |c| + |d|] == c + d;
    assert p[|a| + |b| + |c|..|a| + |b| + |c| + |d|] == d;
    assert OccursAt(p, d, |a| + |b| + |c|);
    assert p[|p| - |e|..] == e;
  }

  /** `conversation_history[user_id][-10:]`. */
  function Window(history: seq<Message>): (w: seq<Message>)
    ensures |w| == Min(WindowSize, |history|)
    ensures w == history[|history| - |w|..]
  {
    if |history| <= WindowSize then history else history[|history| - WindowSize..]
  }

  /** The messages sent with a question: the system prompt, the reference material when
      some is given, the last ten stored messages, and the question. */
  function OutgoingMessages(history: seq<Message>, question: string, context: Option<string>,
                            style: string, subject: Option<string>): (msgs: seq<Message>)
    ensures var extra := if Given(context) then 1 else 0;
            && |msgs| == 2 + extra + Min(WindowSize, |history|)
            && msgs[0] == Message(System, SystemPrompt(style, subject))
            && (Given(context) ==> msgs[1] == Message(System, ReferenceMaterial + context.value))
            && msgs[1 + extra..|msgs| - 1] == history[|history| - Min(WindowSize, |history|)..]
            && msgs[|msgs| - 1] == Message(User, question)
  {
    var head := [Message(System, SystemPrompt(style, subject))];
    var reference := if Given(context) then [Message(System, ReferenceMaterial + context.value)] else [];
    head + reference + Window(history) + [Message(User, question)]
  }

  // ---------------------------------------------------------------------------
  // Asking and clearing

  /** The state change of a question: the user's entry is created before the completion
      call and so exists even when the call fails; the question and the answer are stored
      only after a successful call. */
  function RecordExchange(histories: Histories, userId: int, question: string, reply: Result<string>): (r: Histories)
    ensures userId in r
    ensures reply.Ok? ==>
              r[userId] == HistoryOf(histories, userId) + [Message(User, question), Message(Assistant, reply.value)]
    ensures reply.Err? ==> r[userId] == HistoryOf(histories, userId)
    ensures forall u :: u != userId ==> (u in r <==> u in histories)
    ensures forall u :: u != userId && u in histories ==> r[u] == histories[u]
  {
    var history := HistoryOf(histories, userId);
    match reply
    case Ok(answer) => histories[userId := history + [Message(User, question), Message(Assistant, answer)]]
    case Err(_) => histories[userId := history]
  }

  /** The state after a question, the messages sent for it, and what the caller receives:
      the answer, or the completion's error passed on. */
  datatype TutorReply = TutorReply(histories: Histories, request: seq<Message>, answer: Result<string>)

  /** `get_tutor_response`, with the completion's outcome as `reply`: the request is built
      from the history as it was before the question, and the caller gets the completion's
      answer or its error. */
  function GetTutorResponse(histories: Histories, userId: int, question: string, context: Option<string>,
                            style: string, subject: Option<string>, reply: Result<string>): (r: TutorReply)
    ensures r.request == OutgoingMessages(HistoryOf(histories, userId), question, context, style, subject)
    ensures r.answer == reply
    ensures r.histories == RecordExchange(histories, userId, question, reply)
  {
    TutorReply(RecordExchange(histories, userId, question, reply),
               OutgoingMessages(HistoryOf(histories, userId), question, context, style, subject),
               reply)
  }

  /** `clear_conversation_history`: only this user's entry goes, if there is one. */
  function ClearConversationHistory(histories: Histories, userId: int): (r: Histories)
    ensures userId !in r
    ensures forall u :: u != userId ==> (u in r <==> u in histories)
    ensures forall u :: u != userId && u in histories ==> r[u] == histories[u]
  {
    histories - {userId}
  }

  /** Clearing twice is clearing once, and clearing a user without history changes nothing. */
  lemma ClearIdempotent(histories: Histories, userId: int)
    ensures ClearConversationHistory(ClearConversationHistory(histories, userId), userId)
            == ClearConversationHistory(histories, userId)
    ensures userId !in histories ==> ClearConversationHistory(histories, userId) == histories
  {
  }

  // ---------------------------------------------------------------------------
  // Histories over a sequence of requests

  datatype Event =
    | Ask(userId: int, question: string, context: Option<string>, style: string, subject: Option<string>, reply: Result<string>)
    | ClearHistory(userId: int)

  function Step(histories: Histories, e: Event): Histories
  {
    match e
    case Ask(u, q, _, _, _, reply) => RecordExchange(histories, u, q, reply)
    case ClearHistory(u) => ClearConversationHistory(histories, u)
  }

  /** The state of a fresh service after `events`, in order. */
  function Replay(events: seq<Event>): Histories
  {
    if |events| == 0 then map[] else Step(Replay(events[..|events| - 1]), events[|events| - 1])
  }

  /** Successful questions of `userId` since the last time the history was cleared. */
  function AnsweredSinceClear(events: seq<Event>, userId: int): nat
  {
    if |events| == 0 then 0
    else
      var e := events[|events| - 1];
      var before := AnsweredSinceClear(events[..|events| - 1], userId);
      if e.userId != userId then before
      else if e.ClearHistory? then 0
      else if e.reply.Ok? then before + 1
      else before
  }

  /** Stored history is never trimmed: it holds two messages per answered question since the
      last clear. */
  lemma {:induction false} HistoryLength(events: seq<Event>, userId: int)
    ensures |HistoryOf(Replay(events), userId)| == 2 * AnsweredSinceClear(events, userId)
  {
    if |events| > 0 {
      HistoryLength(events[..|events| - 1], userId);
    }
  }

  /** A history is a run of exchanges: a question followed by its answer. */
  predicate Exchanges(history: seq<Message>)
  {
    && |history| % 2 == 0
    && (forall i :: 0 <= i < |history| ==> history[i].role == (if i % 2 == 0 then User else Assistant))
  }

  /** Every stored history consists of whole exchanges. */
  lemma {:induction false} HistoriesAreExchanges(events: seq<Event>, userId: int)
    ensures Exchanges(HistoryOf(Replay(events), userId))
  {
    if |events| > 0 {
      var before := Replay(events[..|events| - 1]);
      HistoriesAreExchanges(events[..|events| - 1], userId);
      var e := events[|events| - 1];
      if e.Ask? && e.userId == userId && e.reply.Ok? {
        var h := HistoryOf(before, userId);
        var h' := h + [Message(User, e.question), Message(Assistant, e.reply.value)];
        assert HistoryOf(Replay(events), userId) == h';
        forall i | 0 <= i < |h'|
          ensures h'[i].role == (if i % 2 == 0 then User else Assistant)
        {
          if i < |h| {
            assert h'[i] == h[i];
          }
        }
      }
    }
  }

  /** The window of a history of whole exchanges starts with a question: the ten messages
      sent are the last five exchanges, or all of them. */
  lemma WindowIsExchanges(history: seq<Message>)
    requires Exchanges(history)
    ensures Exchanges(Window(history))
  {
    var w := Window(history);
    var d := |history| - |w|;
    assert d % 2 == 0;
    forall i | 0 <= i < |w|
      ensures w[i].role == (if i % 2 == 0 then User else Assistant)
    {
      assert w[i] == history[d + i];
      assert (d + i) % 2 == i % 2;
    }
  }

  /** The requests of a user as seen by that user alone. */
  function EventsOf(events: seq<Event>, userId: int): (mine: seq<Event>)
    ensures forall i :: 0 <= i < |mine| ==> mine[i].userId == userId
  {
    if |events| == 0 then []
    else
      var e := events[|events| - 1];
      EventsOf(events[..|events| - 1], userId) + (if e.userId == userId then [e] else [])
  }

  /** A user's history depends only on that user's own requests. */
  lemma {:induction false} HistoriesAreIsolated(events: seq<Event>, userId: int)
    ensures HistoryOf(Replay(events), userId) == HistoryOf(Replay(EventsOf(events, userId)), userId)
    ensures userId in Replay(events) <==> userId in Replay(EventsOf(events, userId))
  {
    if |events| > 0 {
      var m := |events| - 1;
      var e := events[m];
      HistoriesAreIsolated(events[..m], userId);
      var before := Replay(events[..m]);
      var mine := EventsOf(events[..m], userId);
      assert Replay(events) == Step(before, e);
      if e.userId == userId {
        var mine' := mine + [e];
        assert EventsOf(events, userId) == mine';
        assert mine'[..|mine|] == mine;
        assert Replay(mine') == Step(Replay(mine), e);
        assert HistoryOf(before, userId) == HistoryOf(Replay(mine), userId);
      } else {
        assert EventsOf(events, userId) == mine;
        assert userId in Step(before, e) <==> userId in before;
        assert HistoryOf(Step(before, e), userId) == HistoryOf(before, userId);
      }
    }
  }
}
