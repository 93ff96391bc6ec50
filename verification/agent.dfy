/** The agent of app/agent.py: the retrieval decision, the tool dispatch
    and the control flow of `process_query`. The chat model is a function
    from message lists to a reply or an error, and the retriever (the
    vector-store search behind `retrieve_context`) a function from the
    query to the chunks found or an error. */
module Agent {
  import opened Wrappers
  import opened PyStrings
  import opened Records
  import opened LlmProviders
  import opened RagEngine
  import opened SessionMemory
  import opened Prompts

  // ---------------------------------------------------------------------
  // _should_use_rag

  /** `_should_use_rag` given the model's reply to the decision prompt:
      search when the trimmed, upper-cased reply mentions SEARCH, and also
      when the model failed. */
  function ShouldUseRag(reply: Result<string>): (use: bool)
    ensures reply.Failure? ==> use
  {
    match reply
    case Failure(_) => true
    case Success(r) => Contains(Upper(Strip(r)), "SEARCH")
  }

  lemma UpperSlice(s: string, lo: nat, hi: nat)
    requires lo <= hi <= |s|
    ensures Upper(s[lo..hi]) == Upper(s)[lo..hi]
  {
  }

  /** A character whose upper case is a letter is not whitespace. */
  lemma LetterNotSpace(c: char)
    requires 'A' <= UpperChar(c) <= 'Z'
    ensures !IsSpace(c)
  {
  }

  /** The characters of an occurrence of SEARCH in the upper-cased reply
      are letters of the reply, not whitespace. */
  lemma SearchIsVisible(r: string, j: int)
    requires OccursAt(Upper(r), "SEARCH", j)
    ensures forall k :: j <= k < j + 6 ==> !IsSpace(r[k])
  {
    forall k | j <= k < j + 6 ensures !IsSpace(r[k]) {
      assert Upper(r)[k] == Upper(r)[j..j + 6][k - j];
      LetterNotSpace(r[k]);
    }
  }

  /** An occurrence in the trimmed reply is one in the whole reply,
      shifted by the whitespace trimmed off the front. */
  lemma OccursInStripped(r: string, i: int)
    requires OccursAt(Upper(Strip(r)), "SEARCH", i)
    ensures OccursAt(Upper(r), "SEARCH", StripSpan(r, 0, |r|).lo + i)
  {
    var sp := StripSpan(r, 0, |r|);
    var u := Upper(r);
    UpperSlice(r, sp.lo, sp.hi);
    assert Upper(Strip(r)) == u[sp.lo..sp.hi];
    OccursInSlice(u, "SEARCH", sp.lo, sp.hi, i);
  }

  /** Characters that are not whitespace lie inside the trimmed span. */
  lemma VisibleInside(r: string, i: int, k: int)
    requires 0 <= i <= k < |r| && !IsSpace(r[i]) && !IsSpace(r[k])
    ensures StripSpan(r, 0, |r|).lo <= i && k < StripSpan(r, 0, |r|).hi
  {
    StripSpanCuts(r, 0, |r|);
  }

  /** An occurrence in the whole reply lies inside the trimmed reply. */
  lemma OccursInWhole(r: string, j: int)
    requires OccursAt(Upper(r), "SEARCH", j)
    ensures OccursAt(Upper(Strip(r)), "SEARCH", j - StripSpan(r, 0, |r|).lo)
  {
    var sp := StripSpan(r, 0, |r|);
    var u := Upper(r);
    SearchIsVisible(r, j);
    VisibleInside(r, j, j + 5);
    UpperSlice(r, sp.lo, sp.hi);
    assert Upper(Strip(r)) == u[sp.lo..sp.hi];
    OccursInSlice(u, "SEARCH", sp.lo, sp.hi, j - sp.lo);
  }

  /** Trimming does not matter: the decision is to search exactly when
      SEARCH occurs, in any letter case, anywhere in the reply. */
  lemma ShouldUseRagIff(r: string)
    ensures ShouldUseRag(Success(r)) <==> Contains(Upper(r), "SEARCH")
  {
    if Contains(Upper(Strip(r)), "SEARCH") {
      var i :| OccursAt(Upper(Strip(r)), "SEARCH", i);
      OccursInStripped(r, i);
    }
    if Contains(Upper(r), "SEARCH") {
      var j :| OccursAt(Upper(r), "SEARCH", j);
      OccursInWhole(r, j);
    }
  }

  // ---------------------------------------------------------------------
  // _execute_tool

  const SearchTool: string := "search_documents"

  /** What a tool call returns: the retrieval result for the search tool,
      an error entry for any other name. */
  datatype ToolOutcome =
    | SearchOutcome(context: string, sources: seq<string>, chunksFound: nat)
    | UnknownTool(error: string)

  /** `arguments.get("query", "")`. */
  function QueryArg(args: map<string, string>): string {
    if "query" in args then args["query"] else ""
  }

  /** `_execute_tool`: the search tool retrieves chunks for the query and
      returns their formatted context, their sources and their number; an
      error of the retriever propagates. */
  function ExecuteTool(name: string, args: map<string, string>,
                       retrieve: string -> Result<seq<Doc>>): (r: Result<ToolOutcome>)
    ensures name != SearchTool ==> r == Success(UnknownTool("Unknown tool: " + name))
    ensures name == SearchTool ==> (r.Success? <==> retrieve(QueryArg(args)).Success?)
    ensures name == SearchTool && r.Success? ==>
              var chunks := retrieve(QueryArg(args)).value;
              r.value == SearchOutcome(FormatContext(chunks), GetSources(chunks), |chunks|)
  {
    if name == SearchTool then
      var chunks :- retrieve(QueryArg(args));
      Success(SearchOutcome(FormatContext(chunks), GetSources(chunks), |chunks|))
    else
      Success(UnknownTool("Unknown tool: " + name))
  }

  /** Any other tool name does no retrieval: the result does not depend
      on the retriever. */
  lemma UnknownToolNoRetrieval(name: string, args: map<string, string>,
                               r1: string -> Result<seq<Doc>>, r2: string -> Result<seq<Doc>>)
    requires name != SearchTool
    ensures ExecuteTool(name, args, r1) == ExecuteTool(name, args, r2)
  {
  }

  // ---------------------------------------------------------------------
  // process_query

  /** How many of the latest history entries the model sees. */
  const RecentTurns: nat := 10

  /** `history[-10:]`. */
  function Recent(h: seq<Turn>): (r: seq<Turn>)
    ensures |r| == if |h| < RecentTurns then |h| else RecentTurns
    ensures r == h[|h| - |r|..]
  {
    Slice(h, -(RecentTurns as int), |h|)
  }

  /** The messages of a call end with the history, then the prompt. */
  predicate HistoryThenPrompt(sent: seq<Message>, recent: seq<Turn>) {
    var ms := HistoryMessages(recent);
    |sent| >= |ms| + 1 && sent[|sent| - 1 - |ms|..|sent| - 1] == ms
  }

  lemma ContainsItself(s: string)
    ensures Contains(s, s)
  {
    assert s[0..|s|] == s;
    assert OccursAt(s, s, 0);
  }

  /** The question is inside the prompt that carries the context. */
  lemma ContextPromptHasQuery(t: Texts, context: string, query: string)
    ensures Contains(ContextPrompt(t, context, query), query)
  {
    var pre := t.contextHead + context + t.questionHead;
    assert ContextPrompt(t, context, query) == pre + query + t.contextTail;
    assert (pre + query + t.contextTail)[|pre|..|pre| + |query|] == query;
    assert OccursAt(ContextPrompt(t, context, query), query, |pre|);
  }

  /** The system message of the answering call: the direct one without
      retrieval (`None`), the notice that nothing was found, or the one
      asking to answer from the context. */
  function CallSystem(t: Texts, found: Option<seq<Doc>>): (system: string)
    ensures found.None? ==> system == t.directSystem
    ensures found.Some? && |found.value| == 0 ==> system == t.noDocumentsSystem
    ensures found.Some? && |found.value| > 0 ==> system == t.contextSystem
  {
    match found
    case None => t.directSystem
    case Some(chunks) => if |chunks| == 0 then t.noDocumentsSystem else t.contextSystem
  }

  /** The prompt of the answering call: the bare question, or the context
      prompt when chunks were found. Either way it holds the question. */
  function CallPrompt(t: Texts, query: string, found: Option<seq<Doc>>): (p: string)
    ensures Contains(p, query)
    ensures found.Some? && |found.value| > 0 ==> p == ContextPrompt(t, FormatContext(found.value), query)
    ensures !(found.Some? && |found.value| > 0) ==> p == query
  {
    if found.Some? && |found.value| > 0 then
      ContextPromptHasQuery(t, FormatContext(found.value), query);
      ContextPrompt(t, FormatContext(found.value), query)
    else
      ContainsItself(query);
      query
  }

  /** Any call of `generate_response` ends with the history, then the
      prompt, after the system message when there is one. */
  lemma BuildShape(prompt: string, system: string, recent: seq<Turn>)
    ensures var ms := BuildMessages(prompt, system, recent);
            HistoryThenPrompt(ms, recent)
            && |ms| <= CountSpoken(recent) + 2
            && (ms[0].SystemMessage? <==> |ms| == CountSpoken(recent) + 2)
  {
  }

  /** The messages of the answering call. In every case the model sees
      the latest history, then a human message holding the question. */
  function CallMessages(t: Texts, query: string, recent: seq<Turn>, found: Option<seq<Doc>>): (ms: seq<Message>)
    ensures HistoryThenPrompt(ms, recent)
    ensures |ms| <= CountSpoken(recent) + 2
    ensures ms[0].SystemMessage? <==> |ms| == CountSpoken(recent) + 2
    ensures ms[0].SystemMessage? <==> CallSystem(t, found) != ""
    ensures CallSystem(t, found) != "" ==> ms[0] == SystemMessage(CallSystem(t, found))
    ensures ms[|ms| - 1] == HumanMessage(CallPrompt(t, query, found))
  {
    BuildShape(CallPrompt(t, query, found), CallSystem(t, found), recent);
    BuildMessages(CallPrompt(t, query, found), CallSystem(t, found), recent)
  }

  /** With the texts of agent.py every answering call starts with its
      system message. */
  lemma AgentCallHasSystem(query: string, recent: seq<Turn>, found: Option<seq<Doc>>)
    ensures CallMessages(AgentTexts, query, recent, found)[0].SystemMessage?
  {
    AgentSystemsGiven();
    assert CallSystem(AgentTexts, found) != "";
  }

  /** The answer and the messages of the answering call. */
  datatype Answered = Answered(answer: string, sources: seq<string>, sent: seq<Message>)

  /** The messages of the answering call once the decision is taken:
      without retrieval the direct call, with retrieval the call built from
      the chunks found (so only when the retriever returned). */
  function AnswerCall(t: Texts, query: string, useRag: bool, recent: seq<Turn>,
                      retrieve: string -> Result<seq<Doc>>): (ms: seq<Message>)
    requires useRag ==> retrieve(query).Success?
    ensures ms == CallMessages(t, query, recent, if useRag then Some(retrieve(query).value) else None)
  {
    CallMessages(t, query, recent, if useRag then Some(retrieve(query).value) else None)
  }

  /** The `try` block of `process_query` up to the model's answer: with
      retrieval, an error of the retriever propagates, and the chunks found
      give the sources; an error of the model propagates. */
  function Answer(t: Texts, query: string, useRag: bool, recent: seq<Turn>,
                  llm: seq<Message> -> Result<string>, retrieve: string -> Result<seq<Doc>>): (r: Result<Answered>)
    ensures r.Success? <==>
              (useRag ==> retrieve(query).Success?) && llm(AnswerCall(t, query, useRag, recent, retrieve)).Success?
    ensures r.Success? ==>
              r.value.sent == AnswerCall(t, query, useRag, recent, retrieve)
              && llm(r.value.sent) == Success(r.value.answer)
    ensures r.Success? && useRag ==> r.value.sources == GetSources(retrieve(query).value)
    ensures r.Success? && !useRag ==> r.value.sources == []
  {
    if useRag then
      var chunks :- retrieve(query);
      var msgs := CallMessages(t, query, recent, Some(chunks));
      var answer :- llm(msgs);
      Success(Answered(answer, GetSources(chunks), msgs))
    else
      var msgs := CallMessages(t, query, recent, None);
      var answer :- llm(msgs);
      Success(Answered(answer, [], msgs))
  }

  /** Without retrieval the retriever is never consulted. */
  lemma DirectNoRetrieval(t: Texts, query: string, recent: seq<Turn>, llm: seq<Message> -> Result<string>,
                          r1: string -> Result<seq<Doc>>, r2: string -> Result<seq<Doc>>)
    ensures Answer(t, query, false, recent, llm, r1) == Answer(t, query, false, recent, llm, r2)
  {
  }

  /** The dictionary `process_query` returns. */
  datatype QueryReply = QueryReply(answer: string, sources: seq<string>, sessionId: string,
                                   usedRag: bool, error: Option<string>)

  /** The sessions afterwards, the reply, and the messages of the
      answering call when it returned. */
  datatype Outcome = Outcome(sessions: Sessions, reply: QueryReply, sent: seq<Message>)

  /** The decision call: its system message, then the decision prompt,
      with no history. */
  function DecisionCall(t: Texts, query: string): (ms: seq<Message>)
    ensures ms == (if t.decisionSystem != "" then [SystemMessage(t.decisionSystem)] else [])
                  + [HumanMessage(DecisionPrompt(t, query))]
  {
    BuildMessages(DecisionPrompt(t, query), t.decisionSystem, [])
  }

  /** The model's decision on retrieval for a query: search when the
      decision call fails, or when its reply mentions SEARCH in any letter
      case. */
  function Decide(t: Texts, query: string, llm: seq<Message> -> Result<string>): (use: bool)
    ensures use <==> llm(DecisionCall(t, query)).Failure?
                     || Contains(Upper(llm(DecisionCall(t, query)).value), "SEARCH")
  {
    var reply := llm(DecisionCall(t, query));
    if reply.Success? then
      ShouldUseRagIff(reply.value);
      ShouldUseRag(reply)
    else
      ShouldUseRag(reply)
  }

  /** Adding a turn to a session that exists replaces that session's
      history and changes nothing else. */
  lemma AddToKnown(m: Sessions, id: string, role: string, content: string, stamp: string,
                   now: int, newId: string, maxHistory: int)
    requires id in m
    ensures var r := AddMessage(m, id, role, content, stamp, now, newId, maxHistory);
            r.ok && r.sessions == m[id := m[id].(history := Truncate(m[id].history + [Turn(role, content, stamp)], maxHistory))]
  {
  }

  /** The last two entries of a suffix of `p + [a]` that is at least two
      long. */
  lemma SuffixLastTwo(p: seq<Turn>, a: Turn, t: seq<Turn>)
    requires 2 <= |t| <= |p| + 1 && t == (p + [a])[|p| + 1 - |t|..]
    ensures t[|t| - 2] == p[|p| - 1] && t[|t| - 1] == a
  {
    assert t[|t| - 2] == (p + [a])[|p| - 1];
  }


  /** The history of the session `get_or_create_session` opens: the
      stored one when a known id is given, and empty otherwise. */
  function Opening(m: Sessions, sid: Option<string>): seq<Turn> {
    if Given(sid) && sid.value in m then m[sid.value].history else []
  }

  /** The session's history once the user's turn is recorded. */
  function Asked(m: Sessions, query: string, sid: Option<string>, userStamp: string, maxHistory: int): seq<Turn> {
    Truncate(Opening(m, sid) + [Turn("user", query, userStamp)], maxHistory)
  }

  /** The first steps of `process_query`: open the session and record
      the user's turn. */
  function Begin(m: Sessions, query: string, sid: Option<string>, newId: string, now: int,
                 userStamp: string, maxHistory: int): (b: Opened)
    ensures b.id == GetOrCreateSession(m, sid, newId, now).id
    ensures b.sessions.Keys == m.Keys + {b.id}
    ensures forall k :: k in m && k != b.id ==> b.sessions[k] == m[k]
    ensures b.sessions[b.id].history == Truncate(Opening(m, sid) + [Turn("user", query, userStamp)], maxHistory)
  {
    var op := GetOrCreateSession(m, sid, newId, now);
    AddToKnown(op.sessions, op.id, "user", query, userStamp, now, newId, maxHistory);
    Opened(AddMessage(op.sessions, op.id, "user", query, userStamp, now, newId, maxHistory).sessions, op.id)
  }

  /** With a limit that is not negative, the opened session ends with the
      user's turn. */
  lemma BeginEndsWithUser(m: Sessions, query: string, sid: Option<string>, newId: string, now: int,
                          userStamp: string, maxHistory: int)
    requires maxHistory >= 0
    ensures var b := Begin(m, query, sid, newId, now, userStamp, maxHistory);
            var h := b.sessions[b.id].history;
            |h| >= 1 && h[|h| - 1] == Turn("user", query, userStamp)
  {
    var op := GetOrCreateSession(m, sid, newId, now);
    AddToKnown(op.sessions, op.id, "user", query, userStamp, now, newId, maxHistory);
    TruncateEndsWith(op.sessions[op.id].history, Turn("user", query, userStamp), maxHistory);
  }

  /** The last steps of `process_query`: an answer is recorded in the
      session and returned with its sources; an error yields the apology
      and leaves the sessions as they were. */
  function Record(t: Texts, m: Sessions, id: string, answered: Result<Answered>, useRag: bool,
                  answerStamp: string, now: int, newId: string, maxHistory: int): (o: Outcome)
    requires id in m
    ensures o.reply.sessionId == id
    ensures o.reply.error.None? <==> answered.Success?
    ensures answered.Failure? ==>
              o.sessions == m && o.sent == []
              && o.reply == QueryReply(t.errorAnswer, [], id, false, Some(answered.error))
    ensures answered.Success? ==>
              o.sent == answered.value.sent
              && o.reply == QueryReply(answered.value.answer, answered.value.sources, id, useRag, None)
    ensures o.sessions.Keys == m.Keys
    ensures forall k :: k in m && k != id ==> o.sessions[k] == m[k]
    ensures answered.Success? ==>
              o.sessions[id] == m[id].(history := Truncate(m[id].history + [Turn("assistant", answered.value.answer, answerStamp)],
                                                           maxHistory))
  {
    match answered
    case Success(a) =>
      AddToKnown(m, id, "assistant", a.answer, answerStamp, now, newId, maxHistory);
      var m2 := AddMessage(m, id, "assistant", a.answer, answerStamp, now, newId, maxHistory).sessions;
      Outcome(m2, QueryReply(a.answer, a.sources, id, useRag, None), a.sent)
    case Failure(e) =>
      Outcome(m, QueryReply(t.errorAnswer, [], id, false, Some(e)), [])
  }

  /** A truncated history with one more entry keeps the previous last
      entry before the new one, given a limit that is not negative. */
  lemma TruncateKeepsLastTwo(h: seq<Turn>, a: Turn, maxHistory: int)
    requires maxHistory >= 0 && |h| >= 1
    ensures var t := Truncate(h + [a], maxHistory);
            |t| >= 2 && t[|t| - 2] == h[|h| - 1] && t[|t| - 1] == a
  {
    var x := h + [a];
    var t := Truncate(x, maxHistory);
    TruncateKeepsRecent(x, maxHistory);
    assert |x| == |h| + 1 && |t| >= 2;
    SuffixLastTwo(h, a, t);
  }

  /** A recorded answer follows the entry that ended the history. */
  lemma RecordEndsWithAnswer(t: Texts, m: Sessions, id: string, answered: Result<Answered>, useRag: bool,
                             answerStamp: string, now: int, newId: string, maxHistory: int)
    requires id in m && maxHistory >= 0 && |m[id].history| >= 1 && answered.Success?
    ensures |Record(t, m, id, answered, useRag, answerStamp, now, newId, maxHistory).sessions[id].history| >= 2
    ensures Record(t, m, id, answered, useRag, answerStamp, now, newId, maxHistory).sessions[id].history[
              |Record(t, m, id, answered, useRag, answerStamp, now, newId, maxHistory).sessions[id].history| - 2]
            == m[id].history[|m[id].history| - 1]
    ensures Record(t, m, id, answered, useRag, answerStamp, now, newId, maxHistory).sessions[id].history[
              |Record(t, m, id, answered, useRag, answerStamp, now, newId, maxHistory).sessions[id].history| - 1]
            == Turn("assistant", answered.value.answer, answerStamp)
  {
    AddToKnown(m, id, "assistant", answered.value.answer, answerStamp, now, newId, maxHistory);
    TruncateKeepsLastTwo(m[id].history, Turn("assistant", answered.value.answer, answerStamp), maxHistory);
  }

  /** `process_query`: open the session, record the user's turn, decide
      whether to search, answer with the latest history, record the answer.
      An error of the retriever or of the answering call yields the
      apology with no sources, and nothing more is recorded. */
  function ProcessQuery(t: Texts, m: Sessions, query: string, sid: Option<string>, newId: string, now: int,
                        userStamp: string, answerStamp: string, maxHistory: int,
                        llm: seq<Message> -> Result<string>, retrieve: string -> Result<seq<Doc>>): (o: Outcome)
    ensures o.reply.sessionId == GetOrCreateSession(m, sid, newId, now).id
    ensures o.reply.error.Some? ==> o.reply.answer == t.errorAnswer && o.reply.sources == [] && !o.reply.usedRag
    ensures o.reply.error.None? <==>
              (Decide(t, query, llm) ==> retrieve(query).Success?)
              && llm(AnswerCall(t, query, Decide(t, query, llm), Recent(Asked(m, query, sid, userStamp, maxHistory)),
                                retrieve)).Success?
    ensures o.reply.error.None? ==>
              o.sent == AnswerCall(t, query, Decide(t, query, llm), Recent(Asked(m, query, sid, userStamp, maxHistory)),
                                   retrieve)
              && llm(o.sent) == Success(o.reply.answer)
              && o.reply.usedRag == Decide(t, query, llm)
    ensures o.reply.error.None? && Decide(t, query, llm) ==> o.reply.sources == GetSources(retrieve(query).value)
    ensures o.reply.error.None? && !Decide(t, query, llm) ==> o.reply.sources == []
  {
    var b := Begin(m, query, sid, newId, now, userStamp, maxHistory);
    var useRag := Decide(t, query, llm);
    var answered := Answer(t, query, useRag, Recent(GetHistory(b.sessions, b.id)), llm, retrieve);
    Record(t, b.sessions, b.id, answered, useRag, answerStamp, now, newId, maxHistory)
  }

  /** What the session holds afterwards: the history with the user's turn,
      followed by the answer when the reply carries no error. Nothing
      older is dropped or reordered beyond the truncation. */
  lemma ProcessQueryHistory(t: Texts, m: Sessions, query: string, sid: Option<string>, newId: string, now: int,
                            userStamp: string, answerStamp: string, maxHistory: int,
                            llm: seq<Message> -> Result<string>, retrieve: string -> Result<seq<Doc>>)
    ensures var o := ProcessQuery(t, m, query, sid, newId, now, userStamp, answerStamp, maxHistory, llm, retrieve);
            GetHistory(o.sessions, o.reply.sessionId)
            == if o.reply.error.None?
               then Truncate(Asked(m, query, sid, userStamp, maxHistory) + [Turn("assistant", o.reply.answer, answerStamp)],
                             maxHistory)
               else Asked(m, query, sid, userStamp, maxHistory)
  {
  }

  /** A query touches only its own session: the id is added and every
      other session is as before. */
  lemma ProcessQueryOthersUntouched(t: Texts, m: Sessions, query: string, sid: Option<string>, newId: string, now: int,
                                    userStamp: string, answerStamp: string, maxHistory: int,
                                    llm: seq<Message> -> Result<string>, retrieve: string -> Result<seq<Doc>>)
    ensures var o := ProcessQuery(t, m, query, sid, newId, now, userStamp, answerStamp, maxHistory, llm, retrieve);
            o.sessions.Keys == m.Keys + {o.reply.sessionId}
            && forall k :: k in m && k != o.reply.sessionId ==> o.sessions[k] == m[k]
  {
  }

  /** The history ends with the user's turn, followed by the answer when
      the reply carries no error. */
  predicate EndsWithExchange(h: seq<Turn>, user: Turn, reply: QueryReply, answerStamp: string) {
    |h| >= 1
    && (reply.error.Some? ==> h[|h| - 1] == user)
    && (reply.error.None? ==> |h| >= 2 && h[|h| - 2] == user
                              && h[|h| - 1] == Turn("assistant", reply.answer, answerStamp))
  }

  /** Recording any answer, or any error, after the user's turn. */
  lemma RecordAfterUser(t: Texts, m: Sessions, id: string, user: Turn, answered: Result<Answered>, useRag: bool,
                        answerStamp: string, now: int, newId: string, maxHistory: int)
    requires id in m && maxHistory >= 0 && |m[id].history| >= 1 && m[id].history[|m[id].history| - 1] == user
    ensures EndsWithExchange(Record(t, m, id, answered, useRag, answerStamp, now, newId, maxHistory).sessions[id].history,
                             user, Record(t, m, id, answered, useRag, answerStamp, now, newId, maxHistory).reply,
                             answerStamp)
  {
    if answered.Success? {
      RecordEndsWithAnswer(t, m, id, answered, useRag, answerStamp, now, newId, maxHistory);
    }
  }

  /** With a limit that is not negative, the session ends with the user's
      turn, followed by the answer when there was no error. */
  lemma ProcessQueryRecordsTurns(t: Texts, m: Sessions, query: string, sid: Option<string>, newId: string, now: int,
                                 userStamp: string, answerStamp: string, maxHistory: int,
                                 llm: seq<Message> -> Result<string>, retrieve: string -> Result<seq<Doc>>)
    requires maxHistory >= 0
    ensures var o := ProcessQuery(t, m, query, sid, newId, now, userStamp, answerStamp, maxHistory, llm, retrieve);
            EndsWithExchange(GetHistory(o.sessions, o.reply.sessionId), Turn("user", query, userStamp), o.reply, answerStamp)
  {
    var b := Begin(m, query, sid, newId, now, userStamp, maxHistory);
    BeginEndsWithUser(m, query, sid, newId, now, userStamp, maxHistory);
    var useRag := Decide(t, query, llm);
    var answered := Answer(t, query, useRag, Recent(GetHistory(b.sessions, b.id)), llm, retrieve);
    RecordAfterUser(t, b.sessions, b.id, Turn("user", query, userStamp), answered, useRag, answerStamp, now, newId, maxHistory);
  }

  lemma {:induction false} CountSpokenBound(h: seq<Turn>)
    ensures CountSpoken(h) <= |h|
  {
    if |h| > 0 {
      CountSpokenBound(h[1..]);
    }
  }

  /** The latest history of a session whose last entry is the user's turn
      ends, as messages, with that turn as a human message. */
  lemma RecentEndsWithUser(h: seq<Turn>, query: string, stamp: string)
    requires |h| >= 1 && h[|h| - 1] == Turn("user", query, stamp)
    ensures var ms := HistoryMessages(Recent(h));
            |ms| >= 1 && ms[|ms| - 1] == HumanMessage(query)
  {
    var r := Recent(h);
    assert r == r[..|r| - 1] + [Turn("user", query, stamp)];
    HistoryMessagesConcat(r[..|r| - 1], [Turn("user", query, stamp)]);
    HistoryMessagesSingle(Turn("user", query, stamp));
  }

  /** The answering call gets at most the system message, one message
      per history entry, and the prompt. */
  lemma CallBound(t: Texts, query: string, recent: seq<Turn>, found: Option<seq<Doc>>)
    ensures |CallMessages(t, query, recent, found)| <= |recent| + 2
  {
    CountSpokenBound(recent);
  }

  /** A call whose prompt comes right after the user's question. */
  predicate QuestionBeforePrompt(sent: seq<Message>, query: string) {
    2 <= |sent| && sent[|sent| - 2] == HumanMessage(query)
  }

  /** Messages that end with the history, then the prompt, have the last
      history message just before the prompt. */
  lemma HistoryBeforePrompt(sent: seq<Message>, recent: seq<Turn>, query: string)
    requires HistoryThenPrompt(sent, recent)
    requires var ms := HistoryMessages(recent); 1 <= |ms| && ms[|ms| - 1] == HumanMessage(query)
    ensures QuestionBeforePrompt(sent, query)
  {
    var ms := HistoryMessages(recent);
    assert sent[|sent| - 2] == sent[|sent| - 1 - |ms|..|sent| - 1][|ms| - 1];
  }

  /** When the history ends with the user's turn, any call that ends with
      the latest history and a prompt has the question as a human message
      just before the prompt. */
  lemma CallAfterUser(sent: seq<Message>, query: string, h: seq<Turn>, stamp: string)
    requires |h| >= 1 && h[|h| - 1] == Turn("user", query, stamp)
    requires HistoryThenPrompt(sent, Recent(h))
    ensures QuestionBeforePrompt(sent, query)
  {
    RecentEndsWithUser(h, query, stamp);
    HistoryBeforePrompt(sent, Recent(h), query);
  }

  /** Every answering call of the agent, whatever was found, puts the
      user's latest question just before the prompt. */
  lemma CallMessagesAfterUser(t: Texts, query: string, h: seq<Turn>, stamp: string, found: Option<seq<Doc>>)
    requires |h| >= 1 && h[|h| - 1] == Turn("user", query, stamp)
    ensures QuestionBeforePrompt(CallMessages(t, query, Recent(h), found), query)
  {
    CallAfterUser(CallMessages(t, query, Recent(h), found), query, h, stamp);
  }

  /** Messages that end with the latest history and a prompt, after at
      most a system message. */
  predicate CallShaped(sent: seq<Message>, recent: seq<Turn>) {
    HistoryThenPrompt(sent, recent) && |sent| <= |recent| + 2
  }

  /** Whatever the decision, a returned answer came from a call shaped
      that way. */
  lemma AnswerShaped(t: Texts, query: string, useRag: bool, recent: seq<Turn>,
                     llm: seq<Message> -> Result<string>, retrieve: string -> Result<seq<Doc>>)
    ensures var r := Answer(t, query, useRag, recent, llm, retrieve);
            r.Success? ==> CallShaped(r.value.sent, recent)
  {
    if useRag && retrieve(query).Success? {
      CallBound(t, query, recent, Some(retrieve(query).value));
    } else if !useRag {
      CallBound(t, query, recent, None);
    }
  }

  /** Any answering call after the user's turn: at most twelve messages,
      ending with the latest history, the question as its last entry, then
      the prompt. */
  lemma AnswerCallShape(t: Texts, query: string, useRag: bool, h: seq<Turn>, stamp: string,
                        retrieve: string -> Result<seq<Doc>>, sent: seq<Message>)
    requires useRag ==> retrieve(query).Success?
    requires sent == AnswerCall(t, query, useRag, Recent(h), retrieve)
    ensures |sent| <= 12 && HistoryThenPrompt(sent, Recent(h))
    ensures |h| >= 1 && h[|h| - 1] == Turn("user", query, stamp) ==> QuestionBeforePrompt(sent, query)
  {
    CallBound(t, query, Recent(h), if useRag then Some(retrieve(query).value) else None);
    if |h| >= 1 && h[|h| - 1] == Turn("user", query, stamp) {
      CallAfterUser(sent, query, h, stamp);
    }
  }

  /** With a limit that is not negative the history ends with the user's
      turn once it is recorded. */
  lemma AskedEndsWithUser(m: Sessions, query: string, sid: Option<string>, userStamp: string, maxHistory: int)
    requires maxHistory >= 0
    ensures var h := Asked(m, query, sid, userStamp, maxHistory);
            |h| >= 1 && h[|h| - 1] == Turn("user", query, userStamp)
  {
    TruncateEndsWith(Opening(m, sid), Turn("user", query, userStamp), maxHistory);
  }

  /** The answering call sees the latest ten entries of the session's
      history, the user's turn included, between at most a system message
      and the prompt: twelve messages at most. With a limit that is not
      negative the question comes just before the prompt, as the last
      history entry. */
  lemma ProcessQuerySent(t: Texts, m: Sessions, query: string, sid: Option<string>, newId: string, now: int,
                         userStamp: string, answerStamp: string, maxHistory: int,
                         llm: seq<Message> -> Result<string>, retrieve: string -> Result<seq<Doc>>)
    ensures var o := ProcessQuery(t, m, query, sid, newId, now, userStamp, answerStamp, maxHistory, llm, retrieve);
            o.reply.error.None? ==>
              |o.sent| <= 12
              && HistoryThenPrompt(o.sent, Recent(Asked(m, query, sid, userStamp, maxHistory)))
              && (maxHistory >= 0 ==> QuestionBeforePrompt(o.sent, query))
  {
    var o := ProcessQuery(t, m, query, sid, newId, now, userStamp, answerStamp, maxHistory, llm, retrieve);
    if o.reply.error.None? {
      if maxHistory >= 0 {
        AskedEndsWithUser(m, query, sid, userStamp, maxHistory);
      }
      AnswerCallShape(t, query, Decide(t, query, llm), Asked(m, query, sid, userStamp, maxHistory), userStamp,
                      retrieve, o.sent);
    }
  }
}
