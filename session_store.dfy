/**
 * The server's per-session conversation store and the history handling of a
 * negotiate turn (backend/server.js).
 *
 * The store maps a session id to the ordered list of `{ role, content }`
 * messages exchanged so far. A negotiate turn creates the list when the id is
 * new, appends the user's message, sends the system prompt followed by the
 * whole list to the chat-completion service, and, only when that call
 * succeeds, appends the reply and keeps the last `HistoryLimit` messages.
 * A reset forgets the session.
 */
module SessionStore {
  import opened Messages

  /** Number of messages kept after a successful turn (`history.slice(-20)`). */
  const HistoryLimit: nat := 20

  /** Session id used when a request body carries none. */
  const DefaultSessionId: string := "default"

  /** What the chat-completion service gives back for one request. */
  datatype Completion = Reply(text: string) | Failure(error: string)

  /** The body the negotiate endpoint answers with: `{ response }` or, with status 500, `{ error }`. */
  datatype Response = Ok(response: string) | InternalError(error: string)

  /** One request to the store: a negotiate turn, with the answer the service gave, or a reset. */
  datatype Op =
    | NegotiateOp(sessionId: Option<string>, userMessage: string, completion: Completion)
    | ResetOp(sessionId: Option<string>)

  type Store = map<string, seq<Msg>>

  /**
   * The destructuring default `sessionId = 'default'`: it applies only when
   * the field is absent, so any string given, even the empty one, is kept.
   */
  function ResolveSessionId(sessionId: Option<string>): (id: string)
    ensures sessionId.None? ==> id == DefaultSessionId
    ensures sessionId.Some? ==> id == sessionId.value
  {
    match sessionId
    case None => DefaultSessionId
    case Some(s) => s
  }

  /** The history stored for `id`; an id the store has never seen reads as empty. */
  function HistoryOf(m: Store, id: string): seq<Msg> {
    if id in m then m[id] else []
  }

  /** `m'` agrees with `m` on every session other than `id`. */
  ghost predicate SameExcept(m: Store, m': Store, id: string) {
    forall k :: k != id ==> (k in m <==> k in m') && (k in m ==> m[k] == m'[k])
  }

  /** "Get or create": an unknown id gets an empty history, a known one is left as it is. */
  function GetOrCreate(m: Store, id: string): (m': Store)
    ensures id in m'
    ensures id in m ==> m' == m
    ensures id !in m ==> m'[id] == [] && m'.Keys == m.Keys + {id}
    ensures SameExcept(m, m', id)
  {
    if id in m then m else m[id := []]
  }

  /** The last `HistoryLimit` messages of `h`, in their original order. */
  function KeepRecent(h: seq<Msg>): (r: seq<Msg>)
    ensures IsSuffix(r, h)
    ensures |r| == if |h| <= HistoryLimit then |h| else HistoryLimit
  {
    if |h| > HistoryLimit then h[|h| - HistoryLimit..] else h
  }

  /** The message list sent to the service: the system prompt, then the history. */
  function Prompt(systemPrompt: string, history: seq<Msg>): (r: seq<Msg>)
    ensures |r| == |history| + 1
    ensures r[0] == Msg(System, systemPrompt) && r[1..] == history
  {
    [Msg(System, systemPrompt)] + history
  }

  /**
   * The history of one session after a negotiate turn. On success the user
   * message and the reply are appended and the list is cut to the most recent
   * `HistoryLimit` entries; on failure only the user message is appended and
   * nothing is cut.
   */
  function AfterTurn(h: seq<Msg>, userMessage: string, c: Completion): (r: seq<Msg>)
    ensures c.Reply? ==> |r| <= HistoryLimit
    ensures c.Reply? ==> IsSuffix(r, h + [UserMsg(userMessage), AssistantMsg(c.text)])
    ensures c.Reply? && |h| + 2 <= HistoryLimit ==> r == h + [UserMsg(userMessage), AssistantMsg(c.text)]
    ensures c.Reply? && |h| + 2 > HistoryLimit ==> |r| == HistoryLimit
    ensures c.Failure? ==> |r| == |h| + 1 && r[..|h|] == h && r[|h|] == UserMsg(userMessage)
  {
    match c
    case Reply(text) => KeepRecent(h + [UserMsg(userMessage), AssistantMsg(text)])
    case Failure(_) => h + [UserMsg(userMessage)]
  }

  /** What the endpoint answers for a completion result. */
  function ResponseFor(c: Completion): (r: Response)
    ensures r.Ok? <==> c.Reply?
    ensures c.Reply? ==> r.response == c.text
    ensures c.Failure? ==> r.error == c.error
  {
    match c
    case Reply(text) => Ok(text)
    case Failure(e) => InternalError(e)
  }

  /** The session a request names, after the default is applied. */
  function TargetOf(op: Op): string {
    ResolveSessionId(op.sessionId)
  }

  /** The whole store after one request. */
  function Apply(m: Store, op: Op): (m': Store)
    ensures SameExcept(m, m', TargetOf(op))
    ensures op.NegotiateOp? ==>
      TargetOf(op) in m' && m'[TargetOf(op)] == AfterTurn(HistoryOf(m, TargetOf(op)), op.userMessage, op.completion)
    ensures op.ResetOp? ==> TargetOf(op) !in m' && m'.Keys == m.Keys - {TargetOf(op)}
  {
    var id := TargetOf(op);
    match op
    case NegotiateOp(_, u, c) => GetOrCreate(m, id)[id := AfterTurn(HistoryOf(m, id), u, c)]
    case ResetOp(_) => m - {id}
  }

  /** A negotiate request only replaces the entry of its own session. */
  lemma ApplyNegotiate(m: Store, op: Op)
    requires op.NegotiateOp?
    ensures Apply(m, op) == m[TargetOf(op) := AfterTurn(HistoryOf(m, TargetOf(op)), op.userMessage, op.completion)]
  {
  }

  /** The store after a sequence of requests, applied in order. */
  function RunOps(m: Store, ops: seq<Op>): Store
  {
    if ops == [] then m else Apply(RunOps(m, ops[..|ops| - 1]), ops[|ops| - 1])
  }

  /** The history of session `id` computed from the requests that name `id` alone. */
  function SessionHistory(h: seq<Msg>, ops: seq<Op>, id: string): seq<Msg>
  {
    if ops == [] then h
    else
      var before := SessionHistory(h, ops[..|ops| - 1], id);
      var op := ops[|ops| - 1];
      if TargetOf(op) != id then before
      else match op
        case NegotiateOp(_, u, c) => AfterTurn(before, u, c)
        case ResetOp(_) => []
  }

  /**
   * Session isolation: a session's history depends only on the requests that
   * name that session. Whatever is done to other sessions never shows.
   */
  lemma {:induction false} SessionsIsolated(m: Store, ops: seq<Op>, id: string)
    ensures HistoryOf(RunOps(m, ops), id) == SessionHistory(HistoryOf(m, id), ops, id)
  {
    if ops != [] {
      SessionsIsolated(m, ops[..|ops| - 1], id);
    }
  }

  /** Requests that never name `id` leave its history exactly as it was. */
  lemma {:induction false} OtherSessionsUntouched(m: Store, ops: seq<Op>, id: string)
    requires forall i :: 0 <= i < |ops| ==> TargetOf(ops[i]) != id
    ensures HistoryOf(RunOps(m, ops), id) == HistoryOf(m, id)
    ensures (id in RunOps(m, ops)) == (id in m)
  {
    if ops != [] {
      OtherSessionsUntouched(m, ops[..|ops| - 1], id);
    }
  }

  /** Resetting twice is resetting once; resetting an unknown session changes nothing. */
  lemma ResetIdempotent(m: Store, sessionId: Option<string>)
    ensures Apply(Apply(m, ResetOp(sessionId)), ResetOp(sessionId)) == Apply(m, ResetOp(sessionId))
    ensures ResolveSessionId(sessionId) !in m ==> Apply(m, ResetOp(sessionId)) == m
  {
  }

  /** After a reset the next turn of the same session starts from an empty history. */
  lemma ResetThenTurnStartsFresh(m: Store, sessionId: Option<string>, userMessage: string, c: Completion)
    ensures var m' := Apply(Apply(m, ResetOp(sessionId)), NegotiateOp(sessionId, userMessage, c));
            m'[ResolveSessionId(sessionId)] == AfterTurn([], userMessage, c)
  {
  }

  /** The history of one session after a sequence of its own turns. */
  function Replay(h: seq<Msg>, turns: seq<(string, Completion)>): seq<Msg>
  {
    if turns == [] then h
    else AfterTurn(Replay(h, turns[..|turns| - 1]), turns[|turns| - 1].0, turns[|turns| - 1].1)
  }

  /** The messages one turn appends before truncation. */
  function TurnTail(u: string, c: Completion): seq<Msg> {
    [UserMsg(u)] + (if c.Reply? then [AssistantMsg(c.text)] else [])
  }

  /** The messages the turns append, in order, before any truncation. */
  function Appended(turns: seq<(string, Completion)>): seq<Msg>
  {
    if turns == [] then []
    else
      var (u, c) := turns[|turns| - 1];
      Appended(turns[..|turns| - 1]) + TurnTail(u, c)
  }

  /**
   * One turn keeps the replay invariant: a history that ends everything
   * appended so far, and is either all of it or at least `HistoryLimit` long,
   * stays so once the turn's messages are appended to both.
   */
  lemma AfterTurnKeepsRecent(before: seq<Msg>, all: seq<Msg>, u: string, c: Completion)
    requires IsSuffix(before, all)
    requires before == all || |before| >= HistoryLimit
    ensures IsSuffix(AfterTurn(before, u, c), all + TurnTail(u, c))
    ensures AfterTurn(before, u, c) == all + TurnTail(u, c) || |AfterTurn(before, u, c)| >= HistoryLimit
    ensures c.Reply? ==> AfterTurn(before, u, c) == KeepRecent(all + TurnTail(u, c))
  {
    var tail := TurnTail(u, c);
    SuffixAppend(before, all, tail);
    match c
    case Reply(text) =>
      assert before + tail == before + [UserMsg(u), AssistantMsg(text)];
      SuffixTrans(AfterTurn(before, u, c), before + tail, all + tail);
      if before != all {
        SuffixTail(before + tail, all + tail, HistoryLimit);
      }
    case Failure(_) =>
      assert AfterTurn(before, u, c) == before + tail;
  }

  /**
   * Whatever mix of successes and failures, the stored history is always the
   * most recent part of everything ever appended, in the original order: it is
   * either all of it or at least `HistoryLimit` long, and right after a
   * successful turn it is exactly the last `HistoryLimit` messages (or all of
   * them when there are fewer).
   */
  lemma {:induction false} ReplayKeepsMostRecent(h: seq<Msg>, turns: seq<(string, Completion)>)
    ensures IsSuffix(Replay(h, turns), h + Appended(turns))
    ensures Replay(h, turns) == h + Appended(turns) || |Replay(h, turns)| >= HistoryLimit
    ensures turns != [] && turns[|turns| - 1].1.Reply? ==> Replay(h, turns) == KeepRecent(h + Appended(turns))
  {
    if turns != [] {
      var init := turns[..|turns| - 1];
      var u, c := turns[|turns| - 1].0, turns[|turns| - 1].1;
      ReplayKeepsMostRecent(h, init);
      assert h + Appended(turns) == (h + Appended(init)) + TurnTail(u, c);
      AfterTurnKeepsRecent(Replay(h, init), h + Appended(init), u, c);
    }
  }

  /** The turns, in order, of the negotiate requests that name `id`. */
  function TurnsOf(ops: seq<Op>, id: string): (turns: seq<(string, Completion)>)
    ensures |turns| <= |ops|
  {
    if ops == [] then []
    else
      var op := ops[|ops| - 1];
      if op.NegotiateOp? && TargetOf(op) == id then TurnsOf(ops[..|ops| - 1], id) + [(op.userMessage, op.completion)]
      else TurnsOf(ops[..|ops| - 1], id)
  }

  /**
   * When no reset names `id`, the history computed from the requests naming
   * `id` is the replay of that session's turns.
   */
  lemma {:induction false} SessionHistoryIsReplay(h: seq<Msg>, ops: seq<Op>, id: string)
    requires forall i :: 0 <= i < |ops| ==> !(ops[i].ResetOp? && TargetOf(ops[i]) == id)
    ensures SessionHistory(h, ops, id) == Replay(h, TurnsOf(ops, id))
  {
    if ops != [] {
      var init := ops[..|ops| - 1];
      SessionHistoryIsReplay(h, init, id);
      var op := ops[|ops| - 1];
      if op.NegotiateOp? && TargetOf(op) == id {
        var turns := TurnsOf(ops, id);
        assert turns[..|turns| - 1] == TurnsOf(init, id);
      }
    }
  }

  /**
   * In the whole store, a session no reset names holds the replay of its own
   * turns, and so, by `ReplayKeepsMostRecent`, the most recent messages of
   * everything its turns appended.
   */
  lemma StoreKeepsMostRecent(m: Store, ops: seq<Op>, id: string)
    requires forall i :: 0 <= i < |ops| ==> !(ops[i].ResetOp? && TargetOf(ops[i]) == id)
    ensures HistoryOf(RunOps(m, ops), id) == Replay(HistoryOf(m, id), TurnsOf(ops, id))
    ensures IsSuffix(HistoryOf(RunOps(m, ops), id), HistoryOf(m, id) + Appended(TurnsOf(ops, id)))
  {
    SessionsIsolated(m, ops, id);
    SessionHistoryIsReplay(HistoryOf(m, id), ops, id);
    ReplayKeepsMostRecent(HistoryOf(m, id), TurnsOf(ops, id));
  }

  /** Only failures: every user message stays, nothing is cut, and the bound is exceeded. */
  lemma {:induction false} FailuresAccumulate(h: seq<Msg>, turns: seq<(string, Completion)>)
    requires forall i :: 0 <= i < |turns| ==> turns[i].1.Failure?
    ensures Replay(h, turns) == h + Appended(turns)
    ensures |Replay(h, turns)| == |h| + |turns|
  {
    if turns != [] {
      FailuresAccumulate(h, turns[..|turns| - 1]);
    }
  }

  /** Twenty-one failed turns on a fresh session store twenty-one messages. */
  lemma FailuresBreakTheBound(turns: seq<(string, Completion)>)
    requires |turns| == HistoryLimit + 1
    requires forall i :: 0 <= i < |turns| ==> turns[i].1.Failure?
    ensures |Replay([], turns)| > HistoryLimit
  {
    FailuresAccumulate([], turns);
  }

  /**
   * The prompt built from a history that a successful turn left behind holds
   * at most `HistoryLimit + 1` messages besides the system prompt, and exactly
   * that many when the history was full.
   */
  lemma PromptAfterSuccess(systemPrompt: string, h: seq<Msg>, u: string, c: Completion, next: string)
    requires c.Reply?
    ensures |Prompt(systemPrompt, AfterTurn(h, u, c) + [UserMsg(next)])| <= HistoryLimit + 2
    ensures |h| + 2 >= HistoryLimit ==>
      |Prompt(systemPrompt, AfterTurn(h, u, c) + [UserMsg(next)])| == HistoryLimit + 2
  {
  }

  /** The server's conversation map, updated in place by the two endpoints. */
  class Server {
    const systemPrompt: string
    var conversations: Store

    constructor (systemPrompt: string)
      ensures this.systemPrompt == systemPrompt
      ensures conversations == map[]
    {
      this.systemPrompt := systemPrompt;
      conversations := map[];
    }

    /**
     * `POST /api/negotiate`. `complete` is the chat-completion service; `sent`
     * is the message list it was given.
     */
    method Negotiate(sessionId: Option<string>, userMessage: string, complete: seq<Msg> -> Completion)
      returns (response: Response, sent: seq<Msg>)
      modifies this
      ensures sent == Prompt(systemPrompt, HistoryOf(old(conversations), ResolveSessionId(sessionId)) + [UserMsg(userMessage)])
      ensures var id := ResolveSessionId(sessionId);
        conversations == old(conversations)[id := AfterTurn(HistoryOf(old(conversations), id), userMessage, complete(sent))]
      ensures response == ResponseFor(complete(sent))
    {
      var id := ResolveSessionId(sessionId);
      ghost var h0 := HistoryOf(conversations, id);
      var history := GetOrCreateHistory(id);
      history := history + [UserMsg(userMessage)];
      conversations := conversations[id := history];
      sent := [Msg(System, systemPrompt)] + history;
      var completion := complete(sent);
      match completion
      case Reply(aiResponse) =>
        history := history + [AssistantMsg(aiResponse)];
        assert history == h0 + [UserMsg(userMessage), AssistantMsg(aiResponse)];
        conversations := conversations[id := history];
        if |history| > HistoryLimit {
          conversations := conversations[id := history[|history| - HistoryLimit..]];
        }
        assert conversations[id] == KeepRecent(history) == AfterTurn(h0, userMessage, completion);
        response := Ok(aiResponse);
      case Failure(e) =>
        assert history == AfterTurn(h0, userMessage, completion);
        response := InternalError(e);
    }

    /** The get-or-create step of the negotiate handler: create the entry when missing, then read it. */
    method GetOrCreateHistory(id: string) returns (history: seq<Msg>)
      modifies this
      ensures conversations == GetOrCreate(old(conversations), id)
      ensures history == HistoryOf(old(conversations), id)
    {
      if id !in conversations {
        conversations := conversations[id := []];
      }
      history := conversations[id];
    }

    /** `POST /api/reset`. */
    method Reset(sessionId: Option<string>)
      modifies this
      ensures conversations == Apply(old(conversations), ResetOp(sessionId))
    {
      conversations := conversations - {ResolveSessionId(sessionId)};
    }
  }
}
