/**
 * The client's chat state (frontend/src/App.jsx): the message list, the
 * running offer amount, the deal flag, the recording flag and transcript,
 * and the welcome-screen tagline index.
 */
module ChatClient {
  import opened Messages
  import opened JsText
  import opened Signals
  import SessionStore

  /** `TAGLINES`, cycled on the welcome screen. */
  const Taglines: seq<string> := ["happier", "richer", "lighter"]

  /** `(prev + 1) % TAGLINES.length`. */
  function NextTagline(prev: nat): (r: nat)
    ensures r < |Taglines|
    ensures prev + 1 < |Taglines| ==> r == prev + 1
    ensures prev + 1 == |Taglines| ==> r == 0
  {
    (prev + 1) % |Taglines|
  }

  /** The tagline index after `ticks` firings of the interval, starting from 0. */
  function TaglineAfter(ticks: nat): nat {
    if ticks == 0 then 0 else NextTagline(TaglineAfter(ticks - 1))
  }

  /** The index cycles through 0, 1, 2 and back, one step per tick. */
  lemma {:induction false} TaglineCycles(ticks: nat)
    ensures TaglineAfter(ticks) == ticks % |Taglines|
  {
    if ticks > 0 {
      TaglineCycles(ticks - 1);
    }
  }

  /**
   * What `onresult` builds: the first alternative of every recognition
   * result, joined in order. Every result the recogniser reports carries at
   * least one alternative.
   */
  function JoinFirstAlternatives(results: seq<seq<string>>): string
    requires forall i :: 0 <= i < |results| ==> |results[i]| > 0
  {
    if results == [] then ""
    else JoinFirstAlternatives(results[..|results| - 1]) + results[|results| - 1][0]
  }

  /** Joining distributes over splitting the result list. */
  lemma {:induction false} JoinAppend(a: seq<seq<string>>, b: seq<seq<string>>)
    requires forall i :: 0 <= i < |a| ==> |a[i]| > 0
    requires forall i :: 0 <= i < |b| ==> |b[i]| > 0
    ensures JoinFirstAlternatives(a + b) == JoinFirstAlternatives(a) + JoinFirstAlternatives(b)
  {
    if b == [] {
      assert a + b == a;
    } else {
      assert (a + b)[..|a + b| - 1] == a + b[..|b| - 1];
      JoinAppend(a, b[..|b| - 1]);
    }
  }

  /** Every result's first alternative appears, whole, in the joined transcript. */
  lemma JoinContainsEach(results: seq<seq<string>>, i: nat)
    requires forall j :: 0 <= j < |results| ==> |results[j]| > 0
    requires i < |results|
    ensures Includes(JoinFirstAlternatives(results), results[i][0])
  {
    var before, after := results[..i], results[i + 1..];
    assert results == before + [results[i]] + after;
    JoinAppend(before + [results[i]], after);
    JoinAppend(before, [results[i]]);
    var full := JoinFirstAlternatives(results);
    var at := |JoinFirstAlternatives(before)|;
    assert full[at..][..|results[i][0]|] == results[i][0];
    IncludesAt(full, results[i][0], at);
  }

  /** The loop of `onresult`, accumulating `fullTranscript`. */
  method CollectTranscript(results: seq<seq<string>>) returns (fullTranscript: string)
    requires forall i :: 0 <= i < |results| ==> |results[i]| > 0
    ensures fullTranscript == JoinFirstAlternatives(results)
  {
    fullTranscript := "";
    for i := 0 to |results|
      invariant fullTranscript == JoinFirstAlternatives(results[..i])
    {
      assert results[..i + 1][..i] == results[..i];
      fullTranscript := fullTranscript + results[i][0];
    }
    assert results[..|results|] == results;
  }

  /** The guard of `handleTranscript`: nothing to do for an empty or whitespace-only text. */
  predicate IsBlank(text: string) {
    Trim(text) == []
  }

  /**
   * What `stopRecording` passes on: the trimmed transcript, and only when
   * something is left after trimming.
   */
  function Submission(transcript: string): (r: Option<string>)
    ensures r.None? <==> forall i :: 0 <= i < |transcript| ==> IsJsWhitespace(transcript[i])
    ensures r.Some? ==> r.value == Trim(transcript) && r.value != []
    ensures r.Some? ==> !IsJsWhitespace(r.value[0]) && !IsJsWhitespace(r.value[|r.value| - 1])
  {
    if |Trim(transcript)| > 0 then Some(Trim(transcript)) else None
  }

  /** A submitted text always passes the guard of `handleTranscript`. */
  lemma SubmissionIsNotBlank(transcript: string)
    requires Submission(transcript).Some?
    ensures !IsBlank(Submission(transcript).value)
  {
    TrimIdempotent(transcript);
  }

  /** A chat message as the client keeps it; `None` is the `undefined` the code can store. */
  datatype Entry = Entry(role: Role, content: Option<string>)

  /** What `handleTranscript` gets back from `/api/negotiate`. */
  datatype NegotiateReply =
    | FetchFailed                      // `fetch` or `json()` threw
    | Body(response: Option<string>)   // the parsed body; `response` is absent on a server error

  /** The body the client reads for each answer of the server. */
  function ReplyFromServer(r: SessionStore.Response): (reply: NegotiateReply)
    ensures reply.Body?
    ensures r.Ok? <==> reply.response.Some?
    ensures r.Ok? ==> reply.response.value == r.response
  {
    match r
    case Ok(text) => Body(Some(text))
    case InternalError(_) => Body(None)
  }

  /**
   * The entries one processed turn adds: the user's message, then the
   * assistant's, whose content is `undefined` when the body lacked a
   * `response`; a failed fetch adds only the user's message.
   */
  function TurnEntries(userText: string, reply: NegotiateReply): (r: seq<Entry>)
    ensures |r| == if reply.Body? then 2 else 1
    ensures r[0] == Entry(User, Some(userText))
    ensures reply.Body? ==> r[1] == Entry(Assistant, reply.response)
  {
    match reply
    case FetchFailed => [Entry(User, Some(userText))]
    case Body(response) => [Entry(User, Some(userText)), Entry(Assistant, response)]
  }

  /**
   * `totalAmount` after a turn: replaced by the offer found in the reply,
   * kept when the reply names none or never arrived as text (`aiText.match`
   * throws on `undefined`).
   */
  function AmountAfter(prev: nat, reply: NegotiateReply): (r: nat)
    ensures reply == Body(None) || reply == FetchFailed ==> r == prev
    ensures reply.Body? && reply.response.Some? ==>
      r == match OfferAmount(reply.response.value) case Some(v) => v case None => prev
  {
    match reply
    case Body(Some(text)) =>
      (match OfferAmount(text) case Some(v) => v case None => prev)
    case _ => prev
  }

  /** `isDealReached` after a turn: raised when the reply text names a deal, otherwise unchanged. */
  function DealAfter(prev: bool, reply: NegotiateReply): (r: bool)
    ensures prev ==> r
    ensures !prev ==> (r <==> reply.Body? && reply.response.Some? && IsDeal(reply.response.value))
  {
    match reply
    case Body(Some(text)) => prev || IsDeal(text)
    case _ => prev
  }

  /** The state of the `App` component. */
  class App {
    const sessionId: string
    const speechSupported: bool
    var screen: Screen
    var messages: seq<Entry>
    var isRecording: bool
    var isThinking: bool
    var totalAmount: nat
    var currentTagline: nat
    var transcript: string
    var isDealReached: bool

    ghost predicate Valid()
      reads this
    {
      currentTagline < |Taglines|
    }

    /** The initial state; the random session id and the recogniser's availability are given. */
    constructor (sessionId: string, speechSupported: bool)
      ensures Valid()
      ensures this.sessionId == sessionId && this.speechSupported == speechSupported
      ensures screen == Welcome && messages == [] && !isRecording && !isThinking
      ensures totalAmount == 0 && currentTagline == 0 && transcript == "" && !isDealReached
    {
      this.sessionId := sessionId;
      this.speechSupported := speechSupported;
      screen := Welcome;
      messages := [];
      isRecording := false;
      isThinking := false;
      totalAmount := 0;
      currentTagline := 0;
      transcript := "";
      isDealReached := false;
    }

    /** One firing of the tagline interval, which runs only while the welcome screen shows. */
    method RotateTagline()
      requires Valid()
      modifies this`currentTagline
      ensures Valid()
      ensures currentTagline == if screen == Welcome then NextTagline(old(currentTagline)) else old(currentTagline)
    {
      if screen == Welcome {
        currentTagline := NextTagline(currentTagline);
      }
    }

    /** `recognition.onresult`: the transcript becomes the join of all results so far. */
    method OnResult(results: seq<seq<string>>)
      requires forall i :: 0 <= i < |results| ==> |results[i]| > 0
      requires Valid()
      modifies this`transcript
      ensures Valid()
      ensures transcript == JoinFirstAlternatives(results)
    {
      transcript := CollectTranscript(results);
    }

    /**
     * `startRecording`: the first press leaves the welcome screen; later
     * presses clear the transcript and start recording.
     */
    method StartRecording()
      requires Valid()
      modifies this`screen, this`transcript, this`isRecording
      ensures Valid()
      ensures !speechSupported ==> unchanged(this)
      ensures speechSupported && old(screen) == Welcome ==>
        screen == Chat && transcript == old(transcript) && isRecording == old(isRecording)
      ensures speechSupported && old(screen) == Chat ==>
        screen == Chat && transcript == "" && isRecording
    {
      if !speechSupported {
        return;
      }
      if screen == Welcome {
        screen := Chat;
        return;
      }
      transcript := "";
      isRecording := true;
    }

    /**
     * `handleTranscript`: a blank text changes nothing; otherwise the turn
     * is processed.
     */
    method HandleTranscript(userText: string, reply: NegotiateReply)
      requires Valid()
      modifies this`messages, this`isThinking, this`totalAmount, this`isDealReached
      ensures Valid()
      ensures IsBlank(userText) ==> unchanged(this)
      ensures !IsBlank(userText) ==>
        && messages == old(messages) + TurnEntries(userText, reply)
        && totalAmount == AmountAfter(old(totalAmount), reply)
        && isDealReached == DealAfter(old(isDealReached), reply)
        && !isThinking
    {
      if |Trim(userText)| == 0 {
        return;
      }
      ProcessTurn(userText, reply);
    }

    /**
     * The `try` block of `handleTranscript`: the user's entry is appended,
     * then, when a body arrived, the assistant's; the amount and the deal flag
     * are read from the reply text when there is one.
     */
    method ProcessTurn(userText: string, reply: NegotiateReply)
      requires Valid()
      modifies this`messages, this`isThinking, this`totalAmount, this`isDealReached
      ensures Valid()
      ensures messages == old(messages) + TurnEntries(userText, reply)
      ensures totalAmount == AmountAfter(old(totalAmount), reply)
      ensures isDealReached == DealAfter(old(isDealReached), reply)
      ensures !isThinking
    {
      isThinking := true;
      messages := messages + [Entry(User, Some(userText))];
      match reply
      case FetchFailed =>
        isThinking := false;
      case Body(None) =>
        messages := messages + [Entry(Assistant, None)];
        isThinking := false;
      case Body(Some(aiText)) =>
        messages := messages + [Entry(Assistant, Some(aiText))];
        ReadSignals(aiText);
        isThinking := false;
    }

    /** The offer and deal checks run on each reply text. */
    method ReadSignals(aiText: string)
      requires Valid()
      modifies this`totalAmount, this`isDealReached
      ensures Valid()
      ensures totalAmount == AmountAfter(old(totalAmount), Body(Some(aiText)))
      ensures isDealReached == DealAfter(old(isDealReached), Body(Some(aiText)))
    {
      var dollarMatch := OfferAmount(aiText);
      if dollarMatch.Some? {
        totalAmount := dollarMatch.value;
      }
      if IsDeal(aiText) {
        isDealReached := true;
      }
    }

    /**
     * `stopRecording`: only while recording; sends the trimmed transcript
     * when it is not blank, then clears it.
     */
    method StopRecording(reply: NegotiateReply)
      requires Valid()
      modifies this`isRecording, this`transcript, this`messages, this`isThinking, this`totalAmount, this`isDealReached
      ensures Valid()
      ensures !(speechSupported && old(isRecording)) ==> unchanged(this)
      ensures speechSupported && old(isRecording) ==> !isRecording && transcript == ""
      ensures speechSupported && old(isRecording) && Submission(old(transcript)).None? ==>
        messages == old(messages) && totalAmount == old(totalAmount)
        && isDealReached == old(isDealReached) && isThinking == old(isThinking)
      ensures speechSupported && old(isRecording) && Submission(old(transcript)).Some? ==>
        && messages == old(messages) + TurnEntries(Submission(old(transcript)).value, reply)
        && totalAmount == AmountAfter(old(totalAmount), reply)
        && isDealReached == DealAfter(old(isDealReached), reply)
        && !isThinking
    {
      if speechSupported && isRecording {
        isRecording := false;
        if |transcript| > 0 && |Trim(transcript)| > 0 {
          SubmissionIsNotBlank(transcript);
          HandleTranscript(Trim(transcript), reply);
        }
        transcript := "";
      }
    }
  }

  datatype Screen = Welcome | Chat
}
