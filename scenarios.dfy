/**
 * Worked examples of a negotiation: replies whose offer and deal signals the
 * client reads, and a first turn that goes from an empty session through the
 * store and back into the client's state. Each reply is written as the
 * concatenation of short pieces: the prover handles facts about a short
 * string literal quickly, but an equation or a membership fact about a whole
 * reply written as one literal runs out of resources, so each fact is proved
 * piece by piece.
 */
module Scenarios {
  import opened Messages
  import opened JsText
  import opened Signals
  import SessionStore
  import ChatClient

  /** "I can do $45 for that, deal!", split at the figure and at the keyword the proof points to. */
  const OfferAndDeal: string := "I can do " + "$45" + " for that, " + "deal!"

  /** An offer with a deal keyword: the amount is 45 and a deal is reached. */
  lemma OfferAndDealSignals(reply: string)
    requires reply == OfferAndDeal
    ensures OfferAmount(reply) == Some(45)
    ensures IsDeal(reply)
  {
    var p, d, r := "I can do ", "45", " for that, " + "deal!";
    assert '$' !in p;
    NoDollarNoMatch(p);
    assert DecimalDigits(45) == d;
    assert reply == p + ['$'] + d + r;
    OfferRoundTrip(p, 45, r);
    var a, k := p + "$45" + " for that, ", "deal";
    assert reply == a + k + "!";
    IncludesWithin(a, k, "!");
    DealInAnyCase(reply, k);
  }

  /** A refusal that names the word is still read as a deal: the check matches substrings, not meaning. */
  lemma RefusalCountsAsDeal(reply: string)
    requires reply == "No " + "deal" + " today."
    ensures IsDeal(reply)
  {
    IncludesWithin("No ", "deal", " today.");
    DealInAnyCase(reply, "deal");
  }

  /** "Let's say $30, maybe $50 later", split at the first figure. */
  const TwoFigures: string := "Let's say " + "$30" + ", maybe $50 later"

  /** Only the first dollar figure is read: the amount is 30, not 50. */
  lemma FirstFigureWins(reply: string)
    requires reply == TwoFigures
    ensures OfferAmount(reply) == Some(30)
  {
    var p, d, r := "Let's say ", "30", ", maybe $50 later";
    assert '$' !in p;
    NoDollarNoMatch(p);
    assert DecimalDigits(30) == d;
    assert reply == p + ['$'] + d + r;
    OfferRoundTrip(p, 30, r);
  }

  /** "I'm interested but let's talk", split around its capital and its one `d`. */
  const Undecided: string := "I" + "'m intereste" + "d" + " but let's talk"

  /** The pieces of the undecided reply other than its capital and its one `d`. */
  lemma UndecidedPieces(s: string)
    requires s == "'m intereste" || s == " but let's talk"
    ensures forall i :: 0 <= i < |s| ==>
      && !('A' <= s[i] <= 'Z') && s[i] != '$'
      && s[i] != 'd' && s[i] != 'o' && s[i] != 'p' && s[i] != 'y'
  {}

  /** A reply with no dollar figure: no amount. */
  lemma UndecidedAmount(reply: string)
    requires reply == Undecided
    ensures OfferAmount(reply) == None
  {
    var a, b := "'m intereste", " but let's talk";
    assert '$' !in a by { UndecidedPieces(a); }
    assert '$' !in b by { UndecidedPieces(b); }
    assert reply == "I" + a + ['d'] + b;
    NoDollarNoMatch(reply);
  }

  /** The undecided reply after its capital holds no capital. */
  lemma UndecidedTail(t: string)
    requires t == "'m intereste" + "d" + " but let's talk"
    ensures NoUpper(t)
  {
    var a, b := "'m intereste", " but let's talk";
    assert NoUpper(a) by { UndecidedPieces(a); }
    assert NoUpper(b) by { UndecidedPieces(b); }
    NoUpperAppend(a, "d");
    NoUpperAppend(a + "d", b);
  }

  /** Lower-casing the undecided reply changes only its capital. */
  lemma UndecidedLowered(reply: string)
    requires reply == Undecided
    ensures LowerAscii(reply) == "i" + "'m intereste" + "d" + " but let's talk"
  {
    var t := "'m intereste" + "d" + " but let's talk";
    UndecidedTail(t);
    assert reply == ['I'] + t;
    LowerAsciiCapital('I', t);
  }

  /** A reply with no keyword: no deal. */
  lemma UndecidedNoDeal(reply: string)
    requires reply == Undecided
    ensures !IsDeal(reply)
  {
    var p, q := "i" + "'m intereste", " but let's talk";
    UndecidedLowered(reply);
    var l := LowerAscii(reply);
    assert 'd' !in p && 'o' !in p && 'p' !in p && 'y' !in p by { UndecidedPieces("'m intereste"); }
    assert 'd' !in q && 'o' !in q && 'p' !in q && 'y' !in q by { UndecidedPieces(q); }
    assert l == p + ['d'] + q;
    PairNotIncluded(p, q, "deal");
    MissingCharNotIncluded(l, "sold", 1);
    MissingCharNotIncluded(l, "pleasure doing business", 0);
    MissingCharNotIncluded(l, "you got yourself", 0);
    DealKeywordsReduce(reply);
  }

  /**
   * "I can offer $20 for that guitar, take it or leave it.", split at the
   * capital and the figure, and once more so that no piece is too long for the
   * letter-by-letter proofs.
   */
  const GuitarOffer: string := "I" + " can offer " + "$20" + " for that gu" + "itar, take it or leave it."

  /** The pieces of the guitar reply after its capital and its figure. */
  lemma GuitarPieces(s: string)
    requires s == " can offer " || s == " for that gu" || s == "itar, take it or leave it."
    ensures forall i :: 0 <= i < |s| ==>
      && !('A' <= s[i] <= 'Z') && s[i] != '$'
      && s[i] != 'd' && s[i] != 's' && s[i] != 'p' && s[i] != 'y'
  {}

  /** The guitar reply offers 20. */
  lemma GuitarAmount(reply: string)
    requires reply == GuitarOffer
    ensures OfferAmount(reply) == Some(20)
  {
    var p, d, r := " can offer ", "20", " for that gu" + "itar, take it or leave it.";
    assert '$' !in p by { GuitarPieces(p); }
    NoDollarNoMatch("I" + p);
    assert DecimalDigits(20) == d;
    assert reply == ("I" + p) + ['$'] + d + r;
    OfferRoundTrip("I" + p, 20, r);
  }

  /** Neither the letter `c` nor its capital occurs in the guitar reply. */
  lemma GuitarLacks(reply: string, c: char)
    requires reply == GuitarOffer
    requires c == 'd' || c == 's' || c == 'p' || c == 'y'
    ensures c !in reply && (c as int - 32) as char !in reply
  {
    var p, r1, r2 := " can offer ", " for that gu", "itar, take it or leave it.";
    var u := (c as int - 32) as char;
    assert c !in p && u !in p by { GuitarPieces(p); }
    assert c !in r1 && u !in r1 by { GuitarPieces(r1); }
    assert c !in r2 && u !in r2 by { GuitarPieces(r2); }
  }

  /** The guitar reply names no deal. */
  lemma GuitarNoDeal(reply: string)
    requires reply == GuitarOffer
    ensures !IsDeal(reply)
  {
    var l := LowerAscii(reply);
    GuitarLacks(reply, 'd');
    LowerAsciiMissing(reply, 'd');
    MissingCharNotIncluded(l, "deal", 0);
    GuitarLacks(reply, 's');
    LowerAsciiMissing(reply, 's');
    MissingCharNotIncluded(l, "sold", 0);
    GuitarLacks(reply, 'p');
    LowerAsciiMissing(reply, 'p');
    MissingCharNotIncluded(l, "pleasure doing business", 0);
    GuitarLacks(reply, 'y');
    LowerAsciiMissing(reply, 'y');
    MissingCharNotIncluded(l, "you got yourself", 0);
    DealKeywordsReduce(reply);
  }

  /**
   * The first successful turn of a new session: the store keeps the user's
   * message and the reply, and the client shows both and reads the reply's
   * signals.
   */
  lemma FirstTurn(sessionId: string, userMessage: string, text: string)
    ensures var m := SessionStore.Apply(map[], SessionStore.NegotiateOp(Some(sessionId), userMessage, SessionStore.Reply(text)));
      m == map[sessionId := [UserMsg(userMessage), AssistantMsg(text)]]
    ensures var reply := ChatClient.ReplyFromServer(SessionStore.ResponseFor(SessionStore.Reply(text)));
      && ChatClient.TurnEntries(userMessage, reply)
           == [ChatClient.Entry(User, Some(userMessage)), ChatClient.Entry(Assistant, Some(text))]
      && ChatClient.AmountAfter(0, reply) == (match OfferAmount(text) case Some(v) => v case None => 0)
      && ChatClient.DealAfter(false, reply) == IsDeal(text)
  {
    var op := SessionStore.NegotiateOp(Some(sessionId), userMessage, SessionStore.Reply(text));
    SessionStore.ApplyNegotiate(map[], op);
    var h := SessionStore.AfterTurn([], userMessage, SessionStore.Reply(text));
    assert h == [UserMsg(userMessage), AssistantMsg(text)];
  }

  /**
   * "I have a guitar" on a new session, answered with the guitar offer:
   * two turns are stored, the amount shown is 20 and no deal is reached.
   */
  lemma GuitarTurn(sessionId: string, userMessage: string, text: string)
    requires userMessage == "I have a guitar" && text == GuitarOffer
    ensures var m := SessionStore.Apply(map[], SessionStore.NegotiateOp(Some(sessionId), userMessage, SessionStore.Reply(text)));
      sessionId in m && |m[sessionId]| == 2
    ensures var reply := ChatClient.ReplyFromServer(SessionStore.ResponseFor(SessionStore.Reply(text)));
      && ChatClient.AmountAfter(0, reply) == 20
      && !ChatClient.DealAfter(false, reply)
  {
    FirstTurn(sessionId, userMessage, text);
    GuitarAmount(text);
    GuitarNoDeal(text);
  }
}
