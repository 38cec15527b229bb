/**
 * The signals the client reads out of each reply (frontend/src/App.jsx,
 * `handleTranscript`): the offer amount captured by `/\$(\d+)/` and read by
 * `parseInt`, and whether the reply names one of the deal keywords.
 */
module Signals {
  import opened Messages
  import opened JsText

  /** `\d` without the `u` flag: an ASCII decimal digit. */
  predicate IsDigit(c: char) {
    '0' <= c <= '9'
  }

  predicate AllDigits(d: string) {
    forall i :: 0 <= i < |d| ==> IsDigit(d[i])
  }

  function DigitValue(c: char): (v: nat)
    requires IsDigit(c)
    ensures v < 10
  {
    c as int - '0' as int
  }

  function DigitChar(v: nat): (c: char)
    requires v < 10
    ensures IsDigit(c) && DigitValue(c) == v
  {
    ('0' as int + v) as char
  }

  /** `\d+` taken greedily: the longest run of digits at the front of `s`. */
  function LeadingDigits(s: string): (r: string)
    ensures |r| <= |s| && r == s[..|r|]
    ensures AllDigits(r)
    ensures |r| < |s| ==> !IsDigit(s[|r|])
  {
    if s != [] && IsDigit(s[0]) then [s[0]] + LeadingDigits(s[1..]) else []
  }

  /** A match of `\$(\d+)` starts at `i`: a `$` immediately followed by a digit. */
  predicate DollarAt(s: string, i: int) {
    0 <= i && i + 1 < |s| && s[i] == '$' && IsDigit(s[i + 1])
  }

  /** The leftmost position at or after `from` where a match starts. */
  function FirstDollar(s: string, from: nat): (r: Option<nat>)
    requires from <= |s|
    decreases |s| - from
    ensures r.Some? ==> from <= r.value && DollarAt(s, r.value)
    ensures r.Some? ==> forall j :: from <= j < r.value ==> !DollarAt(s, j)
    ensures r.None? ==> forall j :: from <= j < |s| ==> !DollarAt(s, j)
  {
    if from == |s| then None
    else if DollarAt(s, from) then Some(from)
    else FirstDollar(s, from + 1)
  }

  /** `parseInt` of a digit run: its base-10 value (leading zeros allowed). */
  function DecimalValue(d: string): nat
    requires AllDigits(d)
  {
    if d == [] then 0 else 10 * DecimalValue(d[..|d| - 1]) + DigitValue(d[|d| - 1])
  }

  /** The shortest decimal numeral of `n`. */
  function DecimalDigits(n: nat): (d: string)
    ensures |d| > 0 && AllDigits(d)
  {
    if n < 10 then [DigitChar(n)] else DecimalDigits(n / 10) + [DigitChar(n % 10)]
  }

  /** Reading a numeral gives back the number it was written from. */
  lemma {:induction false} DecimalRoundTrip(n: nat)
    ensures DecimalValue(DecimalDigits(n)) == n
  {
    if n >= 10 {
      DecimalRoundTrip(n / 10);
      var d := DecimalDigits(n);
      assert d[..|d| - 1] == DecimalDigits(n / 10);
    }
  }

  /**
   * `aiText.match(/\$(\d+)/)` and then `parseInt(dollarMatch[1])`: the value
   * of the digit run after the leftmost `$` that is followed by a digit, or
   * nothing when there is no such `$`.
   */
  function OfferAmount(reply: string): (r: Option<nat>)
    ensures r.Some? <==> exists i :: DollarAt(reply, i)
  {
    match FirstDollar(reply, 0)
    case None => None
    case Some(i) => Some(DecimalValue(LeadingDigits(reply[i + 1..])))
  }

  /** The leftmost match decides the amount; later dollar figures are ignored. */
  lemma {:induction false} OfferAmountAt(reply: string, i: nat)
    requires DollarAt(reply, i)
    requires forall j :: 0 <= j < i ==> !DollarAt(reply, j)
    ensures OfferAmount(reply) == Some(DecimalValue(LeadingDigits(reply[i + 1..])))
  {
    var r := FirstDollar(reply, 0);
    assert r.Some?;
    assert !(r.value < i) && !(i < r.value);
  }

  /** A digit run is not lengthened by a tail that does not start with a digit. */
  lemma {:induction false} LeadingDigitsStop(t: string, rest: string)
    requires rest == [] || !IsDigit(rest[0])
    ensures LeadingDigits(t + rest) == LeadingDigits(t)
  {
    if t != [] {
      assert (t + rest)[1..] == t[1..] + rest;
      LeadingDigitsStop(t[1..], rest);
    } else {
      assert t + rest == rest;
    }
  }

  /**
   * After text that holds no match, a `$` followed by a digit run is the
   * match: the amount is read from the digits right after it.
   */
  lemma {:induction false} OfferAfterPlainText(prefix: string, t: string)
    requires forall j :: !DollarAt(prefix, j)
    requires t != [] && IsDigit(t[0])
    ensures OfferAmount(prefix + ['$'] + t) == Some(DecimalValue(LeadingDigits(t)))
  {
    var s := prefix + ['$'] + t;
    var i := |prefix|;
    assert s[i] == '$' && s[i + 1] == t[0];
    forall j | 0 <= j < i ensures !DollarAt(s, j) {
      if j + 1 < i {
        assert !DollarAt(prefix, j);
      }
    }
    OfferAmountAt(s, i);
    assert s[i + 1..] == t;
  }

  /**
   * Writing `$n` after text that holds no match, and before text that does
   * not continue the numeral, is read back as exactly `n`.
   */
  lemma {:induction false} OfferRoundTrip(prefix: string, n: nat, rest: string)
    requires forall j :: !DollarAt(prefix, j)
    requires rest == [] || !IsDigit(rest[0])
    ensures OfferAmount(prefix + ['$'] + DecimalDigits(n) + rest) == Some(n)
  {
    var d := DecimalDigits(n);
    assert prefix + ['$'] + d + rest == prefix + ['$'] + (d + rest);
    OfferAfterPlainText(prefix, d + rest);
    LeadingDigitsStop(d, rest);
    assert LeadingDigits(d) == d;
    DecimalRoundTrip(n);
  }

  /** A prefix free of `$` holds no offer match. */
  lemma NoDollarNoMatch(s: string)
    requires '$' !in s
    ensures forall j :: !DollarAt(s, j)
  {
    forall j | 0 <= j < |s| ensures s[j] != '$' {
      assert s[j] in s;
    }
  }

  /** Whether a match starts at `j` does not depend on text appended after `j + 1`. */
  lemma DollarAtExtend(s: string, rest: string, j: int)
    requires 0 <= j && j + 1 < |s|
    ensures DollarAt(s + rest, j) == DollarAt(s, j)
  {
    assert (s + rest)[j] == s[j] && (s + rest)[j + 1] == s[j + 1];
  }

  /** The leftmost match of `s` stays the leftmost match of any extension of `s`. */
  lemma {:induction false} FirstMatchKept(s: string, rest: string, i: nat)
    requires DollarAt(s, i)
    requires forall j :: 0 <= j < i ==> !DollarAt(s, j)
    ensures OfferAmount(s + rest) == Some(DecimalValue(LeadingDigits(s[i + 1..] + rest)))
  {
    var t := s + rest;
    DollarAtExtend(s, rest, i);
    forall j | 0 <= j < i ensures !DollarAt(t, j) {
      DollarAtExtend(s, rest, j);
    }
    OfferAmountAt(t, i);
    assert t[i + 1..] == s[i + 1..] + rest;
  }

  /** Appending text that does not continue the matched numeral keeps the amount. */
  lemma {:induction false} LaterFiguresIgnored(s: string, rest: string)
    requires OfferAmount(s).Some?
    requires rest == [] || !IsDigit(rest[0])
    ensures OfferAmount(s + rest) == OfferAmount(s)
  {
    var i := FirstDollar(s, 0).value;
    FirstMatchKept(s, rest, i);
    LeadingDigitsStop(s[i + 1..], rest);
  }

  /** `dealKeywords`, in the order `some` tries them. */
  const DealKeywords: seq<string> :=
    ["deal", "sold", "pleasure doing business", "you got yourself", "we have a deal"]

  /** `keywords.some(k => s.includes(k))`. */
  predicate AnyIncluded(s: string, keywords: seq<string>) {
    keywords != [] && (Includes(s, keywords[0]) || AnyIncluded(s, keywords[1..]))
  }

  lemma {:induction false} AnyIncludedMeans(s: string, keywords: seq<string>)
    ensures AnyIncluded(s, keywords) <==> exists j :: 0 <= j < |keywords| && Includes(s, keywords[j])
  {
    if keywords != [] {
      AnyIncludedMeans(s, keywords[1..]);
      if j :| 0 <= j < |keywords| && Includes(s, keywords[j]) {
        if j > 0 {
          assert keywords[1..][j - 1] == keywords[j];
        }
      }
    }
  }

  /** The deal check: some keyword occurs in the lower-cased reply. */
  predicate IsDeal(reply: string) {
    AnyIncluded(LowerAscii(reply), DealKeywords)
  }

  /** A deal is detected exactly when one of the keywords is a substring of the lower-cased reply. */
  lemma IsDealMeans(reply: string)
    ensures IsDeal(reply) <==> exists k :: k in DealKeywords && Includes(LowerAscii(reply), k)
  {
    var l := LowerAscii(reply);
    AnyIncludedMeans(l, DealKeywords);
    if IsDeal(reply) {
      var j :| 0 <= j < |DealKeywords| && Includes(l, DealKeywords[j]);
      assert DealKeywords[j] in DealKeywords;
    }
    if k :| k in DealKeywords && Includes(l, k) {
      var j :| 0 <= j < |DealKeywords| && DealKeywords[j] == k;
    }
  }

  /**
   * "we have a deal" contains "deal", so the last keyword never decides
   * anything: the check is the same as testing the first four.
   */
  lemma DealKeywordsReduce(reply: string)
    ensures var l := LowerAscii(reply);
      IsDeal(reply) <==>
        Includes(l, "deal") || Includes(l, "sold") || Includes(l, "pleasure doing business") || Includes(l, "you got yourself")
  {
    var l := LowerAscii(reply);
    AnyIncludedMeans(l, DealKeywords);
    if IsDeal(reply) {
      var j :| 0 <= j < |DealKeywords| && Includes(l, DealKeywords[j]);
      if j == 4 {
        IncludesPiece(l, "we have a deal", 10, 14);
        assert "we have a deal"[10..14] == "deal";
      }
    } else {
      assert !Includes(l, DealKeywords[0]) && !Includes(l, DealKeywords[1]);
      assert !Includes(l, DealKeywords[2]) && !Includes(l, DealKeywords[3]);
    }
  }

  /** Any spelling of "deal", in any mix of upper and lower case, counts as a deal. */
  lemma DealInAnyCase(reply: string, w: string)
    requires LowerAscii(w) == "deal"
    requires Includes(reply, w)
    ensures IsDeal(reply)
  {
    IncludesLowered(reply, w);
    DealKeywordsReduce(reply);
  }
}
