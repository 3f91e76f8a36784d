/** The message a delegated admin key signs, and a parser that recovers the request from it. */
module DelegatedMessage {
  import opened Host

  /** `target` and `action` are the texts of an address and of a symbol. */
  datatype Request = Request(target: string, action: string, nonce: u64, expiry: u64)

  const PREFIX := "allowlist-delegated-v1:"

  // ---- Decimal numerals ------------------------------------------------------------------------------------

  function Digit(d: nat): char
    requires d < 10
  {
    '0' + d as char
  }

  function Decimal(n: nat): string {
    if n < 10 then [Digit(n)] else Decimal(n / 10) + [Digit(n % 10)]
  }

  predicate AllDigits(s: string) {
    forall i :: 0 <= i < |s| ==> '0' <= s[i] <= '9'
  }

  /** Digits only, at least one, and no leading zero. */
  predicate IsNumeral(s: string) {
    AllDigits(s) && |s| >= 1 && (|s| > 1 ==> s[0] != '0')
  }

  function Value(s: string): nat
    requires AllDigits(s)
  {
    if s == [] then 0 else Value(s[..|s| - 1]) * 10 + (s[|s| - 1] - '0') as nat
  }

  lemma {:induction false} DecimalIsNumeral(n: nat)
    ensures IsNumeral(Decimal(n)) && Value(Decimal(n)) == n
    ensures n > 0 ==> Decimal(n)[0] != '0'
  {
    if n < 10 {
      assert Decimal(n)[..0] == [];
    } else {
      DecimalIsNumeral(n / 10);
      assert Decimal(n)[..|Decimal(n)| - 1] == Decimal(n / 10);
    }
  }

  lemma {:induction false} NumeralIsDecimal(s: string)
    requires IsNumeral(s)
    ensures Decimal(Value(s)) == s
    ensures s[0] != '0' ==> Value(s) > 0
  {
    var head, last := s[..|s| - 1], s[|s| - 1];
    assert s == head + [last];
    if head != [] {
      NumeralIsDecimal(head);
      assert Value(s) / 10 == Value(head) && Value(s) % 10 == (last - '0') as nat;
    }
  }

  // ---- Printing and parsing --------------------------------------------------------------------------------

  function Message(r: Request): string {
    PREFIX + r.target + ":" + r.action + ":" + Decimal(r.nonce) + ":" + Decimal(r.expiry)
  }

  predicate ColonFree(s: string) {
    ':' !in s
  }

  predicate WellFormed(r: Request) {
    ColonFree(r.target) && ColonFree(r.action)
  }

  /** The text before the first ':' and the text after it. */
  function Split(s: string): Option<(string, string)> {
    if s == [] then None
    else if s[0] == ':' then Some(([], s[1..]))
    else
      match Split(s[1..])
      case None => None
      case Some((head, tail)) => Some(([s[0]] + head, tail))
  }

  function ParseNumber(s: string): Option<u64> {
    if IsNumeral(s) && Value(s) <= MAX_U64 then Some(Value(s)) else None
  }

  function Parse(s: string): Option<Request> {
    if !(PREFIX <= s) then None
    else
      match Split(s[|PREFIX|..])
      case None => None
      case Some((target, rest)) =>
        match Split(rest)
        case None => None
        case Some((action, numbers)) =>
          match Split(numbers)
          case None => None
          case Some((nonceText, expiryText)) =>
            var nonce, expiry := ParseNumber(nonceText), ParseNumber(expiryText);
            if nonce.None? || expiry.None? then None else Some(Request(target, action, nonce.value, expiry.value))
  }

  method DelegatedActionMessage(target: string, action: string, nonce: u64, expiry: u64) returns (message: string)
    ensures message == Message(Request(target, action, nonce, expiry))
  {
    message := [];
    message := message + PREFIX;
    message := message + target;
    message := message + [':'];
    message := message + action;
    message := message + [':'];
    var nonceText := Decimal(nonce);
    message := message + nonceText;
    message := message + [':'];
    var expiryText := Decimal(expiry);
    message := message + expiryText;
  }

  // ---- Round trips -----------------------------------------------------------------------------------------

  lemma {:induction false} SplitMeaning(s: string, head: string, tail: string)
    ensures Split(s) == Some((head, tail)) <==> ColonFree(head) && s == head + ":" + tail
  {
    if s == [] {
    } else if s[0] == ':' {
      assert head != [] ==> (head + ":" + tail)[0] == head[0];
      if ColonFree(head) && s == head + ":" + tail {
        assert s[1..] == tail;
      }
    } else {
      if head != [] {
        SplitMeaning(s[1..], head[1..], tail);
        assert head == [head[0]] + head[1..];
        assert s == [s[0]] + s[1..];
        assert s == head + ":" + tail <==> s[0] == head[0] && s[1..] == head[1..] + ":" + tail;
      } else {
        assert (head + ":" + tail)[0] == ':';
      }
      if Split(s[1..]).Some? {
        SplitMeaning(s[1..], Split(s[1..]).value.0, Split(s[1..]).value.1);
      }
    }
  }

  lemma NumberMeaning(s: string, n: u64)
    ensures ParseNumber(s) == Some(n) <==> s == Decimal(n)
    ensures ColonFree(Decimal(n))
  {
    DecimalIsNumeral(n);
    if IsNumeral(s) {
      NumeralIsDecimal(s);
    }
  }

  lemma MessageParses(r: Request)
    requires WellFormed(r)
    ensures Parse(Message(r)) == Some(r)
  {
    hide Split, ParseNumber, Decimal;
    var tail3 := Decimal(r.expiry);
    var tail2 := Decimal(r.nonce) + ":" + tail3;
    var tail1 := r.action + ":" + tail2;
    NumberMeaning(Decimal(r.nonce), r.nonce);
    NumberMeaning(tail3, r.expiry);
    SplitMeaning(tail2, Decimal(r.nonce), tail3);
    SplitMeaning(tail1, r.action, tail2);
    SplitMeaning(r.target + ":" + tail1, r.target, tail1);
    assert Message(r) == PREFIX + (r.target + ":" + tail1);
    assert Message(r)[|PREFIX|..] == r.target + ":" + tail1;
  }

  lemma ParsedIsMessage(s: string, r: Request)
    requires Parse(s) == Some(r)
    ensures WellFormed(r) && s == Message(r)
  {
    hide Split, ParseNumber, Decimal;
    var body := s[|PREFIX|..];
    var (target, rest) := Split(body).value;
    var (action, numbers) := Split(rest).value;
    var (nonceText, expiryText) := Split(numbers).value;
    SplitMeaning(body, target, rest);
    SplitMeaning(rest, action, numbers);
    SplitMeaning(numbers, nonceText, expiryText);
    NumberMeaning(nonceText, r.nonce);
    NumberMeaning(expiryText, r.expiry);
    assert s == PREFIX + body;
  }

  /** The parser inverts the printer on both sides: a text parses to `r` exactly when it is the message of `r` and
      the texts of `r` are free of ':'. */
  lemma ParseInvertsMessage(s: string, r: Request)
    ensures Parse(s) == Some(r) <==> WellFormed(r) && s == Message(r)
  {
    if Parse(s) == Some(r) {
      ParsedIsMessage(s, r);
    } else if WellFormed(r) {
      MessageParses(r);
    }
  }

  // ---- Distinct requests have distinct messages ------------------------------------------------------------

  /** The last ':' of a text ending in a ':'-free part is where it is. */
  lemma LastColonIsUnique(x: string, d: string, y: string, e: string)
    requires ColonFree(d) && ColonFree(e) && x + ":" + d == y + ":" + e
    ensures x == y && d == e
  {
    assert (x + ":" + d)[|x|] == ':' && (y + ":" + e)[|y|] == ':';
    assert |x| == |y|;
    assert x == (x + ":" + d)[..|x|] && y == (y + ":" + e)[..|y|];
    assert d == (x + ":" + d)[|x| + 1..] && e == (y + ":" + e)[|y| + 1..];
  }

  /** Two requests, whatever their texts, share a message exactly when their numbers agree and the joined texts of
      target and action do. */
  lemma SharedMessageExactlyWhen(q: Request, r: Request)
    ensures Message(q) == Message(r) <==>
      q.nonce == r.nonce && q.expiry == r.expiry && q.target + ":" + q.action == r.target + ":" + r.action
  {
    NumberMeaning(Decimal(q.nonce), q.nonce);
    NumberMeaning(Decimal(q.expiry), q.expiry);
    NumberMeaning(Decimal(r.nonce), r.nonce);
    NumberMeaning(Decimal(r.expiry), r.expiry);
    var qTexts, rTexts := q.target + ":" + q.action, r.target + ":" + r.action;
    var qHead, rHead := PREFIX + qTexts + ":" + Decimal(q.nonce), PREFIX + rTexts + ":" + Decimal(r.nonce);
    assert Message(q) == qHead + ":" + Decimal(q.expiry);
    assert Message(r) == rHead + ":" + Decimal(r.expiry);
    if Message(q) == Message(r) {
      LastColonIsUnique(qHead, Decimal(q.expiry), rHead, Decimal(r.expiry));
      LastColonIsUnique(PREFIX + qTexts, Decimal(q.nonce), PREFIX + rTexts, Decimal(r.nonce));
      assert qTexts == (PREFIX + qTexts)[|PREFIX|..] && rTexts == (PREFIX + rTexts)[|PREFIX|..];
      DecimalIsInjective(q.nonce, r.nonce);
      DecimalIsInjective(q.expiry, r.expiry);
    }
  }

  lemma DecimalIsInjective(m: nat, n: nat)
    requires Decimal(m) == Decimal(n)
    ensures m == n
  {
    DecimalIsNumeral(m);
    DecimalIsNumeral(n);
  }

  /** The alphabet of address texts: upper-case letters and the digits 2 to 7. */
  predicate IsAddressText(s: string) {
    forall c :: c in s ==> 'A' <= c <= 'Z' || '2' <= c <= '7'
  }

  /** The alphabet of symbols: letters, digits and the underscore. */
  predicate IsSymbolText(s: string) {
    forall c :: c in s ==> 'a' <= c <= 'z' || 'A' <= c <= 'Z' || '0' <= c <= '9' || c == '_'
  }

  /** Distinct requests never share a message: the parser recovers every request made of an address and a symbol. */
  lemma MessagesAreDistinct(q: Request, r: Request)
    requires IsAddressText(q.target) && IsSymbolText(q.action) && IsAddressText(r.target) && IsSymbolText(r.action)
    ensures Parse(Message(q)) == Some(q)
    ensures Message(q) == Message(r) ==> q == r
  {
    assert WellFormed(q) && WellFormed(r);
    ParseInvertsMessage(Message(q), q);
    ParseInvertsMessage(Message(r), r);
  }

  // ---- The text itself -------------------------------------------------------------------------------------

  /** Every message opens with the protocol's name and version, and a request prints like this one. */
  lemma MessageText(q: Request)
    ensures "allowlist-delegated-v1:" <= Message(q)
    ensures Message(Request("GATE", "pause", 907, 10)) == "allowlist-delegated-v1:GATE:pause:907:10"
  {
    hide Decimal;
    DecimalText();
  }

  lemma DecimalText()
    ensures Decimal(907) == "907" && Decimal(10) == "10"
  {
    assert Decimal(90) == "90";
  }
}
