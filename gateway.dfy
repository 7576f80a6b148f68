/**
 * The mock payment gateway of the shop: the Luhn check of a card number,
 * the card payload validation, the transaction id, and the dispatch on the
 * payment method. The `Payment` row the gateway writes is returned in the
 * approval instead of being stored; the random bytes of the transaction id
 * are a parameter.
 */
module Payments {
  import opened Wrappers
  import opened Text
  import Ordered

  const CardMethod: string := "card"
  const NaverPayMethod: string := "naverpay"

  const UnsupportedMessage: string := "\U{c9c0}\U{c6d0}\U{d558}\U{c9c0} \U{c54a}\U{b294} \U{acb0}\U{c81c} \U{c218}\U{b2e8}\U{c785}\U{b2c8}\U{b2e4}."
  const CardNumberMessage: string := "\U{ce74}\U{b4dc} \U{bc88}\U{d638}\U{ac00} \U{c62c}\U{bc14}\U{b974}\U{c9c0} \U{c54a}\U{c2b5}\U{b2c8}\U{b2e4}."
  const ExpiryMessage: string := "\U{ce74}\U{b4dc} \U{c720}\U{d6a8}\U{ae30}\U{ac04}\U{c744} \U{c785}\U{b825}\U{d574} \U{c8fc}\U{c138}\U{c694}."
  const CvcMessage: string := "CVC \U{bc88}\U{d638}\U{b97c} \U{c785}\U{b825}\U{d574} \U{c8fc}\U{c138}\U{c694}."

  /** Card numbers shorter than this are rejected before the checksum. */
  const MinCardDigits: nat := 13

  // ---- the Luhn formula ----

  /** A digit in a doubled position: twice its value, less 9 when that exceeds 9. */
  function Doubled(d: nat): nat {
    if 2 * d > 9 then 2 * d - 9 else 2 * d
  }

  function Term(d: nat, dbl: bool): nat {
    if dbl then Doubled(d) else d
  }

  /**
   * The Luhn sum read from the right, as section B of ISO/IEC 7812-1 states
   * it: the rightmost digit is doubled when `doubleLast` holds, and the
   * doubling alternates leftwards from there.
   */
  function RightSum(ds: seq<nat>, doubleLast: bool): nat {
    if ds == [] then 0
    else Term(ds[|ds| - 1], doubleLast) + RightSum(ds[..|ds| - 1], !doubleLast)
  }

  /** A number passes when its Luhn sum, check digit undoubled, is a multiple of 10. */
  predicate LuhnValid(ds: seq<nat>) {
    RightSum(ds, false) % 10 == 0
  }

  /**
   * The loop's sum read from the left: the digit at index `k` is doubled
   * when `k % 2 == parity`.
   */
  function LeftSum(ds: seq<nat>, parity: nat): nat {
    if ds == [] then 0
    else LeftSum(ds[..|ds| - 1], parity) + Term(ds[|ds| - 1], (|ds| - 1) % 2 == parity)
  }

  /** Doubling the indices of the parity of `len % 2` is doubling every second digit from the right, check digit excluded. */
  lemma {:induction false} LeftSumIsRightSum(ds: seq<nat>, parity: nat)
    requires ds != [] && parity < 2
    ensures LeftSum(ds, parity) == RightSum(ds, (|ds| - 1) % 2 == parity)
  {
    var init := ds[..|ds| - 1];
    if init != [] {
      LeftSumIsRightSum(init, parity);
    }
  }

  function DigitValues(number: string): (ds: seq<nat>)
    ensures |ds| == |number|
    ensures forall k :: 0 <= k < |ds| ==> ds[k] < 10
    ensures AllDigits(number) ==> forall k :: 0 <= k < |ds| ==> ds[k] == number[k] as int - '0' as int
  {
    seq(|number|, k requires 0 <= k < |number| =>
      if IsAsciiDigit(number[k]) then number[k] as int - '0' as int else 0)
  }

  /** `_luhn_check(number)` on a string of digits. */
  method LuhnCheck(number: string) returns (ok: bool)
    requires AllDigits(number)
    ensures ok <==> LuhnValid(DigitValues(number))
  {
    var digits := DigitValues(number);
    var checksum := 0;
    var parity := |digits| % 2;
    var idx := 0;
    while idx < |digits|
      invariant 0 <= idx <= |digits|
      invariant checksum == LeftSum(digits[..idx], parity)
    {
      var digit := digits[idx];
      if idx % 2 == parity {
        digit := digit * 2;
        if digit > 9 {
          digit := digit - 9;
        }
      }
      checksum := checksum + digit;
      assert digits[..idx + 1][..idx] == digits[..idx];
      idx := idx + 1;
    }
    assert digits[..idx] == digits;
    if digits != [] {
      LeftSumIsRightSum(digits, parity);
    }
    ok := checksum % 10 == 0;
  }

  /** The digit that completes a payload: what the check digit must be. */
  function CheckDigit(payload: seq<nat>): (d: nat)
    ensures d < 10
  {
    (10 - RightSum(payload, true) % 10) % 10
  }

  /** Exactly one digit completes any payload to a valid number. */
  lemma CheckDigitUnique(payload: seq<nat>, d: nat)
    requires d < 10
    ensures LuhnValid(payload + [d]) <==> d == CheckDigit(payload)
  {
    var s := payload + [d];
    assert s[..|s| - 1] == payload;
    assert RightSum(s, false) == d + RightSum(payload, true);
  }

  /** Changing one digit changes the sum by the change of that one term. */
  lemma {:induction false} RightSumUpdate(ds: seq<nat>, doubleLast: bool, k: nat, e: nat)
    requires k < |ds|
    ensures var dbl := doubleLast == ((|ds| - 1 - k) % 2 == 0);
      RightSum(ds[k := e], doubleLast) + Term(ds[k], dbl) == RightSum(ds, doubleLast) + Term(e, dbl)
  {
    var n := |ds|;
    var ds' := ds[k := e];
    if k == n - 1 {
      assert ds'[..n - 1] == ds[..n - 1];
    } else {
      assert ds'[..n - 1] == ds[..n - 1][k := e];
      RightSumUpdate(ds[..n - 1], !doubleLast, k, e);
    }
  }

  lemma TermInjective(a: nat, b: nat, dbl: bool)
    requires a < 10 && b < 10 && a != b
    ensures Term(a, dbl) != Term(b, dbl) && Term(a, dbl) < 10 && Term(b, dbl) < 10
  {
  }

  /** The formula catches every single mistyped digit. */
  lemma SingleDigitErrorDetected(ds: seq<nat>, k: nat, e: nat)
    requires forall j :: 0 <= j < |ds| ==> ds[j] < 10
    requires k < |ds| && e < 10 && e != ds[k]
    requires LuhnValid(ds)
    ensures !LuhnValid(ds[k := e])
  {
    var dbl := false == ((|ds| - 1 - k) % 2 == 0);
    RightSumUpdate(ds, false, k, e);
    TermInjective(ds[k], e, dbl);
    ShiftBreaksMultiple(RightSum(ds, false), Term(e, dbl) - Term(ds[k], dbl));
  }

  /** A multiple of ten moved by a non-zero single-digit amount is no longer one. */
  lemma ShiftBreaksMultiple(b: int, diff: int)
    requires b % 10 == 0 && -10 < diff < 10 && diff != 0
    ensures (b + diff) % 10 != 0
  {
    var q := b / 10;
    assert b == 10 * q;
    assert (b + diff) % 10 == diff % 10;
  }

  // ---- card payload validation ----

  /**
   * The fields of the card payload the gateway reads, as text; a missing
   * field is the empty string, which is also how `payload.get` treats it.
   */
  datatype CardPayload = CardPayload(cardNumber: string, expiryMonth: string, expiryYear: string, cvc: string)

  datatype Validation = Valid | Invalid(message: string)

  /** `"".join(filter(str.isdigit, card_number))`, ASCII digits. */
  function DigitsOf(s: string): (r: string)
    ensures AllDigits(r)
  {
    Ordered.Filter(s, IsAsciiDigit)
  }

  /** `_validate_card_payload`. */
  function ValidateCardPayload(payload: CardPayload): Validation {
    var number := DigitsOf(payload.cardNumber);
    if |number| < MinCardDigits || !LuhnValid(DigitValues(number)) then Invalid(CardNumberMessage)
    else if payload.expiryMonth == "" || payload.expiryYear == "" then Invalid(ExpiryMessage)
    else if payload.cvc == "" then Invalid(CvcMessage)
    else Valid
  }

  /**
   * The checks in their order: the card number first (at least 13 digits,
   * passing Luhn, whatever else the field holds), then the expiry, then the
   * CVC; a payload passing all three is valid.
   */
  lemma ValidateCardPayloadSpec(payload: CardPayload)
    ensures var number := DigitValues(DigitsOf(payload.cardNumber));
      var v := ValidateCardPayload(payload);
      && (v == Valid <==>
            (|number| >= MinCardDigits && LuhnValid(number)
             && payload.expiryMonth != "" && payload.expiryYear != "" && payload.cvc != ""))
      && (v == Invalid(CardNumberMessage) <==> |number| < MinCardDigits || !LuhnValid(number))
      && (v == Invalid(ExpiryMessage) ==> payload.expiryMonth == "" || payload.expiryYear == "")
      && (v == Invalid(CvcMessage) ==> payload.cvc == "" && payload.expiryMonth != "" && payload.expiryYear != "")
  {
  }

  /** Separators in the card number field, spaces or dashes, are ignored. */
  lemma SeparatorIgnored(a: string, c: char, b: string)
    requires !IsAsciiDigit(c)
    ensures DigitsOf(a + [c] + b) == DigitsOf(a) + DigitsOf(b)
  {
    Ordered.FilterAppend(a + [c], b, IsAsciiDigit);
    SeparatorDropped(a, c);
  }

  lemma SeparatorDropped(a: string, c: char)
    requires !IsAsciiDigit(c)
    ensures DigitsOf(a + [c]) == DigitsOf(a)
  {
    assert (a + [c])[..|a|] == a;
  }

  // ---- the transaction id ----

  const HexDigits: string := "0123456789abcdef"

  /** A value `secrets.token_hex` draws: one byte. */
  type Byte = b: nat | b < 256

  /** `secrets.token_hex`: two lower-case hex digits per byte. */
  function TokenHex(bytes: seq<Byte>): (h: string)
    ensures |h| == 2 * |bytes|
  {
    if bytes == [] then ""
    else TokenHex(bytes[..|bytes| - 1]) + [HexDigits[bytes[|bytes| - 1] / 16], HexDigits[bytes[|bytes| - 1] % 16]]
  }

  /** The value of one upper-case hex digit. */
  function HexValue(c: char): Option<nat> {
    if '0' <= c <= '9' then Some(c as int - '0' as int)
    else if 'A' <= c <= 'F' then Some(c as int - 'A' as int + 10)
    else None
  }

  /** Reads upper-case hex text back into bytes. */
  function HexBytes(h: string): Option<seq<nat>>
    decreases |h|
  {
    if h == [] then Some([])
    else if |h| < 2 then None
    else
      var rest, hi, lo := HexBytes(h[..|h| - 2]), HexValue(h[|h| - 2]), HexValue(h[|h| - 1]);
      if rest.Some? && hi.Some? && lo.Some? then Some(rest.value + [hi.value * 16 + lo.value])
      else None
  }

  /** The settings of one payment method: `PAYMENT_SETTINGS[METHOD]`. */
  type MethodSettings = map<string, string>

  const PaymentSettings: map<string, MethodSettings> := map[
    "CARD" := map["provider" := "mock", "success_prefix" := "MC"],
    "NAVERPAY" := map["provider" := "mock", "success_prefix" := "NP"]]

  /** `settings.PAYMENT_SETTINGS.get(method.upper(), {})`. */
  function SettingsOf(settings: map<string, MethodSettings>, pm: string): MethodSettings {
    Get(settings, Upper(pm), map[])
  }

  /** The success prefix of the method, or its first two letters in upper case. */
  function Prefix(settings: map<string, MethodSettings>, pm: string): string {
    Get(SettingsOf(settings, pm), "success_prefix", Upper(PyPrefix(pm, 2)))
  }

  /** `_generate_transaction_id(method)`, the five random bytes given as `token`. */
  function TransactionId(settings: map<string, MethodSettings>, pm: string, token: seq<Byte>): string
    requires |token| == 5
  {
    Prefix(settings, pm) + "-" + Upper(TokenHex(token))
  }

  lemma UpperAppend(a: string, b: string)
    ensures Upper(a + b) == Upper(a) + Upper(b)
  {
    assert forall i :: 0 <= i < |a + b| ==> Upper(a + b)[i] == (Upper(a) + Upper(b))[i];
  }

  /** Each lower-case hex digit, upper-cased, reads back as its value. */
  lemma HexDigitValue(v: nat)
    requires v < 16
    ensures HexValue(UpperChar(HexDigits[v])) == Some(v)
  {
  }

  lemma HexBytesSnoc(h: string, x: char, y: char, bs: seq<nat>, b: Byte)
    requires HexBytes(h) == Some(bs) && HexValue(x) == Some(b / 16) && HexValue(y) == Some(b % 16)
    ensures HexBytes(h + [x, y]) == Some(bs + [b])
  {
    var t := h + [x, y];
    assert t[..|t| - 2] == h;
    DivMod16(b);
  }

  /** The transaction id's hex text, upper-cased digit by digit. */
  function UpperHex(bytes: seq<Byte>): string
  {
    if bytes == [] then ""
    else
      var b := bytes[|bytes| - 1];
      UpperHex(bytes[..|bytes| - 1]) + [UpperChar(HexDigits[b / 16]), UpperChar(HexDigits[b % 16])]
  }

  /** Upper-casing the token is upper-casing each of its digits. */
  lemma {:induction false} UpperTokenHex(bytes: seq<Byte>)
    ensures Upper(TokenHex(bytes)) == UpperHex(bytes)
  {
    if bytes != [] {
      var init, b := bytes[..|bytes| - 1], bytes[|bytes| - 1];
      UpperTokenHex(init);
      UpperTokenSnoc(init, b);
      assert init + [b] == bytes;
    }
  }

  /** The upper-case hex of the random bytes reads back as those bytes. */
  lemma HexRoundTrip(bytes: seq<Byte>)
    ensures HexBytes(Upper(TokenHex(bytes))) == Some(bytes)
  {
    UpperTokenHex(bytes);
    UpperHexRoundTrip(bytes);
  }

  lemma {:induction false} UpperHexRoundTrip(bytes: seq<Byte>)
    ensures HexBytes(UpperHex(bytes)) == Some(bytes)
  {
    if bytes != [] {
      var init, b := bytes[..|bytes| - 1], bytes[|bytes| - 1];
      UpperHexRoundTrip(init);
      HexStep(init, b);
      assert init + [b] == bytes;
    }
  }

  /** One more byte: its two digits read back as it. */
  lemma HexStep(init: seq<Byte>, b: Byte)
    requires HexBytes(UpperHex(init)) == Some(init)
    ensures HexBytes(UpperHex(init + [b])) == Some(init + [b])
  {
    var x, y := UpperChar(HexDigits[b / 16]), UpperChar(HexDigits[b % 16]);
    UpperHexSnoc(init, b);
    HexDigitValue(b / 16);
    HexDigitValue(b % 16);
    HexBytesSnoc(UpperHex(init), x, y, init, b);
  }

  lemma UpperHexSnoc(init: seq<Byte>, b: Byte)
    ensures UpperHex(init + [b]) == UpperHex(init) + [UpperChar(HexDigits[b / 16]), UpperChar(HexDigits[b % 16])]
  {
    assert (init + [b])[..|init|] == init;
  }

  lemma DivMod16(b: nat)
    ensures (b / 16) * 16 + b % 16 == b && b % 16 < 16
  {
  }

  /** The upper-cased hex of one more byte is that of the others and its two digits. */
  lemma UpperTokenSnoc(init: seq<Byte>, b: Byte)
    ensures Upper(TokenHex(init + [b]))
      == Upper(TokenHex(init)) + [UpperChar(HexDigits[b / 16]), UpperChar(HexDigits[b % 16])]
  {
    var pair := [HexDigits[b / 16], HexDigits[b % 16]];
    assert (init + [b])[..|init|] == init;
    TokenHexSnoc(init, b);
    UpperAppend(TokenHex(init), pair);
    UpperPair(HexDigits[b / 16], HexDigits[b % 16]);
  }

  lemma TokenHexSnoc(init: seq<Byte>, b: Byte)
    ensures TokenHex(init + [b]) == TokenHex(init) + [HexDigits[b / 16], HexDigits[b % 16]]
  {
    assert (init + [b])[..|init|] == init;
  }

  lemma UpperPair(x: char, y: char)
    ensures Upper([x, y]) == [UpperChar(x), UpperChar(y)]
  {
  }

  /**
   * The id is the prefix, a dash, and ten upper-case hex digits that read
   * back as the random bytes; the prefix is the configured one, else the
   * method's first two letters.
   */
  lemma TransactionIdSpec(settings: map<string, MethodSettings>, pm: string, token: seq<Byte>)
    requires |token| == 5
    ensures var id := TransactionId(settings, pm, token);
      var p := Prefix(settings, pm);
      && StartsWith(id, p + "-") && |id| == |p| + 11
      && HexBytes(id[|p| + 1..]) == Some(token)
    ensures "success_prefix" in SettingsOf(settings, pm) ==>
      Prefix(settings, pm) == SettingsOf(settings, pm)["success_prefix"]
    ensures "success_prefix" !in SettingsOf(settings, pm) ==>
      Prefix(settings, pm) == Upper(PyPrefix(pm, 2))
  {
    var id := TransactionId(settings, pm, token);
    var p := Prefix(settings, pm);
    assert id[|p| + 1..] == Upper(TokenHex(token));
    assert id[..|p| + 1] == p + "-";
    HexRoundTrip(token);
  }

  /** With the shop's settings, card ids start "MC-" and Naver Pay ids "NP-". */
  lemma ShopPrefixes()
    ensures Prefix(PaymentSettings, CardMethod) == "MC"
    ensures Prefix(PaymentSettings, NaverPayMethod) == "NP"
  {
    assert Upper(CardMethod) == "CARD";
    assert Upper(NaverPayMethod) == "NAVERPAY";
  }

  // ---- process ----

  /** What a successful payment records for the order: method, amount, transaction id, processor and the raw payload. */
  datatype Approval = Approval(payMethod: string, amount: int, transactionId: string, processor: string, payload: CardPayload)

  /** `PaymentGateway.process`: the lower-cased method decides the path. */
  function Process(pm: Option<string>, orderTotal: int, payload: CardPayload, settings: map<string, MethodSettings>,
                   token: seq<Byte>): Result<Approval, string>
    requires |token| == 5
  {
    var m := Lower(pm.GetOr(""));
    if m != CardMethod && m != NaverPayMethod then Err(UnsupportedMessage)
    else if m == CardMethod && ValidateCardPayload(payload).Invalid? then Err(ValidateCardPayload(payload).message)
    else Ok(Approval(m, orderTotal, TransactionId(settings, m, token), Get(SettingsOf(settings, m), "provider", "mock"), payload))
  }

  /**
   * Unknown methods fail with the unsupported-method message and nothing is
   * approved; a card is approved exactly when its payload is valid, with the
   * validation message otherwise; Naver Pay is approved without validation.
   */
  lemma ProcessSpec(pm: Option<string>, orderTotal: int, payload: CardPayload, settings: map<string, MethodSettings>,
                    token: seq<Byte>)
    requires |token| == 5
    ensures var m := Lower(pm.GetOr("")); var r := Process(pm, orderTotal, payload, settings, token);
      && (m != CardMethod && m != NaverPayMethod ==> r == Err(UnsupportedMessage))
      && (m == CardMethod ==> (r.Ok? <==> ValidateCardPayload(payload) == Valid))
      && (m == CardMethod && ValidateCardPayload(payload).Invalid? ==> r == Err(ValidateCardPayload(payload).message))
      && (m == NaverPayMethod ==> r.Ok?)
      && (r.Ok? ==> r.value.payMethod == m && r.value.amount == orderTotal && r.value.transactionId == TransactionId(settings, m, token))
  {
  }

  /** The method is matched without regard to case. */
  lemma MethodCaseIgnored(orderTotal: int, payload: CardPayload, token: seq<Byte>)
    requires |token| == 5
    ensures Process(Some("NaverPay"), orderTotal, payload, PaymentSettings, token).Ok?
    ensures Process(Some("paypal"), orderTotal, payload, PaymentSettings, token) == Err(UnsupportedMessage)
    ensures Process(None, orderTotal, payload, PaymentSettings, token) == Err(UnsupportedMessage)
  {
    assert Lower("NaverPay") == NaverPayMethod;
    assert Lower("paypal") == "paypal";
    assert Lower("") == "";
  }
}
