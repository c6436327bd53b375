/** The amount on its way to VNPAY and back. */
module Vnpay {
  import opened Width
  import opened CheckoutHash

  /** strconv.FormatInt of a non-negative number. */
  function FormatInt(n: nat): string {
    Decimal(n)
  }

  function Value(digits: string): nat
    requires Digits(digits)
  {
    if digits == "" then 0
    else Value(digits[..|digits| - 1]) * 10 + (digits[|digits| - 1] - '0') as nat
  }

  /** strconv.ParseInt in base 10 with 64 bits: an optional sign and at least one digit. */
  function ParseInt(s: string): Option<int64> {
    var negative := s != "" && s[0] == '-';
    var digits := if s != "" && (s[0] == '-' || s[0] == '+') then s[1..] else s;
    if digits == "" || !Digits(digits) then None
    else
      var magnitude: int := Value(digits);
      var n := if negative then -magnitude else magnitude;
      if -MAX_INT64 - 1 <= n <= MAX_INT64 then Some(n) else None
  }

  lemma {:induction false} ValueOfDecimal(n: nat)
    ensures Value(Decimal(n)) == n
  {
    var s := Decimal(n);
    if n >= 10 {
      ValueOfDecimal(n / 10);
      assert s[..|s| - 1] == Decimal(n / 10);
    } else {
      assert s[..|s| - 1] == "";
    }
    assert s[|s| - 1] == '0' + (n % 10) as char;
  }

  /** CreateCheckoutURL: the amount in hundredths, in int64 arithmetic behind its guard. */
  function UrlAmount(amountVND: int64): Option<string> {
    if amountVND <= 0 || amountVND > MAX_INT64 / 100 then None
    else if Wrap64(amountVND * 100) < 0 then None
    else Some(FormatInt(Wrap64(amountVND * 100)))
  }

  /** VerifyIPN: the amount of a callback. */
  function CallbackAmount(text: string): Option<int64> {
    match ParseInt(text)
    case None => None
    case Some(amount) => if amount <= 0 || amount % 100 != 0 then None else Some(amount / 100)
  }

  /** A text without digits, or with anything but digits after an optional sign, is no number. */
  lemma NoNumber(text: string)
    requires var digits := if text != "" && (text[0] == '+' || text[0] == '-') then text[1..] else text;
      |digits| == 0 || exists i :: 0 <= i < |digits| && !('0' <= digits[i] <= '9')
    ensures ParseInt(text).None? && CallbackAmount(text).None?
  {
  }

  lemma ParseSigned(sign: char, digits: string)
    requires (sign == '+' || sign == '-') && digits != "" && Digits(digits)
    ensures var magnitude := Value(digits);
      var r := ParseInt([sign] + digits);
      && (r.Some? <==> magnitude <= if sign == '-' then MAX_INT64 + 1 else MAX_INT64)
      && (r.Some? ==> r.value == if sign == '-' then 0 - magnitude else magnitude)
  {
    assert ([sign] + digits)[1..] == digits;
  }

  lemma ParseUnsigned(digits: string)
    requires digits != "" && Digits(digits)
    ensures (ParseInt(digits).Some? <==> Value(digits) <= MAX_INT64) && (ParseInt(digits).Some? ==> ParseInt(digits).value == Value(digits))
  {
    assert '0' <= digits[0] <= '9';
  }

  /** A printed number is read with or without a sign before it, and not at all if it does not fit an int64. */
  lemma ParsesPrinted(n: nat)
    ensures (ParseInt(Decimal(n)).Some? <==> n <= MAX_INT64) && (ParseInt(Decimal(n)).Some? ==> ParseInt(Decimal(n)).value == n)
    ensures ParseInt(['+'] + Decimal(n)) == ParseInt(Decimal(n))
    ensures var r := ParseInt(['-'] + Decimal(n)); (r.Some? <==> n <= MAX_INT64 + 1) && (r.Some? ==> r.value == 0 - n)
  {
    ValueOfDecimal(n);
    ParseUnsigned(Decimal(n));
    ParseSigned('+', Decimal(n));
    ParseSigned('-', Decimal(n));
  }

  /** An amount is read from exactly the numbers that are a hundred times it. */
  lemma CallbackExactly(text: string, amountVND: int64)
    ensures CallbackAmount(text) == Some(amountVND) <==> amountVND > 0 && ParseInt(text).Some? && ParseInt(text).value == amountVND * 100
  {
  }

  /** The guard stops exactly the amounts whose hundredths do not fit an int64, and a callback that
      echoes the amount of the URL is read back as the amount itself. */
  lemma AmountRoundTrip(amountVND: int64)
    ensures UrlAmount(amountVND).Some? <==> 0 < amountVND && amountVND * 100 <= MAX_INT64
    ensures UrlAmount(amountVND).Some? ==> CallbackAmount(UrlAmount(amountVND).value) == Some(amountVND)
  {
    if 0 < amountVND && amountVND * 100 <= MAX_INT64 {
      assert UrlAmount(amountVND) == Some(Decimal(amountVND * 100));
      ParsesPrinted(amountVND * 100);
      CallbackExactly(Decimal(amountVND * 100), amountVND);
    }
  }

  /** Two amounts are never asked for by the same URL text. */
  lemma AmountInjective(a: int64, b: int64)
    requires UrlAmount(a).Some? && UrlAmount(a) == UrlAmount(b)
    ensures a == b
  {
    AmountRoundTrip(a);
    AmountRoundTrip(b);
  }
}
