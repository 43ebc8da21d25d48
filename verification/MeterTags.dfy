/** Tags of metering outbounds: building them, and reading inbound and domain back out of them. */
module MeterTags {
  import opened Collections

  const PREFIX := "a-ui-meter-"
  const MAX_INT := 0x7FFF_FFFF_FFFF_FFFF

  predicate IsDigit(c: char) {
    '0' <= c <= '9'
  }

  predicate AllDigits(s: string) {
    forall c <- s :: IsDigit(c)
  }

  function Digit(k: nat): (c: char)
    requires k < 10
    ensures IsDigit(c)
  {
    (k + '0' as int) as char
  }

  function DigitOf(c: char): (k: nat)
    requires IsDigit(c)
    ensures k < 10 && Digit(k) == c
  {
    c as int - '0' as int
  }

  function Decimal(n: nat): (s: string)
    ensures s != [] && AllDigits(s)
    ensures n > 0 ==> s[0] != '0'
  {
    if n < 10 then [Digit(n)] else Decimal(n / 10) + [Digit(n % 10)]
  }

  function Itoa(n: int): string {
    if n < 0 then "-" + Decimal(0 - n) else Decimal(n)
  }

  function DigitsValue(s: string): nat
    requires AllDigits(s)
  {
    if s == [] then 0 else 10 * DigitsValue(s[..|s| - 1]) + DigitOf(s[|s| - 1])
  }

  /** Decimal with an optional sign; empty digits, foreign characters and values outside the machine word fail. */
  function Atoi(s: string): Option<int> {
    var negative := s != [] && s[0] == '-';
    var digits := if s != [] && (s[0] == '-' || s[0] == '+') then s[1..] else s;
    if digits == [] || !AllDigits(digits) then None
    else
      var value: int := if negative then -(DigitsValue(digits) as int) else DigitsValue(digits);
      if -MAX_INT - 1 <= value <= MAX_INT then Some(value) else None
  }

  function MeterTag(inboundId: int, domain: string): string {
    PREFIX + Itoa(inboundId) + "-" + domain
  }

  predicate HasPrefix(s: string, prefix: string) {
    |prefix| <= |s| && s[..|prefix|] == prefix
  }

  predicate IsMeterTag(tag: string) {
    HasPrefix(tag, PREFIX)
  }

  /** The position of the first dash, or the length when there is none. */
  function FirstDash(s: string): (i: nat)
    ensures i <= |s| && '-' !in s[..i] && (i < |s| ==> s[i] == '-')
  {
    if s == [] || s[0] == '-' then 0
    else
      var i := FirstDash(s[1..]);
      assert s[..1 + i] == [s[0]] + s[1..][..i];
      1 + i
  }

  function ParseMeterTag(tag: string): Option<(int, string)> {
    if !HasPrefix(tag, PREFIX) then None
    else
      var rest := tag[|PREFIX|..];
      var i := FirstDash(rest);
      if i == |rest| || i == 0 || i + 1 == |rest| then None
      else
        match Atoi(rest[..i])
        case None => None
        case Some(id) => if id <= 0 then None else Some((id, rest[i + 1..]))
  }

  lemma DigitRoundTrip(k: nat)
    requires k < 10
    ensures DigitOf(Digit(k)) == k
  {
  }

  lemma {:induction false} DecimalValue(n: nat)
    ensures DigitsValue(Decimal(n)) == n
  {
    DigitRoundTrip(n % 10);
    if n < 10 {
      assert DigitsValue([]) == 0;
      assert Decimal(n)[..0] == [];
    } else {
      DecimalValue(n / 10);
      assert Decimal(n)[..|Decimal(n)| - 1] == Decimal(n / 10);
    }
  }

  lemma ValueSnoc(front: string, c: char)
    requires AllDigits(front) && IsDigit(c)
    ensures AllDigits(front + [c]) && DigitsValue(front + [c]) == 10 * DigitsValue(front) + DigitOf(c)
  {
    assert (front + [c])[..|front|] == front;
  }

  lemma {:induction false} CanonicalDigits(s: string)
    requires AllDigits(s) && s != [] && s[0] != '0'
    ensures DigitsValue(s) > 0 && Decimal(DigitsValue(s)) == s
  {
    hide DigitsValue, Decimal, DigitOf;
    var front, last := s[..|s| - 1], s[|s| - 1];
    assert s == front + [last];
    LastDigit(s);
    if front == [] {
      OneDigit(last);
    } else {
      CanonicalDigits(front);
      ValueSnoc(front, last);
      DecimalSnoc(DigitsValue(front), last);
    }
  }

  lemma LastDigit(s: string)
    requires AllDigits(s) && s != []
    ensures AllDigits(s[..|s| - 1]) && IsDigit(s[|s| - 1])
  {
  }

  lemma OneDigit(c: char)
    requires IsDigit(c) && c != '0'
    ensures DigitsValue([c]) > 0 && Decimal(DigitsValue([c])) == [c]
  {
    assert [c][..0] == [];
    assert DigitsValue([]) == 0;
    assert DigitsValue([c]) == DigitOf(c);
  }

  lemma DecimalSnoc(v: nat, c: char)
    requires v > 0 && IsDigit(c)
    ensures 10 * v + DigitOf(c) > 0 && Decimal(10 * v + DigitOf(c)) == Decimal(v) + [c]
  {
    DivideBack(v, DigitOf(c));
  }

  lemma DivideBack(q: nat, d: nat)
    requires d < 10
    ensures (10 * q + d) / 10 == q && (10 * q + d) % 10 == d
  {
  }

  lemma {:induction false} FirstDashAt(a: string, b: string)
    requires '-' !in a
    ensures FirstDash(a + "-" + b) == |a|
  {
    if a != [] {
      FirstDashAt(a[1..], b);
      assert (a + "-" + b)[1..] == a[1..] + "-" + b;
      assert a[0] in a;
    }
  }

  /** Reading a built tag gives the inbound and the domain back, dashes in the domain included. */
  lemma ParseOfMeterTag(inboundId: int, domain: string)
    requires 0 < inboundId <= MAX_INT && domain != []
    ensures ParseMeterTag(MeterTag(inboundId, domain)) == Some((inboundId, domain))
  {
    hide Decimal, FirstDash;
    var id := Decimal(inboundId);
    var tag := MeterTag(inboundId, domain);
    assert tag == PREFIX + (id + "-" + domain);
    assert tag[|PREFIX|..] == id + "-" + domain;
    assert '-' !in id;
    FirstDashAt(id, domain);
    assert (id + "-" + domain)[..|id|] == id;
    assert (id + "-" + domain)[|id| + 1..] == domain;
    DecimalValue(inboundId);
    ReadNumber(id, inboundId);
  }

  lemma ReadNumber(digits: string, value: nat)
    requires digits != [] && AllDigits(digits) && DigitsValue(digits) == value <= MAX_INT
    ensures Atoi(digits) == Some(value)
  {
    assert digits[0] in digits;
  }

  /** Different pairs never share a tag. */
  lemma MeterTagInjective(i: int, d: string, j: int, e: string)
    requires 0 < i <= MAX_INT && 0 < j <= MAX_INT && d != [] && e != []
    requires MeterTag(i, d) == MeterTag(j, e)
    ensures i == j && d == e
  {
    ParseOfMeterTag(i, d);
    ParseOfMeterTag(j, e);
  }

  /**
   Every accepted tag names a positive inbound and a non-empty domain, and it is the tag the builder writes for
   them exactly when the number carries neither a plus sign nor a leading zero.
   */
  lemma ParsedTagCanonical(tag: string)
    requires ParseMeterTag(tag).Some?
    ensures var (id, domain) := ParseMeterTag(tag).value;
      && 0 < id && domain != [] && IsMeterTag(tag)
      && |tag| > |PREFIX|
      && (MeterTag(id, domain) == tag <==> tag[|PREFIX|] != '+' && tag[|PREFIX|] != '0')
  {
    hide Decimal, Atoi;
    var rest := tag[|PREFIX|..];
    var i := FirstDash(rest);
    var number := rest[..i];
    var (id, domain) := ParseMeterTag(tag).value;
    assert tag == PREFIX + (number + "-" + domain);
    assert number[0] == tag[|PREFIX|];
    NumberCanonical(number, id);
    if MeterTag(id, domain) == tag {
      assert tag == PREFIX + (Decimal(id) + "-" + domain);
      assert tag[|PREFIX|] == Decimal(id)[0];
      assert Decimal(id)[0] in Decimal(id);
    }
  }

  /** A positive number read by Atoi is written back the same way when it has no plus sign and no leading zero. */
  lemma NumberCanonical(number: string, id: int)
    requires number != [] && '-' !in number && Atoi(number) == Some(id) && id > 0
    ensures number[0] != '+' && number[0] != '0' ==> Decimal(id) == number
  {
    if number[0] != '+' && number[0] != '0' {
      assert number[0] in number;
      CanonicalDigits(number);
    }
  }

  /** For instance, and as the tags appear in the core's counters. */
  lemma TagExample()
    ensures MeterTag(12, "x-y.z") == "a-ui-meter-12-x-y.z"
  {
    assert Decimal(1) == "1";
    assert Decimal(12) == "1" + "2";
  }
}
