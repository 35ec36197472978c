/** ASCII integers: the checked and the wrapping parser, and the exact inputs each accepts. */
module Num {
  import opened Basics

  const U64_MAX: nat := 0xFFFF_FFFF_FFFF_FFFF
  const I64_MAX: int := 0x7FFF_FFFF_FFFF_FFFF
  const I64_MIN: int := -0x8000_0000_0000_0000
  const MAX_CH: nat := 20

  const ZERO: Byte := 48
  const PLUS: Byte := 43
  const MINUS: Byte := 45

  // ===== The parsers =====

  /** `next.wrapping_sub(b'0')`. */
  function FromZero(b: Byte): nat { (b as int - 48) % 256 }

  function CheckedU64(n: int): Option<nat> { if 0 <= n <= U64_MAX then Some(n) else None }

  function CheckedI64(n: int): Option<int> { if I64_MIN <= n <= I64_MAX then Some(n) else None }

  function FoldU(bytes: seq<Byte>, acc: nat): Option<nat> {
    if bytes == [] then Some(acc)
    else
      var b := FromZero(bytes[0]);
      if b > 9 then None
      else match CheckedU64(acc * 10)
        case None => None
        case Some(n) => match CheckedU64(n + b)
          case None => None
          case Some(next) => FoldU(bytes[1..], next)
  }

  function Atou(bytes: seq<Byte>): Option<nat> {
    if |bytes| > MAX_CH || bytes == [] then None else FoldU(bytes, 0)
  }

  function WrappingAtou(bytes: seq<Byte>): Option<nat> { WrapFold(bytes, 0) }

  function WrapFold(bytes: seq<Byte>, acc: nat): Option<nat> {
    if bytes == [] then Some(acc)
    else
      var b := FromZero(bytes[0]);
      if b > 9 then None
      else WrapFold(bytes[1..], (acc * 10 % (U64_MAX + 1) + b) % (U64_MAX + 1))
  }

  function FoldI(bytes: seq<Byte>, acc: int, sign: int): Option<int> {
    if bytes == [] then Some(acc)
    else
      var b := FromZero(bytes[0]);
      if b > 9 then None
      else match CheckedI64(acc * 10)
        case None => None
        case Some(n) => match CheckedI64(n + b * sign)
          case None => None
          case Some(next) => FoldI(bytes[1..], next, sign)
  }

  function Atoi(bytes: seq<Byte>): Option<int> {
    if |bytes| > MAX_CH then None
    else if bytes == [] || bytes == [PLUS] || bytes == [MINUS] then None
    else if bytes[0] == PLUS || bytes[0] == MINUS then FoldI(bytes[1..], 0, -(bytes[0] as int - 0x2C))
    else FoldI(bytes, 0, 1)
  }

  // ===== What the digits mean =====

  predicate AllDigits(s: seq<Byte>) { forall i | 0 <= i < |s| :: ZERO <= s[i] <= ZERO + 9 }

  function Pow10(n: nat): (r: nat)
    ensures r > 0
  {
    if n == 0 then 1 else 10 * Pow10(n - 1)
  }

  /** Each digit weighted by its place. */
  function Value(s: seq<Byte>): nat
    requires AllDigits(s)
  {
    if s == [] then 0 else (s[0] - ZERO) as nat * Pow10(|s| - 1) + Value(s[1..])
  }

  lemma {:induction false} ValueBound(s: seq<Byte>)
    requires AllDigits(s)
    ensures Value(s) < Pow10(|s|)
  {
    if s != [] {
      ValueBound(s[1..]);
      Weigh((s[0] - ZERO) as nat, 9, Pow10(|s| - 1));
    }
  }

  lemma Weigh(d: int, e: int, p: int)
    requires d <= e && p >= 0
    ensures d * p <= e * p
  {
  }

  /** One more digit: the accumulator moves up a place. */
  lemma Step(acc: int, d: int, p: int)
    ensures (acc * 10 + d) * p == acc * (10 * p) + d * p
  {
  }

  lemma Grows(acc: int, p: int)
    requires p >= 1
    ensures acc >= 0 ==> acc * p >= acc
    ensures acc <= 0 ==> acc * p <= acc
  {
  }

  lemma Tail(s: seq<Byte>)
    requires s != []
    ensures AllDigits(s) <==> ZERO <= s[0] <= ZERO + 9 && AllDigits(s[1..])
  {
    if AllDigits(s[1..]) {
      forall i | 1 <= i < |s| ensures ZERO <= s[i] <= ZERO + 9 { assert s[i] == s[1..][i - 1]; }
    }
  }

  /** The number that the digits of `s` make of the accumulator. */
  ghost function Total(s: seq<Byte>, acc: int, sign: int): int
    requires AllDigits(s)
  {
    acc * Pow10(|s|) + sign * Value(s)
  }

  lemma TotalStep(s: seq<Byte>, acc: int, sign: int)
    requires s != [] && AllDigits(s) && (sign == 1 || sign == -1)
    ensures Total(s, acc, sign) == Total(s[1..], acc * 10 + FromZero(s[0]) * sign, sign)
  {
    var d, p := FromZero(s[0]), Pow10(|s| - 1);
    Step(acc, d * sign, p);
    if sign == -1 { assert (d * -1) * p == -(d * p); }
  }

  /** Digits only move the accumulator away from zero. */
  lemma NoWayBack(s: seq<Byte>, acc: int, sign: int)
    requires AllDigits(s) && ((sign == 1 && acc >= 0) || (sign == -1 && acc <= 0))
    ensures sign == 1 ==> acc <= Total(s, acc, sign)
    ensures sign == -1 ==> Total(s, acc, sign) <= acc
  {
    Grows(acc, Pow10(|s|));
  }

  /** The fold returns the value exactly when it fits: an overflow on the way means that the final
      value overflows too. */
  lemma {:induction false} FoldUIs(s: seq<Byte>, acc: nat)
    requires acc <= U64_MAX
    ensures FoldU(s, acc) == if AllDigits(s) && Total(s, acc, 1) <= U64_MAX then Some(Total(s, acc, 1)) else None
  {
    if s == [] {
      assert Total(s, acc, 1) == acc;
    } else {
      Tail(s);
      if FromZero(s[0]) <= 9 {
        hide Total, AllDigits;
        var next := acc * 10 + FromZero(s[0]);
        if AllDigits(s) {
          TotalStep(s, acc, 1);
          NoWayBack(s[1..], next, 1);
        }
        if next <= U64_MAX { FoldUIs(s[1..], next); }
      }
    }
  }

  /** `atou` accepts exactly the non-empty digit strings of at most 20 bytes whose value fits. */
  lemma AtouExact(s: seq<Byte>, v: nat)
    ensures Atou(s) == Some(v) <==>
            && 0 < |s| <= 20 && (forall i | 0 <= i < |s| :: 48 <= s[i] <= 57)
            && v == Value(s) <= 0xFFFF_FFFF_FFFF_FFFF
  {
    FoldUIs(s, 0);
  }

  predicate InI64(n: int) { I64_MIN <= n <= I64_MAX }

  lemma {:induction false} FoldIIs(s: seq<Byte>, acc: int, sign: int)
    requires InI64(acc) && ((sign == 1 && acc >= 0) || (sign == -1 && acc <= 0))
    ensures FoldI(s, acc, sign) ==
            if AllDigits(s) && InI64(Total(s, acc, sign)) then Some(Total(s, acc, sign)) else None
  {
    if s == [] {
      assert Total(s, acc, sign) == acc;
    } else if FromZero(s[0]) <= 9 {
      hide Total, AllDigits;
      var next := acc * 10 + FromZero(s[0]) * sign;
      Tail(s);
      if AllDigits(s) {
        TotalStep(s, acc, sign);
        NoWayBack(s[1..], next, sign);
      }
      if InI64(next) { FoldIIs(s[1..], next, sign); }
    }
  }

  /** An optional sign and the digits after it. */
  function Digits(s: seq<Byte>): seq<Byte> {
    if s != [] && (s[0] == PLUS || s[0] == MINUS) then s[1..] else s
  }

  function Sign(s: seq<Byte>): int { if s != [] && s[0] == MINUS then -1 else 1 }

  /** `atoi` accepts exactly the optionally signed non-empty digit strings of at most 20 bytes
      whose value fits, the least number included. */
  lemma AtoiExact(s: seq<Byte>, v: int)
    ensures var signed := s != [] && (s[0] == 43 || s[0] == 45);
            var digits := if signed then s[1..] else s;
            Atoi(s) == Some(v) <==>
            && |s| <= 20 && digits != [] && (forall i | 0 <= i < |digits| :: 48 <= digits[i] <= 57)
            && v == (if s[0] == 45 then -1 else 1) * Value(digits)
            && -0x8000_0000_0000_0000 <= v <= 0x7FFF_FFFF_FFFF_FFFF
  {
    if s != [] {
      assert |s| == 1 ==> s == [s[0]];
      FoldIIs(Digits(s), 0, Sign(s));
    }
  }

  function Wrapped(n: int): nat { n % (U64_MAX + 1) }

  /** Wrapping at every step is wrapping once at the end. */
  lemma {:induction false} WrapFoldIs(s: seq<Byte>, exact: nat)
    ensures WrapFold(s, Wrapped(exact)) == if AllDigits(s) then Some(Wrapped(Total(s, exact, 1))) else None
  {
    hide Wrapped, Total, AllDigits;
    if s == [] {
      TotalNone(exact);
    } else {
      Tail(s);
      if FromZero(s[0]) <= 9 {
        WrapStep(s, exact);
        if AllDigits(s) { TotalStep(s, exact, 1); }
        WrapFoldIs(s[1..], exact * 10 + FromZero(s[0]));
      }
    }
  }

  lemma TotalNone(exact: nat)
    ensures AllDigits([]) && Total([], exact, 1) == exact
  {
  }

  /** One digit of the wrapping fold is one digit of the exact one. */
  lemma WrapStep(s: seq<Byte>, n: nat)
    requires s != [] && FromZero(s[0]) <= 9
    ensures WrapFold(s, Wrapped(n)) == WrapFold(s[1..], Wrapped(n * 10 + FromZero(s[0])))
  {
    WrapDigit(n, FromZero(s[0]));
  }

  lemma WrapDigit(n: nat, d: nat)
    ensures (Wrapped(n) * 10 % (U64_MAX + 1) + d) % (U64_MAX + 1) == Wrapped(n * 10 + d)
  {
    var m := U64_MAX + 1;
    var q, r := n / m, n % m;
    var p, x := r * 10 / m, r * 10 % m;
    assert n == q * m + r && r * 10 == p * m + x;
    WholeTurns(10 * q + p, x + d);
    assert n * 10 + d == (10 * q + p) * m + (x + d);
  }

  lemma WholeTurns(k: nat, x: nat)
    ensures (k * (U64_MAX + 1) + x) % (U64_MAX + 1) == x % (U64_MAX + 1)
  {
  }

  /** `wrapping_atou` is the value modulo 2^64, for any number of digits, none included. */
  lemma WrappingExact(s: seq<Byte>)
    ensures WrappingAtou(s) ==
            if forall i | 0 <= i < |s| :: 48 <= s[i] <= 57 then Some(Value(s) % 0x1_0000_0000_0000_0000) else None
  {
    WrapFoldIs(s, 0);
    if AllDigits(s) { assert Total(s, 0, 1) == Value(s); }
  }

  /** The two agree exactly on what is not a digit string and on what `atou` accepts. */
  lemma AgreeIff(s: seq<Byte>)
    ensures Atou(s) == WrappingAtou(s) <==> !AllDigits(s) || (0 < |s| <= 20 && Value(s) <= U64_MAX)
  {
    WrappingExact(s);
    FoldUIs(s, 0);
  }

  /** Up to 19 bytes nothing wraps. */
  lemma ShortAgree(s: seq<Byte>)
    requires 0 < |s| <= 19
    ensures Atou(s) == WrappingAtou(s)
  {
    AgreeIff(s);
    if AllDigits(s) {
      ValueBound(s);
      PowersGrow(|s|, 19);
      Powers();
    }
  }

  lemma {:induction false} PowersGrow(n: nat, k: nat)
    requires n <= k
    ensures Pow10(n) <= Pow10(k)
  {
    if n < k { PowersGrow(n, k - 1); }
  }

  lemma Powers()
    ensures Pow10(19) == 10000000000000000000 && Pow10(20) == 100000000000000000000
  {
    assert Pow10(4) == 10000;
    assert Pow10(8) == 100000000;
    assert Pow10(12) == 1000000000000;
    assert Pow10(16) == 10000000000000000;
  }

  // ===== Printing and parsing =====

  function Printed(n: nat): seq<Byte> {
    if n < 10 then [(n + 48) as Byte] else Printed(n / 10) + [(n % 10 + 48) as Byte]
  }

  function PrintedInt(v: int): seq<Byte> { if v < 0 then [MINUS] + Printed(-v) else Printed(v) }

  lemma Scale(d: int, p: int)
    ensures d * (10 * p) == 10 * (d * p)
  {
  }

  /** One more digit: with `Value([]) == 0` this says what every digit string is worth. */
  lemma {:induction false} ValueSnoc(s: seq<Byte>, b: Byte)
    requires AllDigits(s) && 48 <= b <= 57
    ensures AllDigits(s + [b]) && Value(s + [b]) == 10 * Value(s) + (b - 48) as nat
    ensures AllDigits([]) && Value([]) == 0
  {
    var t := s + [b];
    if s == [] {
      assert t == [b] && t[1..] == [];
    } else {
      ValueSnoc(s[1..], b);
      assert t[1..] == s[1..] + [b];
      Scale((s[0] - ZERO) as int, Pow10(|s| - 1));
    }
  }

  lemma {:induction false} PrintedValue(n: nat, k: nat)
    requires n < Pow10(k) && k > 0
    ensures AllDigits(Printed(n)) && Value(Printed(n)) == n && 0 < |Printed(n)| <= k
  {
    if n >= 10 {
      PrintedValue(n / 10, k - 1);
      ValueSnoc(Printed(n / 10), (n % 10 + 48) as Byte);
    }
  }

  /** Every number of the type is parsed back from its digits. */
  lemma PrintParse(n: nat)
    requires n <= 0xFFFF_FFFF_FFFF_FFFF
    ensures Atou(Printed(n)) == Some(n) && WrappingAtou(Printed(n)) == Some(n)
  {
    Powers();
    PrintedValue(n, 20);
    AtouExact(Printed(n), n);
    AgreeIff(Printed(n));
  }

  lemma PrintParseInt(v: int)
    requires -0x8000_0000_0000_0000 <= v <= 0x7FFF_FFFF_FFFF_FFFF
    ensures Atoi(PrintedInt(v)) == Some(v)
  {
    var n := if v < 0 then -v else v;
    Powers();
    PrintedValue(n, 19);
    assert PrintedInt(v)[1..] == Printed(n) || v >= 0;
    AtoiExact(PrintedInt(v), v);
  }
}
