/** Valid UTF-8 by the grammar in section 4 of RFC 3629, and where it may be cut. */
module Utf8 {
  import opened Basics

  predicate In(b: Byte, lo: Byte, hi: Byte) { lo <= b <= hi }

  /** UTF8-tail. */
  predicate IsTail(b: Byte) { In(b, 0x80, 0xBF) }

  /** What may follow the first byte of a character directly. */
  predicate SecondOk(first: Byte, second: Byte) {
    if first == 0xE0 then In(second, 0xA0, 0xBF)
    else if first == 0xED then In(second, 0x80, 0x9F)
    else if first == 0xF0 then In(second, 0x90, 0xBF)
    else if first == 0xF4 then In(second, 0x80, 0x8F)
    else IsTail(second)
  }

  /** How many bytes the character that starts with `first` has; 0 if none does. */
  function Width(first: Byte): (r: nat)
    ensures r <= 4 && (IsTail(first) ==> r == 0)
  {
    if In(first, 0x00, 0x7F) then 1
    else if In(first, 0xC2, 0xDF) then 2
    else if In(first, 0xE0, 0xEF) then 3
    else if In(first, 0xF0, 0xF4) then 4
    else 0
  }

  /** `s` starts with a UTF8-char. */
  predicate StartsChar(s: seq<Byte>) {
    && s != []
    && var n := Width(s[0]);
       && 0 < n <= |s|
       && (n > 1 ==> SecondOk(s[0], s[1])) && (n > 2 ==> IsTail(s[2])) && (n > 3 ==> IsTail(s[3]))
  }

  /** UTF8-octets. */
  predicate Valid(s: seq<Byte>)
    decreases |s|
  {
    s == [] || (StartsChar(s) && Valid(s[Width(s[0])..]))
  }

  // ===== Text =====

  /** A Unicode scalar value. */
  type Scalar = c: int | 0 <= c < 0xD800 || 0xE000 <= c <= 0x10FFFF witness 0

  /** The encoding of one character, from the table in section 3 of RFC 3629. */
  function EncodeChar(c: Scalar): (r: seq<Byte>)
    ensures 1 <= |r| <= 4
  {
    if c < 0x80 then [c as Byte]
    else if c < 0x800 then [(0xC0 + c / 0x40) as Byte, (0x80 + c % 0x40) as Byte]
    else if c < 0x1_0000 then
      [(0xE0 + c / 0x1000) as Byte, (0x80 + c / 0x40 % 0x40) as Byte, (0x80 + c % 0x40) as Byte]
    else
      [(0xF0 + c / 0x4_0000) as Byte, (0x80 + c / 0x1000 % 0x40) as Byte,
       (0x80 + c / 0x40 % 0x40) as Byte, (0x80 + c % 0x40) as Byte]
  }

  function EncodeText(text: seq<Scalar>): seq<Byte> {
    if text == [] then [] else EncodeChar(text[0]) + EncodeText(text[1..])
  }

  /** The valid strings are the encodings of texts. */
  lemma ValidIffText(s: seq<Byte>)
    ensures Valid(s) <==> exists text :: EncodeText(text) == s
  {
    if Valid(s) { var text := TextOf(s); }
    if text :| EncodeText(text) == s { TextIsValid(text); }
  }

  lemma {:induction false} TextIsValid(text: seq<Scalar>)
    ensures Valid(EncodeText(text))
  {
    if text != [] {
      var c, rest := EncodeChar(text[0]), EncodeText(text[1..]);
      TextIsValid(text[1..]);
      CharStarts(text[0], rest);
      assert (c + rest)[|c|..] == rest;
    }
  }

  lemma CharStarts(c: Scalar, rest: seq<Byte>)
    ensures StartsChar(EncodeChar(c) + rest) && Width(EncodeChar(c)[0]) == |EncodeChar(c)|
  {
  }

  lemma {:induction false} TextOf(s: seq<Byte>) returns (text: seq<Scalar>)
    requires Valid(s)
    ensures EncodeText(text) == s
    decreases |s|
  {
    if s == [] {
      text := [];
    } else {
      var n := Width(s[0]);
      var c := CharOf(s);
      var rest := TextOf(s[n..]);
      text := [c] + rest;
      assert text[1..] == rest && s[..n] + s[n..] == s;
    }
  }

  lemma CharOf(s: seq<Byte>) returns (c: Scalar)
    requires StartsChar(s)
    ensures EncodeChar(c) == s[..Width(s[0])]
  {
    var n := Width(s[0]);
    if n == 1 {
      c := s[0] as int;
    } else if n == 2 {
      c := OfTwo(s[0], s[1]);
    } else if n == 3 {
      c := OfThree(s[0], s[1], s[2]);
    } else {
      c := OfFour(s[0], s[1], s[2], s[3]);
    }
    assert EncodeChar(c) == s[..n];
  }

  lemma OfTwo(a: Byte, b: Byte) returns (c: Scalar)
    requires StartsChar([a, b]) && Width(a) == 2
    ensures EncodeChar(c) == [a, b]
  {
    c := (a as int - 0xC0) * 0x40 + (b as int - 0x80);
  }

  lemma OfThree(a: Byte, b: Byte, d: Byte) returns (c: Scalar)
    requires StartsChar([a, b, d]) && Width(a) == 3
    ensures EncodeChar(c) == [a, b, d]
  {
    var v, w, x := a as int - 0xE0, b as int - 0x80, d as int - 0x80;
    FourDigits(0, v, w, x);
    c := v * 0x1000 + w * 0x40 + x;
  }

  lemma OfFour(a: Byte, b: Byte, d: Byte, e: Byte) returns (c: Scalar)
    requires StartsChar([a, b, d, e]) && Width(a) == 4
    ensures EncodeChar(c) == [a, b, d, e]
  {
    var u, v, w, x := a as int - 0xF0, b as int - 0x80, d as int - 0x80, e as int - 0x80;
    FourDigits(u, v, w, x);
    c := u * 0x4_0000 + v * 0x1000 + w * 0x40 + x;
  }

  lemma FourDigits(u: nat, v: nat, w: nat, x: nat)
    requires v < 0x40 && w < 0x40 && x < 0x40
    ensures var c := u * 0x4_0000 + v * 0x1000 + w * 0x40 + x;
            && c / 0x4_0000 == u && c / 0x1000 % 0x40 == v && c / 0x40 % 0x40 == w && c % 0x40 == x
  {
    var c := u * 0x4_0000 + v * 0x1000 + w * 0x40 + x;
    assert c / 0x40 == u * 0x1000 + v * 0x40 + w;
    assert c / 0x1000 == u * 0x40 + v;
    assert c / 0x4_0000 == u;
  }

  // ===== Cuts =====

  /** `str::is_char_boundary`: the ends, and everywhere before a byte that is not a continuation. */
  predicate IsCharBoundary(s: seq<Byte>, i: nat) {
    i == 0 || i == |s| || (i < |s| && !IsTail(s[i]))
  }

  lemma InsideChar(s: seq<Byte>, i: nat)
    requires StartsChar(s) && 0 < i < Width(s[0])
    ensures IsTail(s[i])
  {
  }

  lemma CutBehind(s: seq<Byte>, n: nat, i: nat, k: nat)
    requires n <= i <= |s| && k == i - n
    ensures s[..i][n..] == s[n..][..k] && s[i..] == s[n..][k..]
  {
  }

  /** A cut of valid UTF-8 leaves a valid front, and a valid back, exactly at a boundary. */
  lemma {:induction false} CutValid(s: seq<Byte>, i: nat)
    requires Valid(s) && i <= |s|
    ensures Valid(s[..i]) <==> IsCharBoundary(s, i)
    ensures Valid(s[i..]) <==> IsCharBoundary(s, i)
    decreases |s|
  {
    if i == 0 {
      assert s[..0] == [] && s[0..] == s;
    } else {
      var n := Width(s[0]);
      if i < n {
        InsideChar(s, i);
      } else {
        var rest, k: nat := s[n..], i - n;
        CutValid(rest, k);
        CutBehind(s, n, i, k);
        assert StartsChar(s[..i]);
        assert i < |s| ==> s[i] == rest[k];
        if i == n && rest != [] { assert StartsChar(rest); }
      }
    }
  }

  /** A part between two boundaries is valid. */
  lemma SliceValid(s: seq<Byte>, i: nat, j: nat)
    requires Valid(s) && i <= j <= |s| && IsCharBoundary(s, i) && IsCharBoundary(s, j)
    ensures Valid(s[i..j])
  {
    hide Valid;
    CutValid(s, i);
    var back := s[i..];
    assert |back| == |s| - i;
    if i < j < |s| { assert back[j - i] == s[j]; }
    CutValid(back, j - i);
    assert back[..j - i] == s[i..j];
  }
}
