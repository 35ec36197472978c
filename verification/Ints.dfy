/** Fixed-width integers written to and read from cursors.  Native order is one of the two. */
module Ints {
  import opened Basics
  import opened Cursors
  import opened Sinks

  datatype Kind = Kind(width: nat, signed: bool, big: bool)

  datatype Item = Item(kind: Kind, value: int)

  /** The widths of `u8` to `u128`. */
  predicate Supported(k: Kind) { k.width in {1, 2, 4, 8, 16} }

  function Pow256(w: nat): (r: nat)
    ensures r > 0
  {
    if w == 0 then 1 else 256 * Pow256(w - 1)
  }

  predicate Fits(x: Item) {
    && Supported(x.kind)
    && if x.kind.signed then 0 <= 2 * x.value + Pow256(x.kind.width) < 2 * Pow256(x.kind.width)
       else 0 <= x.value < Pow256(x.kind.width)
  }

  function ToLe(n: nat, w: nat): (r: seq<Byte>)
    ensures |r| == w
  {
    if w == 0 then [] else [(n % 256) as Byte] + ToLe(n / 256, w - 1)
  }

  function FromLe(s: seq<Byte>): nat {
    if s == [] then 0 else s[0] as nat + 256 * FromLe(s[1..])
  }

  function Backwards(s: seq<Byte>): (r: seq<Byte>)
    ensures |r| == |s| && forall i | 0 <= i < |s| :: r[i] == s[|s| - 1 - i]
  {
    seq(|s|, i requires 0 <= i < |s| => s[|s| - 1 - i])
  }

  /** `to_be_bytes` and `to_le_bytes`: two's complement. */
  function Encode(x: Item): (r: seq<Byte>)
    requires Fits(x)
    ensures |r| == x.kind.width
  {
    var n := if x.value < 0 then x.value + Pow256(x.kind.width) else x.value;
    if x.kind.big then Backwards(ToLe(n, x.kind.width)) else ToLe(n, x.kind.width)
  }

  /** `from_be_bytes` and `from_le_bytes`. */
  function Decode(k: Kind, s: seq<Byte>): Item
    requires |s| == k.width
  {
    var n := FromLe(if k.big then Backwards(s) else s);
    Item(k, if k.signed && 2 * n >= Pow256(k.width) then n - Pow256(k.width) else n)
  }

  lemma {:induction false} FromToLe(n: nat, w: nat)
    requires n < Pow256(w)
    ensures FromLe(ToLe(n, w)) == n
  {
    if w > 0 {
      FromToLe(n / 256, w - 1);
      assert ToLe(n, w)[1..] == ToLe(n / 256, w - 1);
    }
  }

  lemma {:induction false} ToFromLe(s: seq<Byte>)
    ensures FromLe(s) < Pow256(|s|) && ToLe(FromLe(s), |s|) == s
  {
    if s != [] {
      ToFromLe(s[1..]);
      LowDigit(s[0] as nat, FromLe(s[1..]), Pow256(|s| - 1));
      assert [s[0]] + s[1..] == s;
    }
  }

  lemma LowDigit(b: nat, high: nat, p: nat)
    requires b < 256 && high < p
    ensures (b + 256 * high) % 256 == b && (b + 256 * high) / 256 == high && b + 256 * high < 256 * p
  {
  }

  lemma BackwardsTwice(s: seq<Byte>)
    ensures Backwards(Backwards(s)) == s
  {
  }

  lemma DecodeEncode(x: Item)
    requires Fits(x)
    ensures Decode(x.kind, Encode(x)) == x
  {
    var n := if x.value < 0 then x.value + Pow256(x.kind.width) else x.value;
    FromToLe(n, x.kind.width);
    BackwardsTwice(ToLe(n, x.kind.width));
  }

  /** Every byte pattern is the encoding of the one number it decodes to. */
  lemma EncodeDecode(k: Kind, s: seq<Byte>)
    requires Supported(k) && |s| == k.width
    ensures Fits(Decode(k, s)) && Encode(Decode(k, s)) == s
  {
    var le := if k.big then Backwards(s) else s;
    ToFromLe(le);
    BackwardsTwice(s);
    hide ToLe, FromLe, Pow256, Backwards;
  }

  // ===== Places =====

  /** What 256 to the power of each width is. */
  lemma Powers()
    ensures Pow256(1) == 0x100 && Pow256(2) == 0x1_0000 && Pow256(4) == 0x1_0000_0000
    ensures Pow256(8) == 0x1_0000_0000_0000_0000
    ensures Pow256(16) == 0x1_0000_0000_0000_0000_0000_0000_0000_0000
  {
    assert Pow256(3) == 0x100_0000;
    assert Pow256(6) == 0x1_0000_0000_0000;
    assert Pow256(9) == 0x100_0000_0000_0000_0000;
    assert Pow256(12) == 0x1_0000_0000_0000_0000_0000_0000;
    assert Pow256(14) == 0x1_0000_0000_0000_0000_0000_0000_0000;
  }

  /** The first `n` bytes, each times the weight of its place. */
  ghost function Weighted(s: seq<Byte>, big: bool, n: nat): nat
    requires n <= |s|
  {
    if n == 0 then 0
    else Weighted(s, big, n - 1) + s[n - 1] as nat * Pow256(if big then |s| - n else n - 1)
  }

  lemma Under(x: nat, y: nat, a: nat)
    requires x <= y
    ensures x * a <= y * a
  {
  }

  lemma DivIs(n: nat, d: nat, q: nat)
    requires d > 0 && q * d <= n < q * d + d
    ensures n / d == q
  {
    var e := n / d;
    assert n == e * d + n % d && (e + 1) * d == e * d + d && (q + 1) * d == q * d + d;
    if e < q { Under(e + 1, q, d); }
    if q < e { Under(q + 1, e, d); }
  }

  lemma DivByteTwice(n: nat, b: nat)
    requires b > 0
    ensures n / 256 / b == n / (256 * b)
  {
    var q, x := n / 256, n / 256 / b;
    Quotient(q, b, x);
    var y := x * b;
    assert y <= q < y + b && 256 * y <= n < 256 * y + 256 * b;
    assert x * (256 * b) == 256 * y;
    DivIs(n, 256 * b, x);
  }

  lemma Quotient(q: nat, b: nat, x: nat)
    requires b > 0 && x == q / b
    ensures x * b <= q < x * b + b
  {
  }

  lemma {:induction false} LePlaces(n: nat, w: nat, i: nat)
    requires i < w
    ensures ToLe(n, w)[i] as nat == n / Pow256(i) % 256
  {
    if i > 0 {
      LePlaces(n / 256, w - 1, i - 1);
      DivByteTwice(n, Pow256(i - 1));
    }
  }

  /** Each byte is the digit of its place, most significant first in big order; a negative number
      counts from 256 to the power of the width. */
  lemma EncodePlaces(x: Item)
    requires Fits(x)
    ensures var w := x.kind.width;
            var n := if x.value < 0 then x.value + Pow256(w) else x.value;
            n >= 0 && forall i | 0 <= i < w ::
              Encode(x)[i] as nat == n / Pow256(if x.kind.big then w - 1 - i else i) % 256
  {
    hide ToLe, Pow256;
    var w := x.kind.width;
    var n := if x.value < 0 then x.value + Pow256(w) else x.value;
    forall i | 0 <= i < w ensures Encode(x)[i] as nat == n / Pow256(if x.kind.big then w - 1 - i else i) % 256 {
      var place: nat := if x.kind.big then w - 1 - i else i;
      LePlaces(n, w, place);
    }
  }

  lemma {:induction false} WeightedHead(s: seq<Byte>, big: bool, n: nat)
    requires 0 < n <= |s|
    ensures Weighted(s, big, n) ==
            if big then s[0] as nat * Pow256(|s| - 1) + Weighted(s[1..], big, n - 1)
            else s[0] as nat + 256 * Weighted(s[1..], big, n - 1)
  {
    if n > 1 {
      WeightedHead(s, big, n - 1);
      if !big { Times(256, Weighted(s[1..], big, n - 2), s[n - 1] as nat, Pow256(n - 2)); }
    }
  }

  lemma Times(k: nat, x: nat, b: nat, p: nat)
    ensures k * (x + b * p) == k * x + b * (k * p)
  {
  }

  lemma {:induction false} LeWeighted(s: seq<Byte>)
    ensures FromLe(s) == Weighted(s, false, |s|)
  {
    if s != [] {
      LeWeighted(s[1..]);
      WeightedHead(s, false, |s|);
    }
  }

  lemma {:induction false} FromLeSnoc(s: seq<Byte>, b: Byte)
    ensures FromLe(s + [b]) == FromLe(s) + b as nat * Pow256(|s|)
  {
    if s == [] {
      assert [] + [b] == [b];
    } else {
      FromLeSnoc(s[1..], b);
      assert (s + [b])[1..] == s[1..] + [b];
      Times(256, FromLe(s[1..]), b as nat, Pow256(|s| - 1));
    }
  }

  lemma {:induction false} BeWeighted(s: seq<Byte>)
    ensures FromLe(Backwards(s)) == Weighted(s, true, |s|)
  {
    if s != [] {
      BeWeighted(s[1..]);
      WeightedHead(s, true, |s|);
      assert Backwards(s) == Backwards(s[1..]) + [s[0]];
      FromLeSnoc(Backwards(s[1..]), s[0]);
    }
  }

  /** A pattern is worth the weighted sum of its bytes, less `256` to the power of the width if it is
      signed and in the upper half. */
  lemma DecodeWeighted(k: Kind, s: seq<Byte>)
    requires |s| == k.width
    ensures var n := Weighted(s, k.big, |s|);
            Decode(k, s) == Item(k, if k.signed && 2 * n >= Pow256(k.width) then n - Pow256(k.width) else n)
  {
    if k.big { BeWeighted(s); } else { LeWeighted(s); }
  }

  ghost predicate AllFit(items: seq<Item>) { forall i | 0 <= i < |items| :: Fits(items[i]) }

  ghost function Encoded(items: seq<Item>): seq<Byte>
    requires AllFit(items)
  {
    if items == [] then [] else Encode(items[0]) + Encoded(items[1..])
  }

  function Kinds(items: seq<Item>): seq<Kind> {
    seq(|items|, i requires 0 <= i < |items| => items[i].kind)
  }

  function Widths(kinds: seq<Kind>): nat {
    if kinds == [] then 0 else kinds[0].width + Widths(kinds[1..])
  }

  ghost function Decoded(kinds: seq<Kind>, s: seq<Byte>): seq<Item>
    requires |s| == Widths(kinds)
  {
    if kinds == [] then []
    else [Decode(kinds[0], s[..kinds[0].width])] + Decoded(kinds[1..], s[kinds[0].width..])
  }

  lemma {:induction false} DecodedEncoded(items: seq<Item>)
    requires AllFit(items)
    ensures |Encoded(items)| == Widths(Kinds(items)) && Decoded(Kinds(items), Encoded(items)) == items
  {
    if items != [] {
      var head, tail := items[0], items[1..];
      DecodedEncoded(tail);
      DecodeEncode(head);
      assert Kinds(items)[1..] == Kinds(tail);
      var s := Encoded(items);
      assert s[..head.kind.width] == Encode(head) && s[head.kind.width..] == Encoded(tail);
      assert [head] + tail == items;
    }
  }

  // ===== Putting =====

  /** `put_u8` and `put_i8`. */
  method PutByte(s: Sink, b: Byte) returns (r: Option<Sink>)
    requires Packed(s)
    ensures r.Some? <==> Rest(s) != []
    ensures r.Some? ==> Put(s, [b], r.value)
  {
    RemainingMutIsRoom(s);
    ChunkLenFits(s);
    if RemainingMut(s) == 0 { return None; }
    var t := WriteChunk(s, [b]);
    RemainingMutIsRoom(t);
    t := AdvanceMut(t, 1);
    assert Rest(t) == Rest(s)[1..];
    r := Some(t);
  }

  /** `put_*` of one integer. */
  method PutInt(s: Sink, x: Item) returns (r: Option<Sink>)
    requires Packed(s) && Fits(x)
    ensures r.Some? <==> x.kind.width <= |Rest(s)|
    ensures r.Some? ==> Put(s, Encode(x), r.value)
    ensures r.Some? ==>
              var w, from := x.kind.width, |Written(s)|;
              var n := if x.value < 0 then x.value + Pow256(w) else x.value;
              && |Written(r.value)| == from + w && Written(r.value)[..from] == Written(s)
              && forall i | 0 <= i < w ::
                   Written(r.value)[from..][i] as nat == n / Pow256(if x.kind.big then w - 1 - i else i) % 256
  {
    hide Packed, Written, Rest, Cuts, Encode, Pow256;
    var bytes := Encode(x);
    EncodePlaces(x);
    if x.kind.width == 1 {
      assert bytes == [bytes[0]];
      r := PutByte(s, bytes[0]);
    } else {
      r := PutSlice(s, bytes);
    }
  }

  /** Any list of integers, one after the other. */
  method PutInts(s: Sink, items: seq<Item>) returns (r: Option<Sink>)
    requires Packed(s) && AllFit(items)
    ensures r.Some? <==> |Encoded(items)| <= |Rest(s)|
    ensures r.Some? ==> Put(s, Encoded(items), r.value)
    decreases items
  {
    hide Packed, Written, Rest, Cuts;
    if items == [] {
      assert Written(s) + [] == Written(s) && Rest(s)[0..] == Rest(s);
      return Some(s);
    }
    var first := PutInt(s, items[0]);
    if first.None? { return None; }
    r := PutInts(first.value, items[1..]);
    if r.Some? {
      PutBoth(s, first.value, r.value, Encode(items[0]), Encoded(items[1..]));
    }
  }

  lemma PutBoth(s: Sink, t: Sink, u: Sink, x: seq<Byte>, y: seq<Byte>)
    requires Put(s, x, t) && Put(t, y, u)
    ensures Put(s, x + y, u)
  {
    hide Packed, Written, Rest, Cuts;
    assert Rest(s)[|x|..][|y|..] == Rest(s)[|x + y|..];
  }

  // ===== Getting =====

  /** `try_get_u8` and `try_get_i8`. */
  method GetByte(t: Buf) returns (r: Option<(Byte, Buf)>)
    requires Sane(t)
    ensures r.Some? <==> Content(t) != []
    ensures r.Some? ==> Sane(r.value.1) && Content(t) == [r.value.0] + Content(r.value.1)
  {
    ChunkIsPrefix(t);
    RemainingIsLength(t);
    var chunk := Chunk(t);
    if chunk == [] { return None; }
    var moved := Advance(t, 1);
    MovedContent(t, 1);
    r := Some((chunk[0], moved.value));
  }

  /** `get_*` of one integer; `None` stands for the panic. */
  method GetInt(t: Buf, k: Kind) returns (r: Option<(Item, Buf)>)
    requires Sane(t) && Supported(k)
    ensures r.Some? <==> k.width <= |Content(t)|
    ensures r.Some? ==> && r.value.0 == Decode(k, Content(t)[..k.width])
                        && Sane(r.value.1) && Content(r.value.1) == Content(t)[k.width..]
    ensures r.Some? ==>
              var n, all := Weighted(Content(t)[..k.width], k.big, k.width), Pow256(k.width);
              r.value.0 == Item(k, if k.signed && 2 * n >= all then n - all else n)
  {
    hide Content, Sane, Decode, Weighted;
    RemainingIsLength(t);
    if k.width <= |Content(t)| { DecodeWeighted(k, Content(t)[..k.width]); }
    if k.width == 1 {
      var one := GetByte(t);
      if one.None? { return None; }
      assert Content(t)[..1] == [one.value.0] && Content(t)[1..] == Content(one.value.1);
      return Some((Decode(k, [one.value.0]), one.value.1));
    }
    if k.width > Remaining(t) { return None; }
    var chunk := new Byte[k.width](_ => 0);
    var rest := CopyToSlice(t, chunk);
    r := Some((Decode(k, chunk[..]), rest));
  }

  method GetInts(t: Buf, kinds: seq<Kind>) returns (r: Option<(seq<Item>, Buf)>)
    requires Sane(t) && forall i | 0 <= i < |kinds| :: Supported(kinds[i])
    ensures r.Some? <==> Widths(kinds) <= |Content(t)|
    ensures r.Some? ==> && r.value.0 == Decoded(kinds, Content(t)[..Widths(kinds)])
                        && Sane(r.value.1) && Content(r.value.1) == Content(t)[Widths(kinds)..]
    decreases kinds
  {
    hide Content, Sane, Decode;
    if kinds == [] {
      assert Content(t)[0..] == Content(t);
      return Some(([], t));
    }
    var first := GetInt(t, kinds[0]);
    if first.None? { return None; }
    var more := GetInts(first.value.1, kinds[1..]);
    if more.None? { return None; }
    ghost var s, w, n := Content(t), kinds[0].width, Widths(kinds);
    assert s[..n][..w] == s[..w] && s[..n][w..] == s[w..][..n - w] && s[w..][n - w..] == s[n..];
    r := Some(([first.value.0] + more.value.0, more.value.1));
  }

  // ===== Round trip =====

  /** Integers put into chained slices cut anywhere, and read through any cursor whose content
      starts with the bytes written, however it is chunked, come back unchanged; memory past them
      keeps its bytes, and the cursor is left right after them. */
  method RoundTrip(s: Sink, items: seq<Item>, t: Buf) returns (r: Sink, back: seq<Item>, rest: Buf)
    requires Packed(s) && AllFit(items) && |Encoded(items)| <= |Rest(s)|
    requires Sane(t) && Encoded(items) <= Content(t)
    ensures back == items && Sane(rest) && Content(t) == Encoded(items) + Content(rest)
    ensures Cuts(r) == Cuts(s) && Places(r) == Written(s) + Encoded(items) + Rest(s)[|Encoded(items)|..]
  {
    hide Packed, Written, Rest, Cuts, Content, Sane, Encode, Decode, Places;
    DecodedEncoded(items);
    ghost var n := |Encoded(items)|;
    var put := PutInts(s, items);
    r := put.value;
    PlacesArePacked(r);
    var got := GetInts(t, Kinds(items));
    assert Content(t)[..n] == Encoded(items) && Content(t) == Content(t)[..n] + Content(t)[n..];
    back, rest := got.value.0, got.value.1;
  }
}
