/**
 Bytes on the wire: integers, the 32-byte order message (Protocol.h), and the WebSocket data frame of
 RFC 6455, sections 5.2 and 5.3, as the bot writes it and the gateway reads it. Bit tests on a byte are
 written as quotients and remainders.
 */
module Wire {
  import opened Bits

  type Byte = x: int | 0 <= x < 256

  const MSG_SIZE: nat := 32
  const MAX_PAYLOAD: nat := 0x10_0000

  // ---- Integers ----

  function Pow256(n: nat): (r: nat)
    ensures r >= 1
  {
    if n == 0 then 1 else 256 * Pow256(n - 1)
  }

  function ToLittle(x: nat, n: nat): (s: seq<Byte>)
    ensures |s| == n
  {
    if n == 0 then [] else [x % 256] + ToLittle(x / 256, n - 1)
  }

  function FromLittle(s: seq<Byte>): nat {
    if s == [] then 0 else s[0] + 256 * FromLittle(s[1..])
  }

  lemma {:induction false} LittleRoundTrip(x: nat, n: nat)
    requires x < Pow256(n)
    ensures FromLittle(ToLittle(x, n)) == x
  {
    if n > 0 {
      LittleRoundTrip(x / 256, n - 1);
      assert ToLittle(x, n)[1..] == ToLittle(x / 256, n - 1);
    }
  }

  function ToBig(x: nat, n: nat): (s: seq<Byte>)
    ensures |s| == n
  {
    if n == 0 then [] else ToBig(x / 256, n - 1) + [x % 256]
  }

  /** The length loop: shift left by a byte and add the next one. */
  function FromBig(s: seq<Byte>): nat {
    if s == [] then 0 else 256 * FromBig(s[..|s| - 1]) + s[|s| - 1]
  }

  lemma {:induction false} BigRoundTrip(x: nat, n: nat)
    requires x < Pow256(n)
    ensures FromBig(ToBig(x, n)) == x
  {
    if n > 0 {
      BigRoundTrip(x / 256, n - 1);
      assert ToBig(x, n)[..n - 1] == ToBig(x / 256, n - 1);
    }
  }

  /** Conversion of an unsigned value to a signed one of the same width, and narrowing to 32 bits first. */
  function AsInt32(x: nat): int {
    var low := x % 0x1_0000_0000;
    if low < 0x8000_0000 then low else low - 0x1_0000_0000
  }

  function AsInt64(x: nat): int {
    var low := x % 0x1_0000_0000_0000_0000;
    if low < 0x8000_0000_0000_0000 then low else low - 0x1_0000_0000_0000_0000
  }

  // ---- The order message ----

  /** What the gateway passes to the engine; the price stays the eight bytes it arrived as. */
  datatype WireOrder = WireOrder(id: int, qty: int, isBuy: bool, price: seq<Byte>, t0: int)

  /** The bot's packing: id, time, price, quantity, side code 1 or 2, three zero bytes. */
  function PackOrder(id: nat, time: nat, price: seq<Byte>, qty: nat, buy: bool): (m: seq<Byte>)
    requires |price| == 8
    ensures |m| == MSG_SIZE
  {
    ToLittle(id, 8) + ToLittle(time, 8) + price + ToLittle(qty, 4) + [if buy then 1 else 2] + [0, 0, 0]
  }

  /** The gateway's reading: 'B', 'b' or 1 buys, anything else sells. */
  function UnpackOrder(m: seq<Byte>): WireOrder
    requires |m| == MSG_SIZE
  {
    WireOrder(
      AsInt32(FromLittle(m[..8])),
      AsInt32(FromLittle(m[24..28])),
      m[28] == 66 || m[28] == 98 || m[28] == 1,
      m[16..24],
      AsInt64(FromLittle(m[8..16])))
  }

  /** Every field survives the wire, for ids and quantities below 2^31 and times below 2^63. */
  lemma OrderRoundTrip(id: nat, time: nat, price: seq<Byte>, qty: nat, buy: bool)
    requires |price| == 8 && id < 0x8000_0000 && qty < 0x8000_0000 && time < 0x8000_0000_0000_0000
    ensures UnpackOrder(PackOrder(id, time, price, qty, buy)) == WireOrder(id, qty, buy, price, time)
  {
    var m := PackOrder(id, time, price, qty, buy);
    assert m[..8] == ToLittle(id, 8);
    assert m[8..16] == ToLittle(time, 8);
    assert m[16..24] == price;
    assert m[24..28] == ToLittle(qty, 4);
    Pow256Values();
    LittleRoundTrip(id, 8);
    LittleRoundTrip(time, 8);
    LittleRoundTrip(qty, 4);
  }

  lemma Pow256Values()
    ensures Pow256(2) == 0x1_0000 && Pow256(4) == 0x1_0000_0000 && Pow256(8) == 0x1_0000_0000_0000_0000
  {
    assert Pow256(2) == 0x1_0000;
    assert Pow256(4) == 0x1_0000_0000;
    assert Pow256(6) == 0x1_0000_0000_0000;
  }

  // ---- The frame ----

  function XorByte(a: Byte, b: Byte): Byte {
    assert Pow2(8) == 256;
    XorBound(a, b, 8);
    Xor(a, b)
  }

  /** Applies the four-byte mask; applying it again removes it. */
  function Mask(mask: seq<Byte>, s: seq<Byte>): (r: seq<Byte>)
    requires |mask| == 4
    ensures |r| == |s|
  {
    seq(|s|, i requires 0 <= i < |s| => XorByte(s[i], mask[i % 4]))
  }

  lemma MaskTwice(mask: seq<Byte>, s: seq<Byte>)
    requires |mask| == 4
    ensures Mask(mask, Mask(mask, s)) == s
  {
    forall i | 0 <= i < |s| ensures Mask(mask, Mask(mask, s))[i] == s[i] {
      XorTwice(s[i], mask[i % 4]);
    }
  }

  /** The second header byte and the extended length. */
  function LengthField(n: nat): seq<Byte>
    requires n < Pow256(8)
  {
    if n < 126 then [128 + n]
    else if n <= 0xFFFF then [128 + 126] + ToBig(n, 2)
    else [128 + 127] + ToBig(n, 8)
  }

  /** A final, masked binary frame. */
  function EncodeFrame(payload: seq<Byte>, mask: seq<Byte>): seq<Byte>
    requires |mask| == 4 && |payload| < Pow256(8)
  {
    [0x82] + LengthField(|payload|) + mask + Mask(mask, payload)
  }

  /** What the front of the unread bytes amounts to. */
  datatype Parsed =
    | NeedMore
    | Refused                                                      // unmasked or too long
    | Frame(opcode: nat, payload: seq<Byte>, size: nat)

  /** Length of the header before the mask, given the second byte. */
  function HeaderLength(second: Byte): nat {
    if second % 128 == 126 then 4 else if second % 128 == 127 then 10 else 2
  }

  function PayloadLength(s: seq<Byte>): nat
    requires |s| >= 2 && |s| >= HeaderLength(s[1])
  {
    if s[1] % 128 == 126 then 256 * s[2] + s[3]
    else if s[1] % 128 == 127 then FromBig(s[2..10])
    else s[1] % 128
  }

  function ParseFrame(s: seq<Byte>): (r: Parsed)
    ensures r.Frame? ==> 6 <= r.size <= |s| && r.size <= 14 + MAX_PAYLOAD && |r.payload| < r.size
    ensures r.NeedMore? ==> |s| <= 13 + MAX_PAYLOAD
  {
    if |s| < 2 || |s| < HeaderLength(s[1]) then NeedMore
    else
      var h, n := HeaderLength(s[1]), PayloadLength(s);
      if s[1] < 128 || n > MAX_PAYLOAD then Refused
      else if |s| < h + 4 + n then NeedMore
      else Frame(s[0] % 16, Mask(s[h..h + 4], s[h + 4..h + 4 + n]), h + 4 + n)
  }

  lemma SliceOfAppend(s: seq<Byte>, more: seq<Byte>, i: nat, j: nat)
    requires i <= j <= |s|
    ensures (s + more)[i..j] == s[i..j]
  {
  }

  /** What has been decided about the front of the stream does not change when more arrives. */
  lemma ParseIsStable(s: seq<Byte>, more: seq<Byte>)
    requires ParseFrame(s) != NeedMore
    ensures ParseFrame(s + more) == ParseFrame(s)
  {
    var t := s + more;
    assert t[0] == s[0] && t[1] == s[1];
    var h := HeaderLength(s[1]);
    if s[1] % 128 == 127 {
      assert t[2..10] == s[2..10];
    }
    assert PayloadLength(t) == PayloadLength(s);
    var n := PayloadLength(s);
    if |s| >= h + 4 + n {
      SliceOfAppend(s, more, h, h + 4);
      SliceOfAppend(s, more, h + 4, h + 4 + n);
    }
  }

  /** For every payload up to the limit and every mask, the gateway takes exactly the bot's frame and its payload. */
  lemma FrameRoundTrip(payload: seq<Byte>, mask: seq<Byte>, rest: seq<Byte>)
    requires |mask| == 4 && |payload| <= MAX_PAYLOAD
    ensures |payload| < Pow256(8)
    ensures ParseFrame(EncodeFrame(payload, mask) + rest) == Frame(2, payload, |EncodeFrame(payload, mask)|)
  {
    Pow256Values();
    var n, field := |payload|, LengthField(|payload|);
    var s := EncodeFrame(payload, mask) + rest;
    var h := 1 + |field|;
    assert s[0] == 0x82 && s[1] == field[0];
    LengthIsRead(s, payload);
    assert s[h..h + 4] == mask;
    assert s[h + 4..h + 4 + n] == Mask(mask, payload);
    MaskTwice(mask, payload);
  }

  lemma LengthIsRead(s: seq<Byte>, payload: seq<Byte>)
    requires |payload| <= MAX_PAYLOAD < Pow256(8)
    requires |s| >= 1 + |LengthField(|payload|)| && s[1..1 + |LengthField(|payload|)|] == LengthField(|payload|)
    ensures s[1] >= 128 && HeaderLength(s[1]) == 1 + |LengthField(|payload|)|
    ensures PayloadLength(s) == |payload|
  {
    Pow256Values();
    var n, field := |payload|, LengthField(|payload|);
    assert s[1] == field[0];
    if n > 0xFFFF {
      assert s[2..10] == s[1..10][1..] == ToBig(n, 8);
      BigRoundTrip(n, 8);
    } else if n >= 126 {
      assert s[2] == field[1] && s[3] == field[2];
      assert ToBig(n, 2) == ToBig(n / 256, 1) + [n % 256];
      assert ToBig(n / 256, 1) == ToBig(n / 256 / 256, 0) + [n / 256 % 256];
      assert field == [254] + ([n / 256 % 256] + [n % 256]);
    }
  }
}
