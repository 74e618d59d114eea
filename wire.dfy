/**
 * The bytes of an outgoing STUN message and the key the socket derives from them.
 * A STUN message starts with a 20-byte header whose last 12 bytes hold the 96-bit
 * transaction ID (section 6 of RFC 5389); the socket reads only the last four of
 * them, big-endian, as an unsigned 32-bit number.
 */
module Wire {
  import opened Wrappers

  /** One octet of a Node.js Buffer. */
  type Byte = x: int | 0 <= x < 0x100

  /** An unsigned 32-bit integer, the range of Buffer.readUInt32BE. */
  type Uint32 = x: int | 0 <= x < 0x1_0000_0000

  /** Length of the fixed STUN message header. */
  const HeaderLength: nat := 20

  /** Offset of the four header bytes the socket uses as a transaction key. */
  const KeyOffset: nat := 16

  /** The four big-endian octets of x. */
  function EncodeUint32BE(x: Uint32): (r: seq<Byte>)
    ensures |r| == 4
  {
    [x / 0x100_0000, x / 0x1_0000 % 0x100, x / 0x100 % 0x100, x % 0x100]
  }

  /** The number four big-endian octets stand for. */
  function DecodeUint32BE(b: seq<Byte>): (r: Uint32)
    requires |b| == 4
  {
    (b[0] as int) * 0x100_0000 + (b[1] as int) * 0x1_0000 + (b[2] as int) * 0x100 + b[3] as int
  }

  lemma DecodeEncode(x: Uint32)
    ensures DecodeUint32BE(EncodeUint32BE(x)) == x
  {
    var x1, x2, x3 := x / 0x100, x / 0x1_0000, x / 0x100_0000;
    assert x == x1 * 0x100 + x % 0x100;
    assert x1 / 0x100 == x2 && x2 / 0x100 == x3;
    assert x1 == x2 * 0x100 + x1 % 0x100;
    assert x2 == x3 * 0x100 + x2 % 0x100;
  }

  lemma EncodeDecode(b: seq<Byte>)
    requires |b| == 4
    ensures EncodeUint32BE(DecodeUint32BE(b)) == b
  {
    var v := DecodeUint32BE(b);
    DivModOf(b[0], (b[1] as int) * 0x1_0000 + (b[2] as int) * 0x100 + b[3] as int, 0x100_0000);
    DivModOf((b[0] as int) * 0x100 + b[1], (b[2] as int) * 0x100 + b[3] as int, 0x1_0000);
    DivModOf((b[0] as int) * 0x1_0000 + (b[1] as int) * 0x100 + b[2], b[3], 0x100);
    DivModOf(b[0], b[1], 0x100);
    DivModOf((b[0] as int) * 0x100 + b[1], b[2], 0x100);
  }

  lemma DivModOf(q: nat, r: nat, d: nat)
    requires 0 < d && r < d
    ensures (q * d + r) / d == q && (q * d + r) % d == r
  {
    var n := q * d + r;
    var k := n / d - q;
    assert n == (n / d) * d + n % d;
    assert k * d == r - n % d;
  }

  /**
   * The key under which a request is filed: the big-endian uint32 at bytes 16..19.
   * Reading it from a message shorter than the header is a range error.
   */
  function TransactionKey(message: seq<Byte>): (r: Option<Uint32>)
    ensures r.None? <==> |message| < HeaderLength
    ensures r.Some? ==> EncodeUint32BE(r.value) == message[KeyOffset..HeaderLength]
  {
    if |message| < HeaderLength then None
    else
      var b := message[KeyOffset..HeaderLength];
      EncodeDecode(b);
      Some(DecodeUint32BE(b))
  }

  /**
   * Two messages of header length are filed under the same key exactly when their
   * bytes 16..19 agree; the first 64 bits of the transaction ID play no part.
   */
  lemma SameKeyIff(m1: seq<Byte>, m2: seq<Byte>)
    requires |m1| >= HeaderLength && |m2| >= HeaderLength
    ensures TransactionKey(m1) == TransactionKey(m2) <==> m1[KeyOffset..HeaderLength] == m2[KeyOffset..HeaderLength]
  {
    var k1, k2 := TransactionKey(m1).value, TransactionKey(m2).value;
    if m1[KeyOffset..HeaderLength] == m2[KeyOffset..HeaderLength] {
      DecodeEncode(k1);
      DecodeEncode(k2);
    }
  }
}
