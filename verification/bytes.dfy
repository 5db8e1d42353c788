/** Bytes in memory and on the wire, and the eight-byte `int64_t` representation
    that every length prefix uses (two's complement, least significant byte first,
    as on the x86 and ARM targets the library is built for). */
module Bytes {
  import Division

  type Byte = b: int | 0 <= b < 256
  type Message = seq<Byte>

  const PREFIX_SIZE: nat := 8
  const INT64_MODULUS: int := 0x1_0000_0000_0000_0000
  const INT64_LIMIT: int := 0x8000_0000_0000_0000

  predicate IsInt64(n: int) {
    -INT64_LIMIT <= n < INT64_LIMIT
  }

  function Pow256(k: nat): (p: nat)
    ensures p >= 1
  {
    if k == 0 then 1 else 256 * Pow256(k - 1)
  }

  function LittleEndian(n: nat, width: nat): (b: seq<Byte>)
    ensures |b| == width
  {
    if width == 0 then [] else [n % 256] + LittleEndian(n / 256, width - 1)
  }

  function FromLittleEndian(b: seq<Byte>): nat {
    if b == [] then 0 else b[0] + 256 * FromLittleEndian(b[1..])
  }

  /** The object representation of an `int64_t`. */
  function Encode64(n: int): (b: seq<Byte>)
    requires IsInt64(n)
    ensures |b| == PREFIX_SIZE
  {
    LittleEndian(if n < 0 then n + INT64_MODULUS else n, PREFIX_SIZE)
  }

  /** The `int64_t` read back through `*reinterpret_cast<int64_t*>`. */
  function Decode64(b: seq<Byte>): int
    requires |b| == PREFIX_SIZE
  {
    var u := FromLittleEndian(b);
    if u >= INT64_LIMIT then u - INT64_MODULUS else u
  }

  lemma {:induction false} LittleEndianAt(n: nat, width: nat, i: nat)
    requires i < width
    ensures LittleEndian(n, width)[i] == (n / Pow256(i)) % 256
  {
    if i > 0 {
      LittleEndianAt(n / 256, width - 1, i - 1);
      Division.DivideTwice(n, 256, Pow256(i - 1), Pow256(i));
    }
  }

  /** Byte `i` of a length is its `i`-th digit to the base 256, in two's complement. */
  lemma PrefixBytes(n: int, i: nat)
    requires IsInt64(n) && i < PREFIX_SIZE
    ensures var u := if n < 0 then n + 0x1_0000_0000_0000_0000 else n;
      Encode64(n)[i] == (u / Pow256(i)) % 256
  {
    LittleEndianAt(if n < 0 then n + INT64_MODULUS else n, PREFIX_SIZE, i);
  }

  lemma {:induction false} LittleEndianRoundTrip(n: nat, width: nat)
    requires n < Pow256(width)
    ensures FromLittleEndian(LittleEndian(n, width)) == n
  {
    if width == 0 {
    } else {
      var b := LittleEndian(n, width);
      assert b[1..] == LittleEndian(n / 256, width - 1);
      assert n / 256 < Pow256(width - 1);
      LittleEndianRoundTrip(n / 256, width - 1);
    }
  }

  lemma {:induction false} FromLittleEndianRoundTrip(b: seq<Byte>)
    ensures FromLittleEndian(b) < Pow256(|b|)
    ensures LittleEndian(FromLittleEndian(b), |b|) == b
  {
    if b == [] {
    } else {
      FromLittleEndianRoundTrip(b[1..]);
      var n := FromLittleEndian(b);
      assert n / 256 == FromLittleEndian(b[1..]) && n % 256 == b[0];
    }
  }

  lemma PowerOfPrefix()
    ensures Pow256(PREFIX_SIZE) == INT64_MODULUS
  {
    assert Pow256(4) == 256 * Pow256(3) == 0x1_0000_0000;
    assert Pow256(6) == 256 * Pow256(5);
    assert Pow256(8) == 256 * Pow256(7);
  }

  /** Storing a length and loading it again yields the same length, for every `int64_t`. */
  lemma PrefixRoundTrip(n: int)
    requires IsInt64(n)
    ensures Decode64(Encode64(n)) == n
  {
    PowerOfPrefix();
    LittleEndianRoundTrip(if n < 0 then n + INT64_MODULUS else n, PREFIX_SIZE);
  }

  /** Every eight bytes are the representation of exactly one `int64_t`. */
  lemma PrefixBytesRoundTrip(b: seq<Byte>)
    requires |b| == PREFIX_SIZE
    ensures IsInt64(Decode64(b))
    ensures Encode64(Decode64(b)) == b
  {
    PowerOfPrefix();
    FromLittleEndianRoundTrip(b);
  }

  /** A length-prefixed message, as it lies on a socket stream or in an RDMA region. */
  function Frame(m: Message): (b: seq<Byte>)
    requires IsInt64(|m|)
    ensures |b| == PREFIX_SIZE + |m|
  {
    Encode64(|m|) + m
  }

  /** Memory that starts with a message's frame yields its length at offset 0 and its payload at offset 8. */
  lemma FrameReadsBack(memory: seq<Byte>, m: Message)
    requires IsInt64(|m|) && Frame(m) <= memory
    ensures Decode64(memory[..PREFIX_SIZE]) == |m|
    ensures memory[PREFIX_SIZE..PREFIX_SIZE + |m|] == m
  {
    var frame := Frame(m);
    assert memory[..PREFIX_SIZE] == frame[..PREFIX_SIZE] == Encode64(|m|);
    assert memory[PREFIX_SIZE..PREFIX_SIZE + |m|] == frame[PREFIX_SIZE..] == m;
    PrefixRoundTrip(|m|);
  }

  /** `memcpy` of `data` into memory at an offset. */
  function Store(memory: seq<Byte>, offset: nat, data: seq<Byte>): (r: seq<Byte>)
    requires offset + |data| <= |memory|
    ensures |r| == |memory|
    ensures r[..offset] == memory[..offset]
    ensures r[offset..offset + |data|] == data
    ensures r[offset + |data|..] == memory[offset + |data|..]
  {
    memory[..offset] + data + memory[offset + |data|..]
  }

  /** The length at offset 0 and then the payload at offset 8 make the frame. */
  lemma StorePrefixThenPayload(memory: seq<Byte>, payload: Message)
    requires IsInt64(|payload|) && PREFIX_SIZE + |payload| <= |memory|
    ensures Store(Store(memory, 0, Encode64(|payload|)), PREFIX_SIZE, payload) == Store(memory, 0, Frame(payload))
  {
  }

  /** So do the payload at offset 8 and then the length at offset 0. */
  lemma StoreThenPrefix(memory: seq<Byte>, m: Message)
    requires IsInt64(|m|) && PREFIX_SIZE + |m| <= |memory| && memory[PREFIX_SIZE..PREFIX_SIZE + |m|] == m
    ensures Store(memory, 0, Encode64(|m|))[..PREFIX_SIZE + |m|] == Frame(m)
  {
    var stored := Store(memory, 0, Encode64(|m|));
    assert stored[..PREFIX_SIZE] == Encode64(|m|);
    assert stored[PREFIX_SIZE..PREFIX_SIZE + |m|] == memory[PREFIX_SIZE..PREFIX_SIZE + |m|];
    assert stored[..PREFIX_SIZE + |m|] == stored[..PREFIX_SIZE] + stored[PREFIX_SIZE..PREFIX_SIZE + |m|];
  }

  method Memcpy(destination: array<Byte>, offset: nat, data: seq<Byte>)
    requires offset + |data| <= destination.Length
    modifies destination
    ensures destination[..] == Store(old(destination[..]), offset, data)
  {
    forall i | 0 <= i < |data| {
      destination[offset + i] := data[i];
    }
  }

  function Zeros(n: nat): (b: seq<Byte>)
    ensures |b| == n && forall i :: 0 <= i < n ==> b[i] == 0
  {
    seq(n, _ => 0)
  }

  /** `std::string(buffer.data(), n)`: the characters of a byte buffer. */
  function Text(b: seq<Byte>): (s: string)
    ensures |s| == |b| && forall i :: 0 <= i < |b| ==> s[i] as int == b[i]
  {
    seq(|b|, i requires 0 <= i < |b| => b[i] as char)
  }

  predicate IsText(s: string) {
    forall i :: 0 <= i < |s| ==> s[i] as int < 256
  }

  /** `usageId.c_str()`: the bytes a string occupies. */
  function TextBytes(s: string): (b: seq<Byte>)
    requires IsText(s)
    ensures |b| == |s| && forall i :: 0 <= i < |s| ==> b[i] == s[i] as int
  {
    seq(|s|, i requires 0 <= i < |s| => s[i] as int)
  }
}
