/** Unsigned big-endian integers, as Python's `int.to_bytes(length, "big")`
    and `int.from_bytes(data, "big")` read and write them. */
module ByteOrder {
  import opened Wrappers

  newtype byte = b: int | 0 <= b < 256

  /** 256^k: how many distinct values k bytes can hold. */
  function Pow256(k: nat): (p: nat)
    ensures p >= 1
  {
    if k == 0 then 1 else 256 * Pow256(k - 1)
  }

  /** The value of `data` read as an unsigned integer, most significant byte first. */
  function FromBytesBigEndian(data: seq<byte>): (n: nat)
    ensures n < Pow256(|data|)
  {
    if data == [] then 0
    else FromBytesBigEndian(data[..|data| - 1]) * 256 + data[|data| - 1] as int
  }

  /** The `length` base-256 digits of n, most significant first; only defined when n fits. */
  function BigEndianDigits(n: nat, length: nat): (digits: seq<byte>)
    requires n < Pow256(length)
    ensures |digits| == length
  {
    if length == 0 then []
    else BigEndianDigits(n / 256, length - 1) + [(n % 256) as byte]
  }

  /** Reading the digits back gives the number they were written from. */
  lemma {:induction false} DigitsDecode(n: nat, length: nat)
    requires n < Pow256(length)
    ensures FromBytesBigEndian(BigEndianDigits(n, length)) == n
  {
    if length > 0 {
      var digits := BigEndianDigits(n, length);
      DigitsDecode(n / 256, length - 1);
      assert digits[..length - 1] == BigEndianDigits(n / 256, length - 1);
    }
  }

  /** Writing a value back with as many bytes as it was read from gives the same bytes. */
  lemma {:induction false} DecodedDigits(data: seq<byte>)
    ensures BigEndianDigits(FromBytesBigEndian(data), |data|) == data
  {
    if data != [] {
      var init := data[..|data| - 1];
      DecodedDigits(init);
      var n := FromBytesBigEndian(data);
      assert n / 256 == FromBytesBigEndian(init);
      assert n % 256 == data[|data| - 1] as int;
      assert data == init + [data[|data| - 1]];
    }
  }

  /** `n.to_bytes(length, byteorder="big")` for a non-negative n: None stands for
      the OverflowError Python raises when n does not fit in `length` bytes. */
  function ToBytesBigEndian(n: nat, length: nat): (r: Option<seq<byte>>)
    ensures r.Some? <==> n < Pow256(length)
    ensures r.Some? ==> |r.value| == length && FromBytesBigEndian(r.value) == n
  {
    if n < Pow256(length) then
      DigitsDecode(n, length);
      Some(BigEndianDigits(n, length))
    else None
  }

  /** The converse direction: every byte string is what `to_bytes` writes for the value
      `from_bytes` reads from it, so the two conversions are inverse bijections between
      `length`-byte strings and [0, 256^length). */
  lemma ToBytesOfFromBytes(data: seq<byte>)
    ensures ToBytesBigEndian(FromBytesBigEndian(data), |data|) == Some(data)
  {
    DecodedDigits(data);
  }

  /** Two byte strings of the same length with the same value are equal. */
  lemma FromBytesInjective(a: seq<byte>, b: seq<byte>)
    requires |a| == |b| && FromBytesBigEndian(a) == FromBytesBigEndian(b)
    ensures a == b
  {
    DecodedDigits(a);
    DecodedDigits(b);
  }
}
