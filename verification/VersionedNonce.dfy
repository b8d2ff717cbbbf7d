/** `contracts/defuse/core/src/nonce`: 256-bit nonces, and the layout of those that carry a version,
    a salt and a deadline. */
module VersionedNonce {
  import opened Wrappers

  type Byte = b: nat | b < 256

  type Nonce = n: seq<Byte> | |n| == 32 witness seq(32, i => 0)
  type Prefix = p: seq<Byte> | |p| == 31 witness seq(31, i => 0)
  type Salt = s: seq<Byte> | |s| == 4 witness seq(4, i => 0)
  type Random = r: seq<Byte> | |r| == 15 witness seq(15, i => 0)

  const I64_MAX: int := 0x7FFF_FFFF_FFFF_FFFF
  const I64_MIN: int := -0x8000_0000_0000_0000
  const TWO_64: int := 0x1_0000_0000_0000_0000

  /** Nanoseconds as they are serialized. */
  type Nanos = t: int | I64_MIN <= t <= I64_MAX witness 0

  datatype Versioned = V1(salt: Salt, deadline: Nanos, random: Random)

  const MAGIC: seq<Byte> := [0x56, 0x28, 0xF6, 0xC6]

  /** `k` bytes, least significant first. */
  function ToLE(n: nat, k: nat): (bytes: seq<Byte>)
    ensures |bytes| == k
  {
    if k == 0 then [] else [n % 256] + ToLE(n / 256, k - 1)
  }

  function FromLE(bytes: seq<Byte>): (n: nat) {
    if bytes == [] then 0 else bytes[0] + 256 * FromLE(bytes[1..])
  }

  function Pow256(k: nat): (r: nat)
    ensures r >= 1
  {
    if k == 0 then 1 else 256 * Pow256(k - 1)
  }

  lemma {:induction false} LERoundTrip(n: nat, k: nat)
    requires n < Pow256(k)
    ensures FromLE(ToLE(n, k)) == n
  {
    if k > 0 {
      LERoundTrip(n / 256, k - 1);
      assert ToLE(n, k)[1..] == ToLE(n / 256, k - 1);
    }
  }

  lemma {:induction false} LEOnto(bytes: seq<Byte>)
    ensures FromLE(bytes) < Pow256(|bytes|)
    ensures ToLE(FromLE(bytes), |bytes|) == bytes
  {
    if bytes != [] {
      LEOnto(bytes[1..]);
      assert [bytes[0]] + bytes[1..] == bytes;
    }
  }

  /** An `i64` in two's complement, least significant byte first. */
  function EncodeNanos(t: Nanos): (bytes: seq<Byte>)
    ensures |bytes| == 8
  {
    ToLE(if t < 0 then t + TWO_64 else t, 8)
  }

  function DecodeNanos(bytes: seq<Byte>): (t: Nanos)
    requires |bytes| == 8
  {
    LEOnto(bytes);
    assert Pow256(8) == TWO_64;
    var u := FromLE(bytes);
    if u > I64_MAX then u - TWO_64 else u
  }

  /** `From<VersionedNonce> for Nonce`: magic, version tag, salt, deadline, random bytes. */
  function Encode(v: Versioned): (n: Nonce) {
    MAGIC + [0] + v.salt + EncodeNanos(v.deadline) + v.random
  }

  /** `VersionedNonce::maybe_from`: anything but the magic followed by version tag 0 is a legacy
      nonce; the remaining 27 bytes always decode. */
  function MaybeFrom(n: Nonce): (r: Option<Versioned>) {
    if n[..4] == MAGIC && n[4] == 0 then Some(V1(n[5..9], DecodeNanos(n[9..17]), n[17..])) else None
  }

  lemma NanosRoundTrip(t: Nanos)
    ensures DecodeNanos(EncodeNanos(t)) == t
  {
    assert Pow256(8) == TWO_64;
    LERoundTrip(if t < 0 then t + TWO_64 else t, 8);
  }

  lemma NanosOnto(bytes: seq<Byte>)
    requires |bytes| == 8
    ensures EncodeNanos(DecodeNanos(bytes)) == bytes
  {
    LEOnto(bytes);
  }

  /** Decoding undoes encoding. */
  lemma EncodeDecode(v: Versioned)
    ensures MaybeFrom(Encode(v)) == Some(v)
  {
    var n := Encode(v);
    NanosRoundTrip(v.deadline);
    assert n[..4] == MAGIC;
    assert n[5..9] == v.salt;
    assert n[9..17] == EncodeNanos(v.deadline);
    assert n[17..] == v.random;
  }

  /** A nonce that decodes is the encoding of what it decodes to: no two nonces share a versioned
      reading. */
  lemma DecodeEncode(n: Nonce)
    requires MaybeFrom(n).Some?
    ensures Encode(MaybeFrom(n).value) == n
  {
    var v := MaybeFrom(n).value;
    NanosOnto(n[9..17]);
    assert n == n[..4] + [n[4]] + n[5..9] + n[9..17] + n[17..];
  }

  /** The encoder as it runs: the fields are written one after the other into a zeroed buffer of
      32 bytes, which they fill exactly. */
  method IntoNonce(v: Versioned) returns (buffer: array<Byte>)
    ensures fresh(buffer) && buffer.Length == 32
    ensures buffer[..] == Encode(v)
  {
    buffer := new Byte[32](i => 0);
    var at := 0;
    var fields := Fields(v);
    for f := 0 to 5
      invariant at == Start(f) && buffer[..at] == Encode(v)[..at]
    {
      WriteAt(buffer, at, fields[f]);
      FieldSlices(v, f);
      assert buffer[..at + |fields[f]|] == buffer[..at] + fields[f];
      at := at + |fields[f]|;
    }
  }

  function Fields(v: Versioned): (fields: seq<seq<Byte>>)
    ensures |fields| == 5
  {
    [MAGIC, [0], v.salt, EncodeNanos(v.deadline), v.random]
  }

  lemma FieldSlices(v: Versioned, f: nat)
    requires f < 5
    ensures Start(f + 1) == Start(f) + |Fields(v)[f]|
    ensures Encode(v)[Start(f)..Start(f + 1)] == Fields(v)[f]
  {
    var n := Encode(v);
    assert n[0..4] == MAGIC;
    assert n[4..5] == [0];
    assert n[5..9] == v.salt;
    assert n[9..17] == EncodeNanos(v.deadline);
    assert n[17..32] == v.random;
  }

  /** Where each field starts. */
  function Start(f: nat): nat
    requires f <= 5
  {
    [0, 4, 5, 9, 17, 32][f]
  }

  method WriteAt(buffer: array<Byte>, at: nat, bytes: seq<Byte>)
    requires at + |bytes| <= buffer.Length
    modifies buffer
    ensures buffer[..at] == old(buffer[..at])
    ensures buffer[at..at + |bytes|] == bytes
  {
    for i := 0 to |bytes|
      invariant buffer[..at] == old(buffer[..at])
      invariant buffer[at..at + i] == bytes[..i]
    {
      buffer[at + i] := bytes[i];
    }
  }

  /** The 256 nonces under one 31-byte prefix are all legacy, or all carry the same salt and the same
      deadline: what the last byte changes is random. */
  lemma PrefixSharesFields(a: Nonce, b: Nonce)
    requires a[..31] == b[..31]
    ensures MaybeFrom(a).Some? <==> MaybeFrom(b).Some?
    ensures MaybeFrom(a).Some? ==>
              && MaybeFrom(a).value.salt == MaybeFrom(b).value.salt
              && MaybeFrom(a).value.deadline == MaybeFrom(b).value.deadline
  {
    assert a[..4] == a[..31][..4] && b[..4] == b[..31][..4];
    assert a[4] == a[..31][4] && b[4] == b[..31][4];
    assert a[5..9] == a[..31][5..9] && b[5..9] == b[..31][5..9];
    assert a[9..17] == a[..31][9..17] && b[9..17] == b[..31][9..17];
  }
}
