/** The wire protocol between load generator and workers (hermes-common/src/lib.rs): fixed-size
    little-endian headers written in place and read back. */
module Wire {
  import opened Words

  const REQUEST_MAGIC: U32 := 0x4845524d
  const REQUEST_HEADER_LEN := 24
  const RESPONSE_LEN := 16
  const TWO_TO_THE_63 := 0x8000_0000_0000_0000

  type Byte = x: nat | x < 256
  type I64 = x: int | -TWO_TO_THE_63 <= x < TWO_TO_THE_63

  datatype Request = Request(id: U32, serviceUs: U32, sendNs: I64)
  datatype Response = Response(id: U32, workerId: U32, sendNs: I64)

  /** The n low bytes of x, least significant first. */
  function ToLe(x: nat, n: nat): (s: seq<Byte>)
    ensures |s| == n
  {
    if n == 0 then [] else [x % 256] + ToLe(x / 256, n - 1)
  }

  function FromLe(s: seq<Byte>): nat {
    if s == [] then 0 else s[0] + 256 * FromLe(s[1..])
  }

  /** The two's-complement word of a signed number, and back. */
  function ToWord(x: I64): U64 { if x < 0 then x + TWO_TO_THE_64 else x }

  function FromWord(w: U64): I64 { if w >= TWO_TO_THE_63 then w - TWO_TO_THE_64 else w }

  function RequestBytes(r: Request): (s: seq<Byte>)
    ensures |s| == REQUEST_HEADER_LEN
  {
    ToLe(REQUEST_MAGIC, 4) + ToLe(r.id, 4) + ToLe(r.serviceUs, 4) + ToLe(0, 4) + ToLe(ToWord(r.sendNs), 8)
  }

  function ResponseBytes(r: Response): (s: seq<Byte>)
    ensures |s| == RESPONSE_LEN
  {
    ToLe(r.id, 4) + ToLe(r.workerId, 4) + ToLe(ToWord(r.sendNs), 8)
  }

  function U32At(s: seq<Byte>, i: nat): U32
    requires i + 4 <= |s|
  {
    FromLeFits(s[i..i + 4]);
    FromLe(s[i..i + 4])
  }

  function I64At(s: seq<Byte>, i: nat): I64
    requires i + 8 <= |s|
  {
    FromLeFits(s[i..i + 8]);
    FromWord(FromLe(s[i..i + 8]))
  }

  /** None if the magic does not match. */
  function DecodeRequest(s: seq<Byte>): Option<Request>
    requires |s| == REQUEST_HEADER_LEN
  {
    if U32At(s, 0) != REQUEST_MAGIC then None
    else Some(Request(U32At(s, 4), U32At(s, 8), I64At(s, 16)))
  }

  function DecodeResponse(s: seq<Byte>): Response
    requires |s| == RESPONSE_LEN
  {
    Response(U32At(s, 0), U32At(s, 4), I64At(s, 8))
  }

  // ---- writing into the caller's buffer ----

  method CopyInto(buf: array<Byte>, at: nat, src: seq<Byte>)
    requires at + |src| <= buf.Length
    modifies buf
    ensures buf[..] == old(buf[..at]) + src + old(buf[at + |src|..])
  {
    for k := 0 to |src|
      invariant buf[..] == old(buf[..at]) + src[..k] + old(buf[at + k..])
    {
      buf[at + k] := src[k];
    }
  }

  method EncodeRequest(r: Request, buf: array<Byte>)
    requires buf.Length == REQUEST_HEADER_LEN
    modifies buf
    ensures buf[..] == RequestBytes(r)
    ensures DecodeRequest(buf[..]) == Some(r)
  {
    CopyInto(buf, 0, ToLe(REQUEST_MAGIC, 4));
    CopyInto(buf, 4, ToLe(r.id, 4));
    CopyInto(buf, 8, ToLe(r.serviceUs, 4));
    CopyInto(buf, 12, ToLe(0, 4));
    CopyInto(buf, 16, ToLe(ToWord(r.sendNs), 8));
    RequestRoundTrip(r);
  }

  method EncodeResponse(r: Response, buf: array<Byte>)
    requires buf.Length == RESPONSE_LEN
    modifies buf
    ensures buf[..] == ResponseBytes(r)
    ensures DecodeResponse(buf[..]) == r
  {
    CopyInto(buf, 0, ToLe(r.id, 4));
    CopyInto(buf, 4, ToLe(r.workerId, 4));
    CopyInto(buf, 8, ToLe(ToWord(r.sendNs), 8));
    ResponseRoundTrip(r);
  }

  // ---- round trips ----

  lemma {:induction false} LeRoundTrip(x: nat, n: nat)
    requires x < Pow2(8 * n)
    ensures FromLe(ToLe(x, n)) == x
  {
    if n > 0 {
      Pow2Sum(8, 8 * (n - 1));
      assert Pow2(8) == 256;
      LeRoundTrip(x / 256, n - 1);
      assert ToLe(x, n)[1..] == ToLe(x / 256, n - 1);
    }
  }

  lemma {:induction false} FromLeFits(s: seq<Byte>)
    ensures FromLe(s) < Pow2(8 * |s|)
    ensures |s| == 4 ==> FromLe(s) < TWO_TO_THE_32
    ensures |s| == 8 ==> FromLe(s) < TWO_TO_THE_64
  {
    if s != [] {
      Pow2Sum(8, 8 * (|s| - 1));
      assert Pow2(8) == 256;
      FromLeFits(s[1..]);
    }
    Pow2OfWordSizes();
  }

  lemma {:induction false} LeRoundTripBack(s: seq<Byte>)
    ensures ToLe(FromLe(s), |s|) == s
  {
    if s != [] {
      LeRoundTripBack(s[1..]);
      DivUnique(FromLe(s), 256, FromLe(s[1..]), s[0]);
      assert s == [s[0]] + s[1..];
    }
  }

  /** Digit k of a field is the k-th least significant byte of its value. */
  lemma {:induction false} LeDigit(x: nat, n: nat, k: nat)
    requires k < n
    ensures ToLe(x, n)[k] == x / Pow2(8 * k) % 256
  {
    if k > 0 {
      LeDigit(x / 256, n - 1, k - 1);
      assert Pow2(8) == 256;
      Pow2Sum(8, 8 * (k - 1));
      DivTwice(x, 256, Pow2(8 * (k - 1)));
    }
  }

  lemma DivTwice(x: nat, a: nat, b: nat)
    requires a > 0 && b > 0
    ensures a * b > 0 && x / a / b == x / (a * b)
  {
    var q, r := x / a, x % a;
    var p, t := q / b, q % b;
    NestedRemainder(x, a, b, q, p, t, r);
    DivUnique(x, a * b, p, t * a + r);
  }

  /** If x = q a + r and q = p b + t, with proper remainders, then x = p (a b) + (t a + r), also proper. */
  lemma NestedRemainder(x: nat, a: nat, b: nat, q: nat, p: nat, t: nat, r: nat)
    requires 0 <= r < a && 0 <= t < b && x == q * a + r && q == p * b + t
    ensures a * b > 0 && 0 <= t * a + r < a * b && x == p * (a * b) + (t * a + r)
  {
    MulAtLeast(b - t, a);
    assert (b - t) * a == a * b - t * a;
    assert t * a >= 0;
    assert (p * b + t) * a == (p * b) * a + t * a;
    assert (p * b) * a == p * (a * b);
  }

  /** Where each byte of a request lies: magic, number, cost, four zeros, then the timestamp, each
      least significant byte first. */
  lemma RequestLayout(r: Request, k: nat)
    ensures k < 4 ==>
              var s, unit := RequestBytes(r), Pow2(8 * k);
              && s[k] == REQUEST_MAGIC / unit % 256 && s[4 + k] == r.id / unit % 256
              && s[8 + k] == r.serviceUs / unit % 256 && s[12 + k] == 0
    ensures k < 8 ==> RequestBytes(r)[16 + k] == ToWord(r.sendNs) / Pow2(8 * k) % 256
  {
    hide ToLe, ToWord, Pow2;
    if k < 4 {
      LeDigit(REQUEST_MAGIC, 4, k);
      LeDigit(r.id, 4, k);
      LeDigit(r.serviceUs, 4, k);
      LeDigit(0, 4, k);
      DivUnique(0, Pow2(8 * k), 0, 0);
    }
    if k < 8 { LeDigit(ToWord(r.sendNs), 8, k); }
  }

  lemma ResponseLayout(r: Response, k: nat)
    ensures k < 4 ==>
              var s, unit := ResponseBytes(r), Pow2(8 * k);
              s[k] == r.id / unit % 256 && s[4 + k] == r.workerId / unit % 256
    ensures k < 8 ==> ResponseBytes(r)[8 + k] == ToWord(r.sendNs) / Pow2(8 * k) % 256
  {
    hide ToLe, ToWord, Pow2;
    if k < 4 {
      LeDigit(r.id, 4, k);
      LeDigit(r.workerId, 4, k);
    }
    if k < 8 { LeDigit(ToWord(r.sendNs), 8, k); }
  }

  /** Signed and unsigned views of a word determine each other. */
  lemma WordRoundTrip(x: I64, w: U64)
    ensures FromWord(ToWord(x)) == x && ToWord(FromWord(w)) == w
  {
  }

  /** The word of a signed number is congruent to it modulo 2^64: two's complement. */
  lemma WordIsTwosComplement(x: I64, w: U64)
    ensures (ToWord(x) - x) % TWO_TO_THE_64 == 0 && (FromWord(w) - w) % TWO_TO_THE_64 == 0
  {
  }

  /** A request decodes exactly if it starts with the bytes of the magic, whatever the rest. */
  lemma DecodesIffMagic(s: seq<Byte>)
    requires |s| == REQUEST_HEADER_LEN
    ensures DecodeRequest(s).Some? <==> s[0] == 0x4d && s[1] == 0x52 && s[2] == 0x45 && s[3] == 0x48
  {
    FourBytes(s[0], s[1], s[2], s[3]);
    assert s[0..4] == [s[0], s[1], s[2], s[3]];
  }

  lemma FourBytes(a: Byte, b: Byte, c: Byte, d: Byte)
    ensures FromLe([a, b, c, d]) == a + 256 * (b + 256 * (c + 256 * d))
  {
    assert [a, b, c, d][1..] == [b, c, d] && [b, c, d][1..] == [c, d] && [c, d][1..] == [d] && [d][1..] == [];
    assert FromLe([d]) == d && FromLe([c, d]) == c + 256 * d && FromLe([b, c, d]) == b + 256 * (c + 256 * d);
  }

  /** Each decoded field is read where the layout puts it. */
  lemma DecodedFields(s: seq<Byte>)
    requires |s| == REQUEST_HEADER_LEN && DecodeRequest(s).Some?
    ensures var r := DecodeRequest(s).value;
            && ToLe(r.id, 4) == s[4..8] && ToLe(r.serviceUs, 4) == s[8..12] && ToLe(ToWord(r.sendNs), 8) == s[16..24]
  {
    hide ToLe, FromLe, ToWord, FromWord;
    LeRoundTripBack(s[4..8]);
    LeRoundTripBack(s[8..12]);
    LeRoundTripBack(s[16..24]);
    FromLeFits(s[16..24]);
    WordRoundTrip(0, FromLe(s[16..24]));
  }

  lemma FieldRoundTrip(x: U32)
    ensures FromLe(ToLe(x, 4)) == x
  {
    Pow2OfWordSizes();
    LeRoundTrip(x, 4);
  }

  lemma LongFieldRoundTrip(x: I64)
    ensures FromLe(ToLe(ToWord(x), 8)) < TWO_TO_THE_64 && FromWord(FromLe(ToLe(ToWord(x), 8))) == x
  {
    Pow2OfWordSizes();
    LeRoundTrip(ToWord(x), 8);
    WordRoundTrip(x, 0);
  }

  /** Every request survives encoding, for all 32-bit fields and all signed timestamps. */
  lemma RequestRoundTrip(r: Request)
    ensures DecodeRequest(RequestBytes(r)) == Some(r)
  {
    hide ToLe, FromLe, ToWord, FromWord;
    var s := RequestBytes(r);
    assert s[0..4] == ToLe(REQUEST_MAGIC, 4) && s[4..8] == ToLe(r.id, 4) && s[8..12] == ToLe(r.serviceUs, 4);
    assert s[16..24] == ToLe(ToWord(r.sendNs), 8);
    FieldRoundTrip(REQUEST_MAGIC);
    FieldRoundTrip(r.id);
    FieldRoundTrip(r.serviceUs);
    LongFieldRoundTrip(r.sendNs);
  }

  lemma ResponseRoundTrip(r: Response)
    ensures DecodeResponse(ResponseBytes(r)) == r
  {
    hide ToLe, FromLe, ToWord, FromWord;
    var s := ResponseBytes(r);
    assert s[0..4] == ToLe(r.id, 4) && s[4..8] == ToLe(r.workerId, 4) && s[8..16] == ToLe(ToWord(r.sendNs), 8);
    FieldRoundTrip(r.id);
    FieldRoundTrip(r.workerId);
    LongFieldRoundTrip(r.sendNs);
  }

  /** Decoding a response loses nothing: encoding it again gives the same 16 bytes. */
  lemma ResponseRoundTripBack(s: seq<Byte>)
    requires |s| == RESPONSE_LEN
    ensures ResponseBytes(DecodeResponse(s)) == s
  {
    hide ToLe, FromLe, ToWord, FromWord;
    LeRoundTripBack(s[0..4]);
    LeRoundTripBack(s[4..8]);
    LeRoundTripBack(s[8..16]);
    FromLeFits(s[8..16]);
    WordRoundTrip(0, FromLe(s[8..16]));
    assert s == s[0..4] + s[4..8] + s[8..16];
  }

  /** Decoding a request loses exactly its reserved bytes: encoding it again gives the same
      24 bytes if and only if those are zero. */
  lemma RequestRoundTripBack(s: seq<Byte>)
    requires |s| == REQUEST_HEADER_LEN && DecodeRequest(s).Some?
    ensures RequestBytes(DecodeRequest(s).value) == s[..12] + ToLe(0, 4) + s[16..]
    ensures RequestBytes(DecodeRequest(s).value) == s <==> s[12..16] == [0, 0, 0, 0]
  {
    hide FromLe, ToWord, FromWord;
    LeRoundTripBack(s[0..4]);
    LeRoundTripBack(s[4..8]);
    LeRoundTripBack(s[8..12]);
    LeRoundTripBack(s[16..24]);
    FromLeFits(s[16..24]);
    WordRoundTrip(0, FromLe(s[16..24]));
    var t := RequestBytes(DecodeRequest(s).value);
    assert ToLe(0, 4) == [0, 0, 0, 0];
    assert s[..12] == s[0..4] + s[4..8] + s[8..12];
    assert t == s[..12] + ToLe(0, 4) + s[16..];
    assert s == s[..12] + s[12..16] + s[16..];
    assert t[12..16] == ToLe(0, 4);
  }
}
