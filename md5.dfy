// MD5 as src-xpl/xpl_hash_md5.c computes it: the RSA reference code of
// RFC 1321 around a context of four state words, a 64-bit bit count kept
// as two 32-bit words, a 64-byte block buffer and the finished digest.
// Module Md5 holds the words and bytes, the block transform and the
// context as a value; module Md5Object is the context updated in place.

module Md5 {
  import opened Arith

  type Byte = x: int | 0 <= x < 0x100

  /** A uint32_t kept as a number; the transform does its bit operations on
      32-bit vectors. */
  type Word = x: int | 0 <= x < 0x1_0000_0000

  /** The two words of the bit count. */
  type U32 = Word

  /** The four state words A, B, C, D. */
  type State = s: seq<Word> | |s| == 4 witness [0, 0, 0, 0]

  /** One 64-byte input block. */
  type Block = b: seq<Byte> | |b| == 64 witness seq(64, _ => 0)

  /** A block function such as md5_transform. The context logic below is
      stated for any of them and used with Transform. */
  type BlockFunction = (State, Block) -> State

  const TwoTo32: int := 0x1_0000_0000
  const TwoTo64: int := 0x1_0000_0000_0000_0000

  function Zeros(n: nat): (z: seq<Byte>)
    ensures |z| == n && forall i :: 0 <= i < n ==> z[i] == 0
  {
    seq(n, _ => 0)
  }

  // ---- md5_decode and md5_encode: little-endian words

  /** Four bytes, least significant first, as one word: byte k shifted
      left by 8k bits, which on a number is multiplying by 256^k. */
  function WordOf(b: seq<Byte>): Word
    requires |b| == 4
  {
    b[0] as int + (b[1] as int) * 0x100 + (b[2] as int) * 0x1_0000 + (b[3] as int) * 0x100_0000
  }

  /** A word as four bytes, least significant first: shifted right by 8k
      bits and masked with 0xff. */
  function BytesOf(w: Word): (b: seq<Byte>)
    ensures |b| == 4
  {
    [w % 0x100, (w / 0x100) % 0x100, (w / 0x1_0000) % 0x100, (w / 0x100_0000) % 0x100]
  }

  lemma WordOfBytesOf(w: Word)
    ensures WordOf(BytesOf(w)) == w
  {
    var b := BytesOf(w);
    DivMod(w, 0x100, w / 0x100, b[0]);
    DivMod(w / 0x100, 0x100, w / 0x1_0000, b[1]);
    DivMod(w / 0x1_0000, 0x100, w / 0x100_0000, b[2]);
    DivMod(w / 0x100_0000, 0x100, 0, b[3]);
  }

  lemma BytesOfWordOf(b: seq<Byte>)
    requires |b| == 4
    ensures BytesOf(WordOf(b)) == b
  {
    var w := WordOf(b);
    var t3 := b[3] as int;
    var t2 := b[2] as int + t3 * 0x100;
    var t1 := b[1] as int + t2 * 0x100;
    assert w == b[0] as int + t1 * 0x100;
    DivMod(w, 0x100, t1, b[0]);
    DivMod(w, 0x1_0000, t2, b[0] as int + (b[1] as int) * 0x100);
    DivMod(w, 0x100_0000, t3, b[0] as int + (b[1] as int) * 0x100 + (b[2] as int) * 0x1_0000);
    DivMod(t1, 0x100, t2, b[1]);
    DivMod(t2, 0x100, t3, b[2]);
    DivMod(t3, 0x100, 0, b[3]);
  }

  /** md5_decode: every four bytes become one word. */
  function Decode(b: seq<Byte>): (ws: seq<Word>)
    requires |b| % 4 == 0
    ensures |ws| == |b| / 4
    decreases |b|
  {
    if |b| == 0 then [] else Decode(b[..|b| - 4]) + [WordOf(b[|b| - 4..])]
  }

  /** md5_encode: every word becomes four bytes. */
  function Encode(ws: seq<Word>): (b: seq<Byte>)
    ensures |b| == 4 * |ws|
  {
    if |ws| == 0 then [] else Encode(ws[..|ws| - 1]) + BytesOf(ws[|ws| - 1])
  }

  /** Decoding four more bytes appends their word. */
  lemma DecodeNext(b: seq<Byte>, j: nat)
    requires j % 4 == 0 && j + 4 <= |b|
    ensures Decode(b[..j + 4]) == Decode(b[..j]) + [WordOf(b[j..j + 4])]
  {
    assert b[..j + 4][..j] == b[..j];
    assert b[..j + 4][j..] == b[j..j + 4];
  }

  /** Encoding one more word appends its bytes. */
  lemma EncodeNext(ws: seq<Word>, w: Word)
    ensures Encode(ws + [w]) == Encode(ws) + BytesOf(w)
  {
    assert (ws + [w])[..|ws|] == ws;
  }

  /** Decoding what was encoded gives the words back. */
  lemma {:induction false} DecodeEncode(ws: seq<Word>)
    ensures Decode(Encode(ws)) == ws
  {
    if |ws| > 0 {
      var n := |ws| - 1;
      assert ws == ws[..n] + [ws[n]];
      EncodeNext(ws[..n], ws[n]);
      var pre := Encode(ws[..n]);
      var b := pre + BytesOf(ws[n]);
      assert b[..|b| - 4] == pre && b[|b| - 4..] == BytesOf(ws[n]);
      DecodeEncode(ws[..n]);
      WordOfBytesOf(ws[n]);
    }
  }

  /** Encoding what was decoded gives the bytes back. */
  lemma {:induction false} EncodeDecode(b: seq<Byte>)
    requires |b| % 4 == 0
    ensures Encode(Decode(b)) == b
    decreases |b|
  {
    if |b| > 0 {
      var pre, last := b[..|b| - 4], b[|b| - 4..];
      assert b == pre + last;
      EncodeDecode(pre);
      EncodeNext(Decode(pre), WordOf(last));
      BytesOfWordOf(last);
    }
  }

  // ---- md5_transform

  /** The 64 additive constants of the four rounds, in step order. */
  const K: seq<bv32> := [
    0xd76aa478, 0xe8c7b756, 0x242070db, 0xc1bdceee,
    0xf57c0faf, 0x4787c62a, 0xa8304613, 0xfd469501,
    0x698098d8, 0x8b44f7af, 0xffff5bb1, 0x895cd7be,
    0x6b901122, 0xfd987193, 0xa679438e, 0x49b40821,
    0xf61e2562, 0xc040b340, 0x265e5a51, 0xe9b6c7aa,
    0xd62f105d, 0x02441453, 0xd8a1e681, 0xe7d3fbc8,
    0x21e1cde6, 0xc33707d6, 0xf4d50d87, 0x455a14ed,
    0xa9e3e905, 0xfcefa3f8, 0x676f02d9, 0x8d2a4c8a,
    0xfffa3942, 0x8771f681, 0x6d9d6122, 0xfde5380c,
    0xa4beea44, 0x4bdecfa9, 0xf6bb4b60, 0xbebfbc70,
    0x289b7ec6, 0xeaa127fa, 0xd4ef3085, 0x04881d05,
    0xd9d4d039, 0xe6db99e5, 0x1fa27cf8, 0xc4ac5665,
    0xf4292244, 0x432aff97, 0xab9423a7, 0xfc93a039,
    0x655b59c3, 0x8f0ccc92, 0xffeff47d, 0x85845dd1,
    0x6fa87e4f, 0xfe2ce6e0, 0xa3014314, 0x4e0811a1,
    0xf7537e82, 0xbd3af235, 0x2ad7d2bb, 0xeb86d391
  ]

  /** The rotation S11..S44 of step i: four amounts per round. */
  function Shift(i: nat): (s: nat)
    requires i < 64
    ensures 0 < s < 32
  {
    var j := i % 4;
    if i < 16 then [7, 12, 17, 22][j]
    else if i < 32 then [5, 9, 14, 20][j]
    else if i < 48 then [4, 11, 16, 23][j]
    else [6, 10, 15, 21][j]
  }

  /** The message word step i adds: in order in round 1, then from 1 by 5,
      from 5 by 3 and from 0 by 7, all modulo 16. */
  function MessageIndex(i: nat): (k: nat)
    requires i < 64
    ensures k < 16
  {
    if i < 16 then i
    else if i < 32 then (1 + 5 * i) % 16
    else if i < 48 then (5 + 3 * i) % 16
    else (7 * i) % 16
  }

  /** F, G, H and I of the four rounds. */
  function Mix(i: nat, b: bv32, c: bv32, d: bv32): bv32
  {
    if i < 16 then (b & c) | (!b & d)
    else if i < 32 then (b & d) | (c & !d)
    else if i < 48 then b ^ c ^ d
    else c ^ (b | !d)
  }

  function RotateLeft(x: bv32, n: nat): bv32
    requires 0 < n < 32
  {
    (x << n) | (x >> (32 - n))
  }

  /** The four working words a, b, c, d. */
  datatype Quad = Quad(a: bv32, b: bv32, c: bv32, d: bv32)

  /** One FF/GG/HH/II step: the updated word is b plus the rotated sum, and
      the roles rotate so that the next step updates the word before it. */
  function Step(q: Quad, x: seq<Word>, i: nat): Quad
    requires i < 64 && |x| == 16
  {
    var sum := q.a + Mix(i, q.b, q.c, q.d) + x[MessageIndex(i)] as bv32 + K[i];
    Quad(q.d, q.b + RotateLeft(sum, Shift(i)), q.b, q.c)
  }

  function Steps(q: Quad, x: seq<Word>, i: nat): Quad
    requires i <= 64 && |x| == 16
    decreases 64 - i
  {
    if i == 64 then q else Steps(Step(q, x, i), x, i + 1)
  }

  /** A state word plus a working word, as uint32_t addition. */
  function AddWord(x: Word, y: bv32): Word
  {
    (x + y as int) % TwoTo32
  }

  /** The working words after the steps, added into the state words. */
  function AddQuad(state: State, q: Quad): State
  {
    [AddWord(state[0], q.a), AddWord(state[1], q.b), AddWord(state[2], q.c), AddWord(state[3], q.d)]
  }

  /** md5_transform: 64 steps over the decoded block, added into the state. */
  function Transform(state: State, block: Block): State
  {
    AddQuad(state, Steps(Quad(state[0] as bv32, state[1] as bv32, state[2] as bv32, state[3] as bv32), Decode(block), 0))
  }

  // ---- absorbing whole blocks

  /** The state after f has taken every 64-byte block of data in turn. */
  function Absorb(f: BlockFunction, state: State, data: seq<Byte>): State
    requires |data| % 64 == 0
    decreases |data|
  {
    if |data| == 0 then state
    else f(Absorb(f, state, data[..|data| - 64]), data[|data| - 64..])
  }

  /** Absorbing two pieces one after the other is absorbing their concatenation. */
  lemma {:induction false} AbsorbConcat(f: BlockFunction, state: State, a: seq<Byte>, b: seq<Byte>)
    requires |a| % 64 == 0 && |b| % 64 == 0
    ensures Absorb(f, state, a + b) == Absorb(f, Absorb(f, state, a), b)
    decreases |b|
  {
    if |b| == 0 {
      assert a + b == a;
    } else {
      var b' := b[..|b| - 64];
      AbsorbConcat(f, state, a, b');
      assert (a + b)[..|a + b| - 64] == a + b';
      assert (a + b)[|a + b| - 64..] == b[|b| - 64..];
    }
  }

  /** Absorbing the input up to one more block takes that block last. */
  lemma AbsorbStep(f: BlockFunction, state: State, input: seq<Byte>, from: nat, i: nat)
    requires from <= i && i + 64 <= |input| && (i - from) % 64 == 0
    ensures (i + 64 - from) % 64 == 0
    ensures Absorb(f, state, input[from..i + 64]) == f(Absorb(f, state, input[from..i]), input[i..i + 64])
  {
    var taken := input[from..i + 64];
    assert taken[..i - from] == input[from..i];
    assert taken[i - from..] == input[i..i + 64];
  }

  lemma AbsorbOne(f: BlockFunction, state: State, block: Block)
    ensures Absorb(f, state, block) == f(state, block)
  {
    assert block[..0] == [] && block[0..] == block;
  }

  /** The length of the whole blocks at the start of n bytes. */
  function WholeBlocks(n: nat): (w: nat)
    ensures w % 64 == 0 && w <= n < w + 64
  {
    n / 64 * 64
  }

  // ---- the message digest of RFC 1321, section 3

  /** The initial A, B, C, D of section 3.3. */
  const Init: State := [0x67452301, 0xefcdab89, 0x98badcfe, 0x10325476]

  /** The bit length modulo 2^64 as eight bytes, low word first (section 3.2). */
  function LengthBytes(n: nat): seq<Byte>
  {
    var bits := (n * 8) % TwoTo64;
    Encode([bits % TwoTo32, bits / TwoTo32])
  }

  /** The message padded as in sections 3.1 and 3.2: a 1 bit, zero bits up
      to 448 modulo 512, then the length. */
  function Padded(m: seq<Byte>): (p: seq<Byte>)
    ensures |p| % 64 == 0 && |m| + 9 <= |p| <= |m| + 72
  {
    var z := (55 - |m| % 64) % 64;
    m + [0x80] + Zeros(z) + LengthBytes(|m|)
  }

  /** The padded message starts with the message and then the 1 bit. */
  lemma PaddedSpec(m: seq<Byte>)
    ensures Padded(m)[..|m|] == m && Padded(m)[|m|] == 0x80
  {
    assert Padded(m)[..|m|] == m;
  }

  /** The 16-byte digest of section 3.5, with f as the block function. */
  function Digest(f: BlockFunction, m: seq<Byte>): (d: seq<Byte>)
    ensures |d| == 16
  {
    Encode(Absorb(f, Init, Padded(m)))
  }

  // ---- md5_characterize: lower-case hex

  const HexDigits: string := "0123456789abcdef"

  /** Each byte as two lower-case hex digits, high nibble first ("%02x"). */
  function Hex(raw: seq<Byte>): (h: string)
    ensures |h| == 2 * |raw| && |h| % 2 == 0
  {
    if |raw| == 0 then ""
    else
      var b := raw[|raw| - 1];
      Hex(raw[..|raw| - 1]) + [HexDigits[b / 16], HexDigits[b % 16]]
  }

  function DigitValue(ch: char): int
  {
    if '0' <= ch <= '9' then ch as int - '0' as int else ch as int - 'a' as int + 10
  }

  /** Reads pairs of hex digits back into bytes. */
  function Unhex(h: string): (raw: seq<Byte>)
    requires |h| % 2 == 0
    decreases |h|
  {
    if |h| == 0 then [] else Unhex(h[..|h| - 2]) + [ByteOf(h[|h| - 2], h[|h| - 1])]
  }

  /** The byte a pair of hex digits spells, high digit first; 0 for a pair
      that spells none. */
  function ByteOf(hi: char, lo: char): Byte
  {
    var v := DigitValue(hi) * 16 + DigitValue(lo);
    if 0 <= v < 256 then v else 0
  }

  lemma DigitValueOf(k: int)
    requires 0 <= k < 16
    ensures DigitValue(HexDigits[k]) == k
  {
  }

  /** The two digits of a byte read back as the byte. */
  lemma DigitsOfByte(b: Byte)
    ensures ByteOf(HexDigits[b / 16], HexDigits[b % 16]) == b
  {
    DigitValueOf(b / 16);
    DigitValueOf(b % 16);
  }

  /** Reading one more pair of digits appends its byte. */
  lemma UnhexNext(h: string, hi: char, lo: char)
    requires |h| % 2 == 0
    ensures Unhex(h + [hi, lo]) == Unhex(h) + [ByteOf(hi, lo)]
  {
    assert (h + [hi, lo])[..|h|] == h;
  }

  /** The hex text reads back as the bytes. */
  lemma {:induction false} HexRoundTrip(raw: seq<Byte>)
    ensures Unhex(Hex(raw)) == raw
  {
    if |raw| > 0 {
      var n := |raw| - 1;
      assert raw == raw[..n] + [raw[n]];
      var b := raw[n];
      assert Hex(raw) == Hex(raw[..n]) + [HexDigits[b / 16], HexDigits[b % 16]];
      HexRoundTrip(raw[..n]);
      UnhexNext(Hex(raw[..n]), HexDigits[b / 16], HexDigits[b % 16]);
      DigitsOfByte(b);
      assert Unhex(Hex(raw)) == Unhex(Hex(raw[..n])) + [b];
    }
  }

  /** The hex text holds only lower-case hex digits. */
  lemma {:induction false} HexDigitsOnly(raw: seq<Byte>)
    ensures forall i :: 0 <= i < |Hex(raw)| ==> Hex(raw)[i] in HexDigits
  {
    if |raw| > 0 {
      var n := |raw| - 1;
      var h := Hex(raw);
      HexDigitsOnly(raw[..n]);
      forall i | 0 <= i < |h|
        ensures h[i] in HexDigits
      {
        if i < |h| - 2 {
          assert h[i] == Hex(raw[..n])[i];
        }
      }
    }
  }

  // ---- the context

  /** The fields of xpl_md5_context_t; the digest text leaves out its NUL. */
  datatype Context = Context(finished: bool, state: State, count0: U32, count1: U32,
                             buffer: Block, digestRaw: seq<Byte>, digestChars: string)

  /** xpl_md5_new: the initial words, a zero count and a cleared digest. */
  const New: Context := Context(false, Init, 0, 0, Zeros(64), Zeros(16), seq(32, _ => '\0'))

  /** The low count word of md5_update: the input's bit count added modulo 2^32. */
  function LowCount(lo: U32, len: nat): U32
  {
    (lo + (len * 8) % TwoTo32) % TwoTo32
  }

  /** The high count word: one more when the low word wrapped, plus the
      input's bits above the low word (len >> 29). */
  function HighCount(lo: U32, hi: U32, len: nat): U32
  {
    var carried := if LowCount(lo, len) < (len * 8) % TwoTo32 then (hi + 1) % TwoTo32 else hi;
    (carried + len / 0x2000_0000) % TwoTo32
  }

  /** The block part of md5_update with `index` bytes already held: the held
      bytes are completed to a block and transformed, then every whole block
      of the input, and the remainder is copied to the front of the buffer;
      a short input is only copied in after the held bytes. */
  function Take(f: BlockFunction, state: State, buffer: Block, index: nat, input: seq<Byte>): (State, Block)
    requires index < 64
  {
    var partLength := 64 - index;
    if |input| >= partLength then
      var filled := buffer[..index] + input[..partLength];
      var whole := partLength + WholeBlocks(|input| - partLength);
      var rest := input[whole..];
      (Absorb(f, f(state, filled), input[partLength..whole]), rest + filled[|rest|..])
    else
      (state, buffer[..index] + input + buffer[index + |input|..])
  }

  /** xpl_md5_update with f as the block function: the count gains the
      input's bits and the blocks are taken in. After finish the context is
      left as it is. */
  function Update(f: BlockFunction, c: Context, input: seq<Byte>): Context
    requires |input| < TwoTo32
  {
    if c.finished then c
    else
      var taken := Take(f, c.state, c.buffer, (c.count0 / 8) % 64, input);
      c.(state := taken.0, buffer := taken.1,
         count0 := LowCount(c.count0, |input|), count1 := HighCount(c.count0, c.count1, |input|))
  }

  /** PADDING: 0x80 followed by zeros. */
  const PaddingBlock: Block := [0x80] + Zeros(63)

  /** The padding finish writes: up to 56 modulo 64, a whole block more
      when 56 or more bytes are held. */
  function PadLength(c: Context): (k: nat)
    ensures 1 <= k <= 64
  {
    var index := (c.count0 / 8) % 64;
    if index < 56 then 56 - index else 120 - index
  }

  /** The padded state: the padding, then the count saved before it. */
  function Padding(f: BlockFunction, c: Context): Context
  {
    Update(f, Update(f, c, PaddingBlock[..PadLength(c)]), Encode([c.count0, c.count1]))
  }

  /** The context finish leaves: finished, state, count and buffer zeroed,
      and the digest with its hex text. */
  function Closed(raw: seq<Byte>): Context
  {
    Context(true, [0, 0, 0, 0], 0, 0, Zeros(64), raw, Hex(raw))
  }

  /** xpl_md5_finish: pad, store the state as the digest and zero the rest. */
  function Finish(f: BlockFunction, c: Context): Context
  {
    Closed(Encode(Padding(f, c).state))
  }

  // ---- what the context promises

  /** The state has absorbed the whole blocks of m and the buffer starts
      with the bytes after them. */
  predicate Holds(f: BlockFunction, state: State, buffer: Block, m: seq<Byte>)
  {
    var w := WholeBlocks(|m|);
    state == Absorb(f, Init, m[..w]) && buffer[..|m| - w] == m[w..]
  }

  /** The context has taken in the message m: the count is its length in
      bits modulo 2^64 and state and buffer hold it. */
  predicate Tracks(f: BlockFunction, c: Context, m: seq<Byte>)
  {
    && !c.finished
    && c.count1 * TwoTo32 + c.count0 == (|m| * 8) % TwoTo64
    && Holds(f, c.state, c.buffer, m)
  }

  lemma NewTracksNothing(f: BlockFunction)
    ensures Tracks(f, New, [])
  {
  }

  /** The two count words split the bit count, and the buffered byte count
      md5_update and md5_finish compute from the low word is the message
      length modulo 64. */
  lemma CountWords(n: nat, lo: U32, hi: U32)
    requires hi * TwoTo32 + lo == (n * 8) % TwoTo64
    ensures lo == (n * 8) % TwoTo32 && hi == ((n * 8) % TwoTo64) / TwoTo32
    ensures (lo / 8) % 64 == n - WholeBlocks(n)
  {
    var q := n / 0x2000_0000_0000_0000;
    var r := n % 0x2000_0000_0000_0000;
    DivMod(n * 8, TwoTo64, q, r * 8);
    DivMod(r * 8, TwoTo32, hi, lo);
    DivMod(n * 8, TwoTo32, q * TwoTo32 + hi, lo);
    var b := r - hi * 0x2000_0000;
    DivMod(lo, 8, b, 0);
    DivMod(n, 64, q * 0x80_0000_0000_0000 + hi * 0x80_0000 + b / 64, b % 64);
  }

  /** The count update of md5_update adds the input's bits modulo 2^64. */
  lemma CountAdvance(n: nat, len: nat, lo: U32, hi: U32)
    requires hi * TwoTo32 + lo == (n * 8) % TwoTo64 && len < TwoTo32
    ensures HighCount(lo, hi, len) * TwoTo32 + LowCount(lo, len) == ((n + len) * 8) % TwoTo64
  {
    var carry := LowCarry(lo, len);
    var high := len / 0x2000_0000;
    HighSum(lo, hi, len, carry);
    assert len * 8 == high * TwoTo32 + (len * 8) % TwoTo32;
    assert hi * TwoTo32 + lo + len * 8 == (hi + carry + high) * TwoTo32 + LowCount(lo, len);
    ModShift(hi + carry + high, LowCount(lo, len));
    ModAddMod(n * 8, len * 8);
  }

  /** The low word wraps exactly when its new value is below the bits added. */
  lemma LowCarry(lo: U32, len: nat) returns (carry: nat)
    ensures carry == (if LowCount(lo, len) < (len * 8) % TwoTo32 then 1 else 0)
    ensures lo + (len * 8) % TwoTo32 == carry * TwoTo32 + LowCount(lo, len)
    ensures len * 8 == (len / 0x2000_0000) * TwoTo32 + (len * 8) % TwoTo32
  {
    var low := (len * 8) % TwoTo32;
    DivMod(len * 8, TwoTo32, len / 0x2000_0000, (len % 0x2000_0000) * 8);
    carry := if LowCount(lo, len) < low then 1 else 0;
    DivMod(lo + low, TwoTo32, carry, LowCount(lo, len));
  }

  /** The high word is the old one plus the carry plus len >> 29, modulo 2^32. */
  lemma HighSum(lo: U32, hi: U32, len: nat, carry: nat)
    requires carry == (if LowCount(lo, len) < (len * 8) % TwoTo32 then 1 else 0)
    ensures HighCount(lo, hi, len) == (hi + carry + len / 0x2000_0000) % TwoTo32
  {
    var high := len / 0x2000_0000;
    if carry == 1 {
      DivMod(hi + 1, TwoTo32, (hi + 1) / TwoTo32, (hi + 1) % TwoTo32);
      DivMod(hi + 1 + high, TwoTo32, (hi + 1) / TwoTo32 + ((hi + 1) % TwoTo32 + high) / TwoTo32, ((hi + 1) % TwoTo32 + high) % TwoTo32);
    }
  }

  lemma ModShift(h: nat, lo: nat)
    requires lo < TwoTo32
    ensures (h % TwoTo32) * TwoTo32 + lo == (h * TwoTo32 + lo) % TwoTo64
  {
    var q := h / TwoTo32;
    assert h == q * TwoTo32 + h % TwoTo32;
    assert h * TwoTo32 + lo == q * TwoTo64 + ((h % TwoTo32) * TwoTo32 + lo);
  }

  lemma ModAddMod(x: nat, y: nat)
    ensures (x % TwoTo64 + y) % TwoTo64 == (x + y) % TwoTo64
  {
    var q := x / TwoTo64;
    assert x + y == q * TwoTo64 + (x % TwoTo64 + y);
  }

  lemma AddBlocks(a: nat, b: nat)
    requires a % 64 == 0 && b % 64 == 0
    ensures (a + b) % 64 == 0
  {
    assert a + b == 64 * (a / 64 + b / 64);
  }

  /** Whole blocks followed by a short tail. */
  lemma WholeBlocksOf(w: nat, tail: nat)
    requires w % 64 == 0 && tail < 64
    ensures WholeBlocks(w + tail) == w
  {
  }

  /** A short input is buffered after the bytes already held. */
  lemma TakeShort(f: BlockFunction, state: State, buffer: Block, m: seq<Byte>, input: seq<Byte>)
    requires Holds(f, state, buffer, m) && |m| - WholeBlocks(|m|) + |input| < 64
    ensures var t := Take(f, state, buffer, |m| - WholeBlocks(|m|), input);
      Holds(f, t.0, t.1, m + input)
  {
    var w := WholeBlocks(|m|);
    var idx := |m| - w;
    var m' := m + input;
    WholeBlocksOf(w, idx + |input|);
    assert m'[..w] == m[..w];
    var t := Take(f, state, buffer, idx, input);
    assert t.1[..idx + |input|] == buffer[..idx] + input;
    assert m'[w..] == m[w..] + input;
  }

  /** Completing the held block and absorbing whole input blocks is
      absorbing the message up to the end of those blocks. */
  lemma LongAbsorb(f: BlockFunction, m: seq<Byte>, w: nat, input: seq<Byte>, partLength: nat, whole: nat)
    requires w % 64 == 0 && w <= |m| && |m| - w + partLength == 64
    requires partLength <= whole <= |input| && (whole - partLength) % 64 == 0
    ensures var filled := m[w..] + input[..partLength];
      |filled| == 64 && (|m| + whole) % 64 == 0
      && Absorb(f, f(Absorb(f, Init, m[..w]), filled), input[partLength..whole]) == Absorb(f, Init, (m + input)[..|m| + whole])
  {
    var filled := m[w..] + input[..partLength];
    var chunk := input[partLength..whole];
    AddBlocks(w, 64);
    AddBlocks(w + 64, whole - partLength);
    assert (m + input)[..|m| + whole] == m[..w] + filled + chunk;
    AbsorbConcat(f, Init, m[..w], filled);
    AbsorbConcat(f, Init, m[..w] + filled, chunk);
    AbsorbOne(f, Absorb(f, Init, m[..w]), filled);
  }

  /** A long input completes the held block, has its whole blocks absorbed
      and its remainder buffered. */
  lemma TakeLong(f: BlockFunction, state: State, buffer: Block, m: seq<Byte>, input: seq<Byte>)
    requires Holds(f, state, buffer, m) && |m| - WholeBlocks(|m|) + |input| >= 64
    ensures var t := Take(f, state, buffer, |m| - WholeBlocks(|m|), input);
      Holds(f, t.0, t.1, m + input)
  {
    var idx := |m| - WholeBlocks(|m|);
    var whole := 64 - idx + WholeBlocks(|input| - (64 - idx));
    TakeLongState(f, state, buffer, m, input, idx, whole);
    TakeLongBuffer(f, state, buffer, m, input, idx, whole);
    var t := Take(f, state, buffer, idx, input);
    HoldsAt(f, t.0, t.1, m + input, |m| + whole);
  }

  /** Holds, with the whole blocks' length given. */
  lemma HoldsAt(f: BlockFunction, state: State, buffer: Block, m: seq<Byte>, w: nat)
    requires w == WholeBlocks(|m|)
    requires state == Absorb(f, Init, m[..w]) && buffer[..|m| - w] == m[w..]
    ensures Holds(f, state, buffer, m)
  {
  }

  /** The state after a long input has absorbed the message up to the end
      of the input's whole blocks. */
  lemma TakeLongState(f: BlockFunction, state: State, buffer: Block, m: seq<Byte>, input: seq<Byte>, idx: nat, whole: nat)
    requires Holds(f, state, buffer, m) && idx == |m| - WholeBlocks(|m|) && idx + |input| >= 64
    requires whole == 64 - idx + WholeBlocks(|input| - (64 - idx))
    ensures whole <= |input| && (|m| + whole) % 64 == 0
    ensures Take(f, state, buffer, idx, input).0 == Absorb(f, Init, (m + input)[..|m| + whole])
  {
    var w := WholeBlocks(|m|);
    var partLength := 64 - idx;
    var filled := buffer[..idx] + input[..partLength];
    assert filled == m[w..] + input[..partLength];
    LongAbsorb(f, m, w, input, partLength, whole);
    TakeLongIs(f, state, buffer, idx, input);
  }

  /** The buffer after a long input starts with the bytes after the last
      whole block. */
  lemma TakeLongBuffer(f: BlockFunction, state: State, buffer: Block, m: seq<Byte>, input: seq<Byte>, idx: nat, whole: nat)
    requires idx == |m| - WholeBlocks(|m|) && idx + |input| >= 64
    requires whole == 64 - idx + WholeBlocks(|input| - (64 - idx))
    ensures WholeBlocks(|m + input|) == |m| + whole
    ensures Take(f, state, buffer, idx, input).1[..|m + input| - (|m| + whole)] == (m + input)[|m| + whole..]
  {
    var partLength := 64 - idx;
    var filled := buffer[..idx] + input[..partLength];
    AddBlocks(WholeBlocks(|m|), 64);
    AddBlocks(WholeBlocks(|m|) + 64, WholeBlocks(|input| - partLength));
    WholeBlocksOf(|m| + whole, |input| - whole);
    LongRest(m, input, |m| + whole, filled);
    TakeLongIs(f, state, buffer, idx, input);
  }

  /** The long case of Take, spelled out. */
  lemma TakeLongIs(f: BlockFunction, state: State, buffer: Block, index: nat, input: seq<Byte>)
    requires index < 64 && |input| >= 64 - index
    ensures var partLength := 64 - index;
      var whole := partLength + WholeBlocks(|input| - partLength);
      var filled := buffer[..index] + input[..partLength];
      Take(f, state, buffer, index, input)
        == (Absorb(f, f(state, filled), input[partLength..whole]), input[whole..] + filled[|input| - whole..])
  {
  }

  /** The bytes after the last whole block are the input's remainder. */
  lemma LongRest(m: seq<Byte>, input: seq<Byte>, w: nat, filled: Block)
    requires |m| <= w <= |m| + |input| < w + 64
    ensures var rest := input[w - |m|..];
      (rest + filled[|rest|..])[..|m| + |input| - w] == (m + input)[w..]
  {
    var rest := input[w - |m|..];
    assert (rest + filled[|rest|..])[..|rest|] == rest;
    assert (m + input)[w..] == rest;
  }

  /** xpl_md5_update keeps the context tracking the message it has been fed. */
  lemma UpdateTracks(f: BlockFunction, c: Context, m: seq<Byte>, input: seq<Byte>)
    requires Tracks(f, c, m) && |input| < TwoTo32
    ensures Tracks(f, Update(f, c, input), m + input)
  {
    CountWords(|m|, c.count0, c.count1);
    TakeHolds(f, c.state, c.buffer, m, input);
    CountAdvance(|m|, |input|, c.count0, c.count1);
  }

  /** Whatever the input's length, state and buffer go on holding the message. */
  lemma TakeHolds(f: BlockFunction, state: State, buffer: Block, m: seq<Byte>, input: seq<Byte>)
    requires Holds(f, state, buffer, m)
    ensures var t := Take(f, state, buffer, |m| - WholeBlocks(|m|), input);
      Holds(f, t.0, t.1, m + input)
  {
    if |m| - WholeBlocks(|m|) + |input| < 64 {
      TakeShort(f, state, buffer, m, input);
    } else {
      TakeLong(f, state, buffer, m, input);
    }
  }

  /** Padding as finish writes it is the padding of section 3.1. */
  lemma FinishPadding(n: nat, index: int)
    requires index == n - WholeBlocks(n)
    ensures var padLength := if index < 56 then 56 - index else 120 - index;
      1 <= padLength <= 64 && PaddingBlock[..padLength] == [0x80] + Zeros((55 - n % 64) % 64)
  {
    var padLength := if index < 56 then 56 - index else 120 - index;
    assert PaddingBlock[..padLength] == [0x80] + Zeros(padLength - 1);
  }

  /** The count words finish saves are the length bytes of section 3.2. */
  lemma SavedCount(n: nat, lo: U32, hi: U32)
    requires hi * TwoTo32 + lo == (n * 8) % TwoTo64
    ensures Encode([lo, hi]) == LengthBytes(n)
  {
    CountWords(n, lo, hi);
  }

  /** After the padding and the count the state has absorbed the padded message. */
  lemma PaddingAbsorbs(f: BlockFunction, c: Context, m: seq<Byte>)
    requires Tracks(f, c, m)
    ensures Padding(f, c).state == Absorb(f, Init, Padded(m))
  {
    var pad := PaddingBlock[..PadLength(c)];
    var bits := Encode([c.count0, c.count1]);
    UpdateTracks(f, c, m, pad);
    UpdateTracks(f, Update(f, c, pad), m + pad, bits);
    var whole := m + pad + bits;
    PaddingIsPadded(c, m);
    WholeBlocksOf(|whole|, 0);
    assert whole[..|whole|] == whole;
  }

  /** The bytes finish feeds after the message are its padding. */
  lemma PaddingIsPadded(c: Context, m: seq<Byte>)
    requires c.count1 * TwoTo32 + c.count0 == (|m| * 8) % TwoTo64
    ensures m + PaddingBlock[..PadLength(c)] + Encode([c.count0, c.count1]) == Padded(m)
  {
    CountWords(|m|, c.count0, c.count1);
    FinishPadding(|m|, (c.count0 / 8) % 64);
    SavedCount(|m|, c.count0, c.count1);
  }

  /** Finishing a context that has taken in m stores the RFC 1321 digest of
      m and its hex text, and leaves state, count and buffer zeroed. */
  lemma FinishDigest(f: BlockFunction, c: Context, m: seq<Byte>)
    requires Tracks(f, c, m)
    ensures Finish(f, c) == Closed(Digest(f, m))
  {
    PaddingAbsorbs(f, c, m);
  }

  /** Hashing a message is updating a new context with it and finishing. */
  lemma DigestOfMessage(f: BlockFunction, m: seq<Byte>)
    requires |m| < TwoTo32
    ensures Finish(f, Update(f, New, m)) == Closed(Digest(f, m))
  {
    NewTracksNothing(f);
    UpdateTracks(f, New, [], m);
    assert [] + m == m;
    FinishDigest(f, Update(f, New, m), m);
  }

  /** A second finish finds the state zeroed and the update ignored, so it
      overwrites the digest with zero bytes. */
  lemma FinishTwiceZeroesDigest(f: BlockFunction, c: Context)
    ensures Finish(f, Finish(f, c)).digestRaw == Zeros(16)
  {
    var once := Finish(f, c);
    assert once.finished && once.state == seq(4, _ => 0);
    var padded := Update(f, once, PaddingBlock[..PadLength(once)]);
    assert padded == once;
    assert Padding(f, once).state == once.state;
    EncodeZeros(4);
  }

  /** Zero words encode as zero bytes. */
  lemma {:induction false} EncodeZeros(n: nat)
    ensures Encode(seq(n, _ => 0)) == Zeros(4 * n)
  {
    if n > 0 {
      var ws: seq<Word> := seq(n, _ => 0);
      assert ws[..n - 1] == seq(n - 1, _ => 0);
      EncodeZeros(n - 1);
      assert BytesOf(0) == Zeros(4);
    }
  }
}

module Md5Object {
  import M = Md5
  import A = Arith

  /** md5_encode: a loop over the words writing four bytes each. */
  method EncodeWords(input: seq<M.Word>) returns (output: seq<M.Byte>)
    ensures output == M.Encode(input)
  {
    output := [];
    var i := 0;
    while i < |input|
      invariant 0 <= i <= |input|
      invariant output == M.Encode(input[..i])
    {
      assert input[..i + 1][..i] == input[..i];
      var w := input[i];
      output := output + [w % 0x100, (w / 0x100) % 0x100, (w / 0x1_0000) % 0x100, (w / 0x100_0000) % 0x100];
      i := i + 1;
    }
    assert input[..|input|] == input;
  }

  /** md5_decode: a loop over the bytes four at a time. */
  method DecodeWords(input: seq<M.Byte>) returns (output: seq<M.Word>)
    requires |input| % 4 == 0
    ensures output == M.Decode(input)
  {
    output := [];
    var j := 0;
    while j < |input|
      invariant 0 <= j <= |input| && j % 4 == 0
      invariant output == M.Decode(input[..j])
    {
      A.StepWithin(j, |input|, 4);
      M.DecodeNext(input, j);
      output := output + [input[j] as int + (input[j + 1] as int) * 0x100 + (input[j + 2] as int) * 0x1_0000 + (input[j + 3] as int) * 0x100_0000];
      j := j + 4;
    }
    assert input[..|input|] == input;
  }

  /** md5_characterize: two hex digits per digest byte. */
  method Characterize(raw: seq<M.Byte>) returns (chars: string)
    ensures chars == M.Hex(raw)
  {
    chars := "";
    var pos := 0;
    while pos < |raw|
      invariant 0 <= pos <= |raw|
      invariant chars == M.Hex(raw[..pos])
    {
      assert raw[..pos + 1][..pos] == raw[..pos];
      var b := raw[pos];
      chars := chars + [M.HexDigits[b / 16], M.HexDigits[b % 16]];
      pos := pos + 1;
    }
    assert raw[..|raw|] == raw;
  }

  /** The block part of md5_update: complete the held block and transform
      it, transform every whole block of the input in place, and copy the
      rest to the buffer. */
  method TakeBlocks(f: M.BlockFunction, state: M.State, buffer: M.Block, index: nat, input: seq<M.Byte>)
    returns (state': M.State, buffer': M.Block)
    requires index < 64
    ensures (state', buffer') == M.Take(f, state, buffer, index, input)
  {
    var len := |input|;
    var partLength := 64 - index;
    if len >= partLength {
      var filled := buffer[..index] + input[..partLength];
      assert |filled| == 64;
      var i;
      state', i := AbsorbBlocks(f, f(state, filled), input, partLength);
      assert len - i < 64;
      buffer' := input[i..] + filled[len - i..];
    } else {
      state' := state;
      buffer' := buffer[..index] + input + buffer[index + len..];
    }
  }

  /** The loop of md5_update: transform the input's blocks from `from` on
      while 64 bytes remain. */
  method AbsorbBlocks(f: M.BlockFunction, state: M.State, input: seq<M.Byte>, from: nat)
    returns (state': M.State, i: nat)
    requires from <= |input|
    ensures i == from + M.WholeBlocks(|input| - from)
    ensures state' == M.Absorb(f, state, input[from..i])
  {
    state' := state;
    i := from;
    while i + 63 < |input|
      invariant from <= i <= |input| && (i - from) % 64 == 0
      invariant state' == M.Absorb(f, state, input[from..i])
    {
      M.AbsorbStep(f, state, input, from, i);
      state' := f(state', input[i..i + 64]);
      i := i + 64;
    }
    M.WholeBlocksOf(i - from, |input| - i);
  }

  class Md5Context {
    /** md5_transform, the block function every update calls. */
    const transform: M.BlockFunction
    var finished: bool
    var state: M.State
    var count0: M.U32
    var count1: M.U32
    var buffer: M.Block
    var digestRaw: seq<M.Byte>
    var digestChars: string

    function Snapshot(): M.Context
      reads this
    {
      M.Context(finished, state, count0, count1, buffer, digestRaw, digestChars)
    }

    /** xpl_md5_new. */
    constructor ()
      ensures Snapshot() == M.New && transform == M.Transform
    {
      transform := M.Transform;
      finished := false;
      count0 := 0;
      count1 := 0;
      state := M.Init;
      buffer := M.Zeros(64);
      digestRaw := M.Zeros(16);
      digestChars := seq(32, _ => '\0');
    }

    /** xpl_md5_update. */
    method Update(input: seq<M.Byte>)
      requires |input| < M.TwoTo32
      modifies this
      ensures Snapshot() == M.Update(transform, old(Snapshot()), input)
    {
      if finished {
        return;
      }
      var len := |input|;
      var index := (count0 / 8) % 64;
      var low := (len * 8) % M.TwoTo32;
      count1 := M.HighCount(count0, count1, len);
      count0 := (count0 + low) % M.TwoTo32;
      state, buffer := TakeBlocks(transform, state, buffer, index, input);
    }

    /** xpl_md5_finish. */
    method Finish()
      modifies this
      ensures Snapshot() == M.Finish(transform, old(Snapshot()))
    {
      ghost var c := Snapshot();
      var bits := EncodeWords([count0, count1]);
      var index := (count0 / 8) % 64;
      var padLength := if index < 56 then 56 - index else 120 - index;
      assert padLength == M.PadLength(c);
      Update(M.PaddingBlock[..padLength]);
      Update(bits);
      assert state == M.Padding(transform, c).state;
      var raw := EncodeWords(state);
      Close(raw);
    }

    /** The end of xpl_md5_finish: store the digest, mark the context
        finished, zero state, count and buffer, and write the hex text. */
    method Close(raw: seq<M.Byte>)
      modifies this
      ensures Snapshot() == M.Closed(raw)
    {
      digestRaw := raw;
      finished := true;
      state := [0, 0, 0, 0];
      count0 := 0;
      count1 := 0;
      buffer := M.Zeros(64);
      digestChars := Characterize(digestRaw);
    }
  }

  /** xpl_md5_digest_bytes on a new context, then xpl_md5_finish: the hex
      text is that of the RFC 1321 digest of the bytes. */
  method HexDigest(message: seq<M.Byte>) returns (hex: string)
    requires |message| < M.TwoTo32
    ensures hex == M.Hex(M.Digest(M.Transform, message))
  {
    var context := new Md5Context();
    context.Update(message);
    context.Finish();
    M.DigestOfMessage(M.Transform, message);
    hex := context.digestChars;
  }
}
