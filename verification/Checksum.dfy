/** The chunked CRC-32 of scripts/customer_export.py (lines 302-310), with zlib's `crc32` as section 8 of RFC 1952
    defines it.
    - for any step and any inversion that undoes itself, feeding chunks one after the other is feeding them at once;
    - the script's loop therefore gives the checksum of the whole file;
    - the table step is eight steps of the polynomial division that the checksum stands for. */
module Checksum {
  import opened Text

  type Byte = bv8

  // ----- feeding bytes in chunks, for any step and any inversion

  function Running<C>(step: (C, Byte) -> C, c: C, bytes: seq<Byte>): C
    decreases |bytes|
  {
    if bytes == [] then c else Running(step, step(c, bytes[0]), bytes[1..])
  }

  lemma {:induction false} RunningConcat<C>(step: (C, Byte) -> C, c: C, a: seq<Byte>, b: seq<Byte>)
    ensures Running(step, c, a + b) == Running(step, Running(step, c, a), b)
    decreases |a|
  {
    if a == [] {
      assert a + b == b;
    } else {
      assert (a + b)[1..] == a[1..] + b;
      RunningConcat(step, step(c, a[0]), a[1..], b);
    }
  }

  ghost predicate Undoes<C(!new)>(invert: C -> C) {
    forall c :: invert(invert(c)) == c
  }

  /** A checksum that inverts its register before and after each chunk. */
  function Update<C>(step: (C, Byte) -> C, invert: C -> C, crc: C, bytes: seq<Byte>): C {
    invert(Running(step, invert(crc), bytes))
  }

  /** The inversion that ends one chunk cancels the one that starts the next. */
  lemma UpdateConcat<C(!new)>(step: (C, Byte) -> C, invert: C -> C, crc: C, a: seq<Byte>, b: seq<Byte>)
    requires Undoes(invert)
    ensures Update(step, invert, Update(step, invert, crc, a), b) == Update(step, invert, crc, a + b)
  {
    RunningConcat(step, invert(crc), a, b);
  }

  /** Feeding chunks one after the other. */
  function FeedChunks<C>(step: (C, Byte) -> C, invert: C -> C, crc: C, chunks: seq<seq<Byte>>): C
    decreases |chunks|
  {
    if chunks == [] then crc else FeedChunks(step, invert, Update(step, invert, crc, chunks[0]), chunks[1..])
  }

  lemma {:induction false} FeedIsOneShot<C(!new)>(step: (C, Byte) -> C, invert: C -> C, crc: C,
                                                  chunks: seq<seq<Byte>>)
    requires Undoes(invert)
    ensures FeedChunks(step, invert, crc, chunks) == Update(step, invert, crc, Flatten(chunks))
    decreases |chunks|
  {
    if chunks != [] {
      FeedIsOneShot(step, invert, Update(step, invert, crc, chunks[0]), chunks[1..]);
      UpdateConcat(step, invert, crc, chunks[0], Flatten(chunks[1..]));
    }
  }

  // ----- CRC-32

  /** One bit of the polynomial division. */
  function Round(c: bv32): bv32 {
    if c & 1 == 1 then (c >> 1) ^ 0xEDB88320 else c >> 1
  }

  function Iterate<C>(f: C -> C, c: C, n: nat): C
    decreases n
  {
    if n == 0 then c else Iterate(f, f(c), n - 1)
  }

  function Rounds(c: bv32, n: nat): bv32 {
    Iterate(Round, c, n)
  }

  /** Eight bits of the message at once, by the table that holds eight rounds of every 8-bit message. */
  function TableStep(c: bv32, b: Byte): bv32 {
    Rounds((c ^ (b as bv32)) & 0xFF, 8) ^ (c >> 8)
  }

  function Invert(c: bv32): bv32 {
    c ^ 0xFFFF_FFFF
  }

  /** RFC 1952's `update_crc`, which is `zlib.crc32(bytes, crc)`. */
  function UpdateCrc(crc: bv32, bytes: seq<Byte>): bv32 {
    Update(TableStep, Invert, crc, bytes)
  }

  /** RFC 1952's `crc`: the CRC-32 of a whole byte string. */
  function Crc32(bytes: seq<Byte>): bv32 {
    UpdateCrc(0, bytes)
  }

  /** However a byte string is cut into chunks, feeding them to `zlib.crc32` gives its one-shot CRC-32. */
  lemma ChunksDoNotMatter(chunks: seq<seq<Byte>>)
    ensures FeedChunks(TableStep, Invert, 0, chunks) == Crc32(Flatten(chunks))
  {
    FeedIsOneShot(TableStep, Invert, 0, chunks);
  }

  const CHUNK: nat := 65536

  function HexDigit(n: bv32): char
    requires n < 16
  {
    if n < 10 then ('0' as int + n as int) as char else ('a' as int + (n as int - 10)) as char
  }

  /** Python's `f"{crc:08x}"`. */
  function Hex8(c: bv32): string {
    [HexDigit(c >> 28), HexDigit((c >> 24) & 15), HexDigit((c >> 20) & 15), HexDigit((c >> 16) & 15),
     HexDigit((c >> 12) & 15), HexDigit((c >> 8) & 15), HexDigit((c >> 4) & 15), HexDigit(c & 15)]
  }

  method Crc32Hex(file: seq<Byte>) returns (hex: string)
    ensures hex == Hex8(Crc32(file))
  {
    var crc: bv32, at := 0, 0;
    while true
      invariant 0 <= at <= |file|
      invariant crc == Crc32(file[..at])
      decreases |file| - at
    {
      var end := if at + CHUNK <= |file| then at + CHUNK else |file|;
      var chunk := file[at..end];
      if chunk == [] {
        break;
      }
      UpdateConcat(TableStep, Invert, 0 as bv32, file[..at], chunk);
      assert file[..at] + chunk == file[..end];
      crc := UpdateCrc(crc, chunk);
      at := end;
    }
    assert file[..at] == file;
    Masked(crc);
    hex := Hex8(crc & 0xFFFF_FFFF);
  }

  lemma Masked(c: bv32)
    ensures c & 0xFFFF_FFFF == c
  {
  }

  // ----- the table against the division it tabulates

  lemma LowBit(x: bv32, y: bv32)
    ensures (x ^ y) & 1 == 1 <==> (x & 1 == 1) != (y & 1 == 1)
  {
  }

  lemma BothFold(a: bv32, b: bv32)
    ensures (a ^ 0xEDB88320) ^ (b ^ 0xEDB88320) == a ^ b
  {
  }

  lemma LeftFolds(a: bv32, b: bv32)
    ensures (a ^ 0xEDB88320) ^ b == (a ^ b) ^ 0xEDB88320
  {
  }

  lemma RightFolds(a: bv32, b: bv32)
    ensures a ^ (b ^ 0xEDB88320) == (a ^ b) ^ 0xEDB88320
  {
  }

  function Xor(x: bv32, y: bv32): bv32 {
    x ^ y
  }

  /** A division step is linear. */
  lemma RoundXor(x: bv32, y: bv32)
    ensures Round(x ^ y) == Round(x) ^ Round(y)
  {
    LowBit(x, y);
    if x & 1 == 1 {
      if y & 1 == 1 { BothFold(x >> 1, y >> 1); } else { LeftFolds(x >> 1, y >> 1); }
    } else {
      if y & 1 == 1 { RightFolds(x >> 1, y >> 1); }
    }
  }

  ghost predicate Linear<C(!new)>(f: C -> C, xor: (C, C) -> C) {
    forall x, y :: f(xor(x, y)) == xor(f(x), f(y))
  }

  lemma {:induction false} IterateIsLinear<C(!new)>(f: C -> C, xor: (C, C) -> C, x: C, y: C, n: nat)
    requires Linear(f, xor)
    ensures Iterate(f, xor(x, y), n) == xor(Iterate(f, x, n), Iterate(f, y, n))
    decreases n
  {
    if n > 0 {
      IterateIsLinear(f, xor, f(x), f(y), n - 1);
    }
  }

  lemma RoundIsLinear()
    ensures Linear(Round, Xor)
  {
    forall x, y ensures Round(Xor(x, y)) == Xor(Round(x), Round(y)) {
      RoundXor(x, y);
    }
  }

  lemma SplitRounds(low: bv32, high: bv32, n: nat)
    ensures Iterate(Round, low ^ high, n) == Iterate(Round, low, n) ^ Iterate(Round, high, n)
  {
    RoundIsLinear();
    IterateIsLinear(Round, Xor, low, high, n);
  }

  lemma CombineRounds(word: bv32, low: bv32, high: bv32, top: bv32, n: nat)
    requires word == low ^ high && Rounds(high, n) == top
    ensures Rounds(low, n) ^ top == Rounds(word, n)
  {
    SplitRounds(low, high, n);
  }

  lemma FoldRounds(word: bv32, low: bv32, top: bv32, n: nat)
    requires Rounds(top << 8, n) == top && word == low ^ (top << 8)
    ensures Rounds(low, n) ^ top == Rounds(word, n)
  {
    CombineRounds(word, low, top << 8, top, n);
  }

  /** One table lookup for the low byte of a register word, folded into the rest, divides the word by the polynomial
      eight bits at a time. */
  lemma TableDivides(word: bv32, low: bv32, top: bv32, n: nat)
    requires low == word & 0xFF && top == word >> 8 && n == 8
    ensures Rounds(low, n) ^ top == Rounds(word, n)
  {
    assert word == low ^ (top << 8) && top <= 0xFF_FFFF by { }
    assert Rounds(top << 8, n) == top by { }
    FoldRounds(word, low, top, n);
  }

  // ----- the digits, and the value that fixes the polynomial and the register

  /** The value of a lower-case hexadecimal digit. */
  function DigitOf(c: char): bv32 {
    if '0' <= c <= '9' then (c as int - '0' as int) as bv32
    else if 'a' <= c <= 'f' then (c as int - 'a' as int + 10) as bv32
    else 0
  }

  predicate IsHexDigit(c: char) {
    '0' <= c <= '9' || 'a' <= c <= 'f'
  }

  lemma HexDigitIs(n: bv32)
    requires n < 16
    ensures IsHexDigit(HexDigit(n)) && DigitOf(HexDigit(n)) == n
  {
  }

  /** The digit stands for four bits. */
  predicate StandsFor(c: char, bits: bv32) {
    IsHexDigit(c) && DigitOf(c) == bits
  }

  lemma FourDigits(h: string, a: bv32, b: bv32, c: bv32, d: bv32)
    requires a < 16 && b < 16 && c < 16 && d < 16 && h == [HexDigit(a), HexDigit(b), HexDigit(c), HexDigit(d)]
    ensures StandsFor(h[0], a) && StandsFor(h[1], b) && StandsFor(h[2], c) && StandsFor(h[3], d)
  {
    HexDigitIs(a);
    HexDigitIs(b);
    HexDigitIs(c);
    HexDigitIs(d);
  }

  lemma HighDigits(c: bv32)
    ensures var h := Hex8(c);
      |h| == 8 && StandsFor(h[0], c >> 28) && StandsFor(h[1], (c >> 24) & 15) && StandsFor(h[2], (c >> 20) & 15)
      && StandsFor(h[3], (c >> 16) & 15)
  {
    FourDigits(Hex8(c)[..4], c >> 28, (c >> 24) & 15, (c >> 20) & 15, (c >> 16) & 15);
  }

  lemma LowDigits(c: bv32)
    ensures var h := Hex8(c);
      |h| == 8 && StandsFor(h[4], (c >> 12) & 15) && StandsFor(h[5], (c >> 8) & 15) && StandsFor(h[6], (c >> 4) & 15)
      && StandsFor(h[7], c & 15)
  {
    FourDigits(Hex8(c)[4..], (c >> 12) & 15, (c >> 8) & 15, (c >> 4) & 15, c & 15);
  }

  /** Eight hexadecimal digits stand for the register, four bits each, from the highest to the lowest. */
  lemma Hex8Is(c: bv32)
    ensures var h := Hex8(c);
      |h| == 8 && StandsFor(h[0], c >> 28) && StandsFor(h[1], (c >> 24) & 15) && StandsFor(h[2], (c >> 20) & 15)
      && StandsFor(h[3], (c >> 16) & 15) && StandsFor(h[4], (c >> 12) & 15) && StandsFor(h[5], (c >> 8) & 15)
      && StandsFor(h[6], (c >> 4) & 15) && StandsFor(h[7], c & 15)
  {
    HighDigits(c);
    LowDigits(c);
  }

  lemma EightRounds(c: bv32)
    ensures Rounds(c, 8) == Round(Round(Round(Round(Round(Round(Round(Round(c))))))))
  {
  }

  /** Two check values: the CRC-32 of a zero byte and of the letter `a`. */
  lemma CheckValues()
    ensures Crc32([0]) == 0xD202EF8D && Crc32([0x61]) == 0xE8B7BE43
  {
    EightRounds(0xFF);
    EightRounds(0x9E);
  }
}
