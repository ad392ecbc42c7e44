/**
 base64 for the spec bytes (crates/barista-fleet/src/desired.rs, `base64_bytes`).

 Text is given as its UTF-8 bytes, one character below 256 for each.  The reference is
 section 4 of RFC 4648: the bytes and the symbols spell one number, in base 256 and in
 base 64, padded with zero bits to a whole number of symbols.
 */
module Base64 {
  import opened Prelude

  type Byte = x: int | 0 <= x < 256

  const UPPER := "ABCDEFGHIJKLMNOPQRSTUVWXYZ"
  const LOWER := "abcdefghijklmnopqrstuvwxyz"
  const DIGITS := "0123456789"
  const ALPHABET: string := UPPER + LOWER + DIGITS + "+/"

  const U32 := 0x1_0000_0000

  // ---------------------------------------------------------------------------
  // The reference
  // ---------------------------------------------------------------------------

  /** A symbol's value, by table 1 of the RFC; 64 for anything else. */
  function Rank(c: char): (r: nat) {
    if 'A' <= c <= 'Z' then c as int - 'A' as int
    else if 'a' <= c <= 'z' then c as int - 'a' as int + 26
    else if '0' <= c <= '9' then c as int - '0' as int + 52
    else if c == '+' then 62
    else if c == '/' then 63
    else 64
  }

  function Ranks(text: string): (r: seq<nat>)
    ensures |r| == |text| && forall i :: 0 <= i < |text| ==> r[i] == Rank(text[i])
  {
    seq(|text|, i requires 0 <= i < |text| => Rank(text[i]))
  }

  /** The digits of a text; paddings count for nothing, wherever they are. */
  function Read(text: string): (r: seq<nat>) {
    if text == "" then []
    else Read(text[..|text| - 1]) + if text[|text| - 1] == '=' then [] else [Rank(text[|text| - 1])]
  }

  /** Nothing but symbols and paddings. */
  predicate Readable(text: string) {
    text == "" || (Readable(text[..|text| - 1]) && (text[|text| - 1] == '=' || Rank(text[|text| - 1]) < 64))
  }

  /** The number six-bit digits spell. */
  function Spelled(digits: seq<nat>): (r: nat) {
    if digits == [] then 0 else Spelled(digits[..|digits| - 1]) * 64 + digits[|digits| - 1]
  }

  /** The number the bytes spell. */
  function Weight(bytes: seq<Byte>): (r: nat) {
    if bytes == [] then 0 else Weight(bytes[..|bytes| - 1]) * 256 + bytes[|bytes| - 1]
  }

  predicate Below64(digits: seq<nat>) {
    forall i :: 0 <= i < |digits| ==> digits[i] < 64
  }

  /** Shifts by an even number of bits below eight, and the bits below a place. */
  function Shl(x: nat, bits: nat): (r: nat) {
    if bits == 0 then x else if bits == 2 then x * 4 else if bits == 4 then x * 16 else x * 64
  }

  function Shr(x: nat, bits: nat): (r: nat) {
    if bits == 0 then x else if bits == 2 then x / 4 else if bits == 4 then x / 16 else x / 64
  }

  function Low(x: nat, bits: nat): (r: nat) {
    if bits == 0 then 0 else if bits == 2 then x % 4 else if bits == 4 then x % 16 else x % 64
  }

  /** How many zero bits there are between the last byte and the last digit. */
  function Fill(n: nat): (r: nat) {
    if n % 3 == 0 then 0 else if n % 3 == 1 then 4 else 2
  }

  /** The six-bit digits of the bytes. */
  ghost predicate SixBits(digits: seq<nat>, bytes: seq<Byte>) {
    |digits| == (|bytes| * 8 + 5) / 6 && Below64(digits) && Spelled(digits) == Shl(Weight(bytes), Fill(|bytes|))
  }

  /** `text` is the one base64 form of `bytes`: whole groups of four, symbols for the bytes'
      digits, and `=` for the rest. */
  ghost predicate Encodes(text: string, bytes: seq<Byte>) {
    var symbols := (|bytes| * 8 + 5) / 6;
    && |text| == (|bytes| + 2) / 3 * 4
    && SixBits(Ranks(text[..symbols]), bytes)
    && forall i :: symbols <= i < |text| ==> text[i] == '='
  }

  /** `bytes` are the whole bytes in what the digits spell. */
  ghost predicate EightBits(bytes: seq<Byte>, digits: seq<nat>) {
    |bytes| == |digits| * 6 / 8 && Weight(bytes) == Shr(Spelled(digits), |digits| * 6 % 8)
  }

  // ---------------------------------------------------------------------------
  // The alphabet
  // ---------------------------------------------------------------------------

  lemma UpperRanks()
    ensures |UPPER| == 26 && forall i :: 0 <= i < 26 ==> UPPER[i] as int == 'A' as int + i
  {
  }

  lemma LowerRanks()
    ensures |LOWER| == 26 && forall i :: 0 <= i < 26 ==> LOWER[i] as int == 'a' as int + i
  {
  }

  lemma DigitRanks()
    ensures |DIGITS| == 10 && forall i :: 0 <= i < 10 ==> DIGITS[i] as int == '0' as int + i
  {
  }

  /** The table the source searches is the table of the RFC. */
  lemma AlphabetIsTheTable(i: nat)
    requires i < 64
    ensures |ALPHABET| == 64 && Rank(ALPHABET[i]) == i
  {
    UpperRanks();
    LowerRanks();
    DigitRanks();
  }

  lemma SymbolsAreInTheTable(c: char)
    requires Rank(c) < 64
    ensures |ALPHABET| == 64 && ALPHABET[Rank(c)] == c
  {
    UpperRanks();
    LowerRanks();
    DigitRanks();
  }

  lemma RankIsInjective(c: char, d: char)
    requires Rank(c) == Rank(d) < 64
    ensures c == d && c != '='
  {
  }

  // ---------------------------------------------------------------------------
  // Encoding
  // ---------------------------------------------------------------------------

  /** The place value of symbol `i` of a group. */
  function Place(i: nat): (r: nat)
    requires i < 4
    ensures r > 0
  {
    if i == 0 then 262144 else if i == 1 then 4096 else if i == 2 then 64 else 1
  }

  /** The number a chunk of one to three bytes puts in its group. */
  function Joined(chunk: seq<Byte>): (r: nat)
    requires 1 <= |chunk| <= 3
    ensures r < 0x100_0000
  {
    var b0: int := chunk[0];
    var b1: int := if 1 < |chunk| then chunk[1] else 0;
    var b2: int := if 2 < |chunk| then chunk[2] else 0;
    b0 * 65536 + b1 * 256 + b2
  }

  /** The six-bit digits a chunk of `len` bytes puts in its group. */
  function Digits(n: nat, len: nat): (r: seq<nat>)
    requires 1 <= len <= 3
    ensures |r| == len + 1
  {
    if len == 1 then [n / 262144 % 64, n / 4096 % 64]
    else if len == 2 then [n / 262144 % 64, n / 4096 % 64, n / 64 % 64]
    else [n / 262144 % 64, n / 4096 % 64, n / 64 % 64, n % 64]
  }

  method Symbol(v: nat) returns (c: char)
    requires v < 64
    ensures Rank(c) == v
  {
    AlphabetIsTheTable(v);
    c := ALPHABET[v];
  }

  method EncodeGroup(chunk: seq<Byte>) returns (group: string)
    requires 1 <= |chunk| <= 3
    ensures |group| == 4 && Ranks(group[..|chunk| + 1]) == Digits(Joined(chunk), |chunk|)
    ensures forall j :: |chunk| < j < 4 ==> group[j] == '='
  {
    var n := Joined(chunk);
    group := "";
    for i := 0 to 4
      invariant |group| == i
      invariant forall j :: 0 <= j < i && j <= |chunk| ==> Rank(group[j]) == n / Place(j) % 64
      invariant forall j :: |chunk| < j < i ==> group[j] == '='
    {
      var c := '=';
      if i <= |chunk| {
        c := Symbol(n / Place(i) % 64);
      }
      group := group + [c];
    }
    ghost var ranks := Ranks(group[..|chunk| + 1]);
    assert ranks[0] == n / Place(0) % 64 && ranks[1] == n / Place(1) % 64;
    assert |chunk| >= 2 ==> ranks[2] == n / Place(2) % 64;
    assert |chunk| >= 3 ==> ranks[3] == n / Place(3) % 64;
  }

  /** One chunk more. */
  method EncodeChunk(out: string, ghost done: seq<Byte>, chunk: seq<Byte>) returns (longer: string)
    requires |done| % 3 == 0 && Encodes(out, done) && 1 <= |chunk| <= 3
    ensures Encodes(longer, done + chunk)
  {
    var group := EncodeGroup(chunk);
    GroupEncodes(out, done, chunk, group);
    longer := out + group;
  }

  /** Encoded so far, with more to come only after whole groups. */
  ghost predicate Encoded(out: string, bytes: seq<Byte>, k: nat) {
    k <= |bytes| && Encodes(out, bytes[..k]) && (k < |bytes| ==> k % 3 == 0)
  }

  method EncodeNext(out: string, bytes: seq<Byte>, k: nat) returns (longer: string, end: nat)
    requires Encoded(out, bytes, k) && k < |bytes|
    ensures Encoded(longer, bytes, end) && k < end
  {
    end := if k + 3 <= |bytes| then k + 3 else |bytes|;
    longer := EncodeChunk(out, bytes[..k], bytes[k..end]);
    assert bytes[..k] + bytes[k..end] == bytes[..end];
  }

  method Encode(bytes: seq<Byte>) returns (out: string)
    ensures Encodes(out, bytes)
  {
    NothingEncodes(bytes);
    out := "";
    var k := 0;
    while k < |bytes|
      invariant Encoded(out, bytes, k)
    {
      out, k := EncodeNext(out, bytes, k);
    }
    assert bytes[..k] == bytes;
  }

  lemma NothingEncodes(bytes: seq<Byte>)
    ensures Encoded("", bytes, 0)
  {
    assert bytes[..0] == [];
  }

  lemma SpelledSnoc(digits: seq<nat>, d: nat)
    ensures Spelled(digits + [d]) == Spelled(digits) * 64 + d
  {
    assert (digits + [d])[..|digits|] == digits;
  }

  lemma WeightSnoc(bytes: seq<Byte>, b: Byte)
    ensures Weight(bytes + [b]) == Weight(bytes) * 256 + b
  {
    assert (bytes + [b])[..|bytes|] == bytes;
  }

  lemma Sextets(n: nat)
    requires n < 0x100_0000
    ensures n / 262144 % 64 == n / 262144 && n / 4096 == n / 262144 * 64 + n / 4096 % 64
    ensures n / 64 == n / 4096 * 64 + n / 64 % 64 && n == n / 64 * 64 + n % 64
  {
    assert n / 4096 / 64 == n / 262144;
    assert n / 64 / 64 == n / 4096;
  }

  /** The digits of a group spell the top bits of its number. */
  lemma GroupSpells(digits: seq<nat>, n: nat, len: nat)
    requires n < 0x100_0000 && 1 <= len <= 3
    ensures Spelled(digits + Digits(n, len)) ==
            if len == 1 then Spelled(digits) * 4096 + n / 4096
            else if len == 2 then Spelled(digits) * 262144 + n / 64
            else Spelled(digits) * 16777216 + n
  {
    var a, b, c, d := n / 262144 % 64, n / 4096 % 64, n / 64 % 64, n % 64;
    Sextets(n);
    SpelledSnoc(digits, a);
    SpelledSnoc(digits + [a], b);
    SpelledSnoc(digits + [a] + [b], c);
    SpelledSnoc(digits + [a] + [b] + [c], d);
    assert digits + [a] + [b] == digits + [a, b];
    assert digits + [a] + [b] + [c] == digits + [a, b, c];
    assert digits + [a] + [b] + [c] + [d] == digits + [a, b, c, d];
  }

  /** The bytes of a chunk weigh the top bits of its number. */
  lemma ChunkWeighs(bytes: seq<Byte>, chunk: seq<Byte>)
    requires 1 <= |chunk| <= 3
    ensures |chunk| == 1 ==> (Weight(bytes + chunk) * 16 == Weight(bytes) * 4096 + Joined(chunk) / 4096)
    ensures |chunk| == 2 ==> (Weight(bytes + chunk) * 4 == Weight(bytes) * 262144 + Joined(chunk) / 64)
    ensures |chunk| == 3 ==> (Weight(bytes + chunk) == Weight(bytes) * 16777216 + Joined(chunk))
  {
    WeightSnoc(bytes, chunk[0]);
    assert |chunk| == 1 ==> bytes + [chunk[0]] == bytes + chunk;
    if |chunk| >= 2 {
      WeightSnoc(bytes + [chunk[0]], chunk[1]);
      assert |chunk| == 2 ==> bytes + [chunk[0]] + [chunk[1]] == bytes + chunk;
    }
    if |chunk| >= 3 {
      WeightSnoc(bytes + [chunk[0]] + [chunk[1]], chunk[2]);
      assert bytes + [chunk[0]] + [chunk[1]] + [chunk[2]] == bytes + chunk;
    }
  }

  lemma DigitsBelow64(digits: seq<nat>, n: nat, len: nat)
    requires Below64(digits) && 1 <= len <= 3
    ensures Below64(digits + Digits(n, len))
  {
  }

  lemma SixBitsGrow(digits: seq<nat>, bytes: seq<Byte>, chunk: seq<Byte>)
    requires |bytes| % 3 == 0 && SixBits(digits, bytes) && 1 <= |chunk| <= 3
    ensures SixBits(digits + Digits(Joined(chunk), |chunk|), bytes + chunk)
  {
    var more, longer := digits + Digits(Joined(chunk), |chunk|), bytes + chunk;
    DigitsBelow64(digits, Joined(chunk), |chunk|);
    SpelledGrows(digits, bytes, chunk);
    CountsGrow(|bytes|, |chunk|);
    assert |longer| == |bytes| + |chunk|;
    assert |more| == (|longer| * 8 + 5) / 6;
  }

  lemma SpelledGrows(digits: seq<nat>, bytes: seq<Byte>, chunk: seq<Byte>)
    requires |bytes| % 3 == 0 && Spelled(digits) == Weight(bytes) && 1 <= |chunk| <= 3
    ensures Spelled(digits + Digits(Joined(chunk), |chunk|)) == Shl(Weight(bytes + chunk), Fill(|bytes| + |chunk|))
  {
    FillOf(|bytes|, |chunk|);
    GroupSpells(digits, Joined(chunk), |chunk|);
    ChunkWeighs(bytes, chunk);
  }

  lemma FillOf(n: nat, len: nat)
    requires n % 3 == 0 && 1 <= len <= 3
    ensures Fill(n + len) == if len == 1 then 4 else if len == 2 then 2 else 0
  {
    var q := n / 3;
    assert n == q * 3;
  }

  lemma Counts(n: nat)
    ensures var q := n / 3;
            && (n % 3 == 0 ==> (n * 8 + 5) / 6 == q * 4 && (n + 2) / 3 == q)
            && (n % 3 == 1 ==> (n * 8 + 5) / 6 == q * 4 + 2 && (n + 2) / 3 == q + 1)
            && (n % 3 == 2 ==> (n * 8 + 5) / 6 == q * 4 + 3 && (n + 2) / 3 == q + 1)
  {
    var q := n / 3;
    assert n == q * 3 + n % 3;
  }

  lemma CountsGrow(n: nat, len: nat)
    requires n % 3 == 0 && 1 <= len <= 3
    ensures var chars := (n + 2) / 3 * 4;
            (n * 8 + 5) / 6 == chars && ((n + len) * 8 + 5) / 6 == chars + len + 1 && (n + len + 2) / 3 * 4 == chars + 4
  {
    Counts(n);
    Counts(n + len);
  }

  /** One more group encodes one more chunk. */
  lemma GroupEncodes(text: string, bytes: seq<Byte>, chunk: seq<Byte>, group: string)
    requires |bytes| % 3 == 0 && Encodes(text, bytes) && 1 <= |chunk| <= 3
    requires |group| == 4 && Ranks(group[..|chunk| + 1]) == Digits(Joined(chunk), |chunk|)
    requires forall j :: |chunk| < j < 4 ==> group[j] == '='
    ensures Encodes(text + group, bytes + chunk)
  {
    var len := |chunk|;
    CountsGrow(|bytes|, len);
    assert text[..|text|] == text;
    SixBitsGrow(Ranks(text), bytes, chunk);
    assert (text + group)[..|text| + len + 1] == text + group[..len + 1];
    assert Ranks(text + group[..len + 1]) == Ranks(text) + Ranks(group[..len + 1]);
  }

  // ---------------------------------------------------------------------------
  // Decoding
  // ---------------------------------------------------------------------------

  datatype Decoded = Ok(bytes: seq<Byte>) | NotBase64(byte: char)

  /** The search of the table. */
  method Position(c: char) returns (at: Option<nat>)
    ensures at == if Rank(c) < 64 then Some(Rank(c)) else None
  {
    AlphabetIsTheTable(0);
    for i := 0 to 64
      invariant forall j :: 0 <= j < i ==> ALPHABET[j] != c
    {
      if ALPHABET[i] == c {
        AlphabetIsTheTable(i);
        return Some(i);
      }
    }
    if Rank(c) < 64 {
      SymbolsAreInTheTable(c);
    }
    at := None;
  }

  /** What decoding keeps: the bytes written and the bits still pending spell what has been
      read, whatever else is left in the accumulator. */
  ghost predicate Keeps(digits: seq<nat>, acc: nat, bits: nat, out: seq<Byte>) {
    && acc < U32 && (bits == 0 || bits == 2 || bits == 4 || bits == 6)
    && |digits| * 6 == |out| * 8 + bits
    && Spelled(digits) == Shl(Weight(out), bits) + Low(acc, bits)
  }

  /** One character: a digit is shifted in, and a byte shifted out once there is one. */
  method Absorb(c: char, acc: nat, bits: nat, out: seq<Byte>, ghost digits: seq<nat>)
    returns (acc': nat, bits': nat, out': seq<Byte>, bad: bool)
    requires Keeps(digits, acc, bits, out)
    ensures bad <==> c != '=' && Rank(c) >= 64
    ensures !bad ==> Keeps(if c == '=' then digits else digits + [Rank(c)], acc', bits', out')
  {
    acc', bits', out', bad := acc, bits, out, false;
    if c != '=' {
      var at := Position(c);
      if at.None? {
        bad := true;
      } else {
        DigitKeeps(digits, at.value, acc, bits, out);
        acc' := acc * 64 % U32 + at.value;
        bits' := bits + 6;
        if bits' >= 8 {
          bits' := bits' - 8;
          out' := out' + [Shr(acc', bits') % 256];
        }
      }
    }
  }

  /** The first character that is neither a symbol nor a padding. */
  ghost predicate FirstBad(text: string, c: char) {
    exists i :: 0 <= i < |text| && text[i] == c && c != '=' && Rank(c) == 64 && Readable(text[..i])
  }

  method Decode(text: string) returns (r: Decoded)
    ensures r.Ok? <==> Readable(text)
    ensures r.Ok? ==> EightBits(r.bytes, Read(text))
    ensures r.NotBase64? ==> FirstBad(text, r.byte)
  {
    var acc: nat, bits: nat := 0, 0;
    var out: seq<Byte> := [];
    for i := 0 to |text|
      invariant Readable(text[..i]) && Keeps(Read(text[..i]), acc, bits, out)
    {
      ReadNext(text, i);
      var bad;
      acc, bits, out, bad := Absorb(text[i], acc, bits, out, Read(text[..i]));
      if bad {
        BadStaysBad(text, i);
        return NotBase64(text[i]);
      }
    }
    assert text[..|text|] == text;
    KeepsDecodes(Read(text), acc, bits, out);
    r := Ok(out);
  }

  lemma ReadNext(text: string, i: nat)
    requires i < |text|
    ensures Read(text[..i + 1]) == if text[i] == '=' then Read(text[..i]) else Read(text[..i]) + [Rank(text[i])]
    ensures Readable(text[..i + 1]) <==> Readable(text[..i]) && (text[i] == '=' || Rank(text[i]) < 64)
  {
    assert text[..i + 1] == text[..i] + [text[i]];
    ReadSnoc(text[..i], text[i]);
  }

  lemma ReadSnoc(text: string, c: char)
    ensures Read(text + [c]) == if c == '=' then Read(text) else Read(text) + [Rank(c)]
    ensures Readable(text + [c]) <==> Readable(text) && (c == '=' || Rank(c) < 64)
  {
    assert (text + [c])[..|text|] == text;
  }

  lemma {:induction false} BadStaysBad(text: string, i: nat)
    requires i < |text| && text[i] != '=' && Rank(text[i]) >= 64
    ensures !Readable(text) && (Readable(text[..i]) ==> FirstBad(text, text[i]))
  {
    if i < |text| - 1 {
      BadStaysBad(text[..|text| - 1], i);
    }
  }

  lemma DigitKeeps(digits: seq<nat>, v: nat, acc: nat, bits: nat, out: seq<Byte>)
    requires Keeps(digits, acc, bits, out) && v < 64
    ensures var acc' := acc * 64 % U32 + v;
            if bits == 0 then Keeps(digits + [v], acc', 6, out)
            else Keeps(digits + [v], acc', bits - 2, out + [Shr(acc', bits - 2) % 256])
  {
    var acc' := acc * 64 % U32 + v;
    SpelledSnoc(digits, v);
    Shifted(acc, v, bits);
    if bits != 0 {
      WeightSnoc(out, Shr(acc', bits - 2) % 256);
    }
  }

  /** One shift-and-or: the bits dropped off the top of the word are never among those read,
      and the new byte and the rest of the pending bits are where the source takes them. */
  lemma Shifted(acc: nat, v: nat, bits: nat)
    requires acc < U32 && v < 64 && (bits == 0 || bits == 2 || bits == 4 || bits == 6)
    ensures var acc' := acc * 64 % U32 + v;
            && acc' < U32
            && (bits == 0 ==> acc' % 64 == v)
            && (bits != 0 ==> Low(acc, bits) * 64 + v ==
                              Shl(Shr(acc', bits - 2) % 256, bits - 2) + Low(acc', bits - 2))
  {
    var low := acc % 0x400_0000;
    DroppedBits(acc);
    if bits == 2 {
      Shift2(acc, low, v);
    } else if bits == 4 {
      Shift4(acc, low, v);
    } else if bits == 6 {
      Shift6(acc, low, v);
    }
  }

  lemma DroppedBits(acc: nat)
    ensures acc * 64 % U32 == acc % 0x400_0000 * 64
  {
    var high, low := acc / 0x400_0000, acc % 0x400_0000;
    assert acc * 64 == high * U32 + low * 64;
  }

  lemma Shift2(acc: nat, low: nat, v: nat)
    requires low == acc % 0x400_0000 && v < 64
    ensures acc % 4 * 64 + v == (low * 64 + v) % 256
  {
    var h := acc / 0x400_0000;
    assert acc == h * 0x100_0000 * 4 + low;
    Mod4(h * 0x100_0000, low);
    var q, r := low / 4, low % 4;
    assert low * 64 + v == q * 256 + (r * 64 + v);
    LowByte(q, r * 64 + v);
  }

  lemma Shift4(acc: nat, low: nat, v: nat)
    requires low == acc % 0x400_0000 && v < 64
    ensures var x := low * 64 + v; acc % 16 * 64 + v == x / 4 % 256 * 4 + x % 4
  {
    Low16(acc);
    var q, r := low / 16, low % 16;
    assert low == q * 16 + r;
    Quarter(q, r, v);
  }

  lemma Shift6(acc: nat, low: nat, v: nat)
    requires low == acc % 0x400_0000 && v < 64
    ensures var x := low * 64 + v; acc % 64 * 64 + v == x / 16 % 256 * 16 + x % 16
  {
    Low64(acc);
    var q, r := low / 64, low % 64;
    assert low == q * 64 + r;
    Sixteenth(q, r, v);
  }

  lemma Low16(acc: nat)
    ensures acc % 0x400_0000 % 16 == acc % 16
  {
    var h, low := acc / 0x400_0000, acc % 0x400_0000;
    assert acc == h * 0x40_0000 * 16 + low;
    Mod16(h * 0x40_0000, low);
  }

  lemma Low64(acc: nat)
    ensures acc % 0x400_0000 % 64 == acc % 64
  {
    var h, low := acc / 0x400_0000, acc % 0x400_0000;
    assert acc == h * 0x10_0000 * 64 + low;
    Mod64(h * 0x10_0000, low);
  }

  lemma Mod4(q: nat, x: nat)
    ensures (q * 4 + x) % 4 == x % 4
  {
    assert q * 4 + x == (q + x / 4) * 4 + x % 4;
  }

  lemma Mod16(q: nat, x: nat)
    ensures (q * 16 + x) % 16 == x % 16
  {
    assert q * 16 + x == (q + x / 16) * 16 + x % 16;
  }

  lemma Mod64(q: nat, x: nat)
    ensures (q * 64 + x) % 64 == x % 64
  {
    assert q * 64 + x == (q + x / 64) * 64 + x % 64;
  }

  lemma Quarter(q: nat, r: nat, v: nat)
    requires r < 16 && v < 64
    ensures var x := (q * 16 + r) * 64 + v; x / 4 % 256 * 4 + x % 4 == r * 64 + v
  {
    var x := (q * 16 + r) * 64 + v;
    assert x / 4 == q * 256 + (r * 16 + v / 4);
    LowByte(q, r * 16 + v / 4);
  }

  lemma Sixteenth(q: nat, r: nat, v: nat)
    requires r < 64 && v < 64
    ensures var x := (q * 64 + r) * 64 + v; x / 16 % 256 * 16 + x % 16 == r * 64 + v
  {
    var x := (q * 64 + r) * 64 + v;
    assert x / 16 == q * 256 + (r * 4 + v / 16);
    LowByte(q, r * 4 + v / 16);
  }

  lemma LowByte(q: nat, t: nat)
    requires t < 256
    ensures (q * 256 + t) % 256 == t
  {
  }

  lemma KeepsDecodes(digits: seq<nat>, acc: nat, bits: nat, out: seq<Byte>)
    requires Keeps(digits, acc, bits, out)
    ensures EightBits(out, digits)
  {
    assert Shr(Shl(Weight(out), bits) + Low(acc, bits), bits) == Weight(out);
  }

  // ---------------------------------------------------------------------------
  // The round trip
  // ---------------------------------------------------------------------------

  lemma {:induction false} ReadSymbols(text: string)
    requires Below64(Ranks(text))
    ensures Readable(text) && Read(text) == Ranks(text)
  {
    if text != "" {
      var n := |text| - 1;
      var init := text[..n];
      assert Ranks(text) == Ranks(init) + [Rank(text[n])];
      assert forall i :: 0 <= i < n ==> Ranks(init)[i] == Ranks(text)[i];
      ReadSymbols(init);
      assert Ranks(text)[n] < 64;
      RankIsInjective(text[n], text[n]);
    }
  }

  lemma {:induction false} ReadPadded(text: string, symbols: nat)
    requires symbols <= |text| && Below64(Ranks(text[..symbols]))
    requires forall i :: symbols <= i < |text| ==> text[i] == '='
    ensures Readable(text) && Read(text) == Ranks(text[..symbols])
  {
    if symbols == |text| {
      assert text[..symbols] == text;
      ReadSymbols(text);
    } else {
      var init := text[..|text| - 1];
      assert init[..symbols] == text[..symbols];
      ReadPadded(init, symbols);
    }
  }

  lemma EncodedReads(text: string, bytes: seq<Byte>)
    requires Encodes(text, bytes)
    ensures Readable(text) && SixBits(Read(text), bytes)
  {
    Counts(|bytes|);
    ReadPadded(text, (|bytes| * 8 + 5) / 6);
  }

  lemma {:induction false} SameWeight(a: seq<Byte>, b: seq<Byte>)
    requires |a| == |b| && Weight(a) == Weight(b)
    ensures a == b
  {
    if a != [] {
      var n := |a| - 1;
      SameWeight(a[..n], b[..n]);
      assert a == a[..n] + [a[n]] && b == b[..n] + [b[n]];
    }
  }

  lemma {:induction false} SameSpelling(a: seq<nat>, b: seq<nat>)
    requires |a| == |b| && Below64(a) && Below64(b) && Spelled(a) == Spelled(b)
    ensures a == b
  {
    if a != [] {
      var n := |a| - 1;
      SameSpelling(a[..n], b[..n]);
      assert a == a[..n] + [a[n]] && b == b[..n] + [b[n]];
    }
  }

  /** Regrouping to six bits and back is the identity. */
  lemma SixThenEight(bytes: seq<Byte>, digits: seq<nat>, back: seq<Byte>)
    requires SixBits(digits, bytes) && EightBits(back, digits)
    ensures back == bytes
  {
    FillIsLeft(|bytes|);
    assert Shr(Shl(Weight(bytes), Fill(|bytes|)), Fill(|bytes|)) == Weight(bytes);
    SameWeight(back, bytes);
  }

  lemma FillIsLeft(n: nat)
    ensures var symbols := (n * 8 + 5) / 6;
            symbols * 6 / 8 == n && symbols * 6 % 8 == Fill(n)
  {
    Counts(n);
  }

  /** There is one encoding of any bytes. */
  lemma EncodingIsUnique(text: string, text': string, bytes: seq<Byte>)
    requires Encodes(text, bytes) && Encodes(text', bytes)
    ensures text == text'
  {
    var symbols := (|bytes| * 8 + 5) / 6;
    Counts(|bytes|);
    var r, r' := Ranks(text[..symbols]), Ranks(text'[..symbols]);
    SameSpelling(r, r');
    forall i | 0 <= i < |text|
      ensures text[i] == text'[i]
    {
      if i < symbols {
        assert r[i] == r'[i] < 64;
        RankIsInjective(text[i], text'[i]);
      }
    }
  }

  /** Decoding the encoding of any bytes gives them back, and the text is four characters for
      every three bytes begun. */
  method EncodeThenDecode(bytes: seq<Byte>) returns (text: string, back: Decoded)
    ensures Encodes(text, bytes) && |text| == (|bytes| + 2) / 3 * 4
    ensures back == Ok(bytes)
  {
    text := Encode(bytes);
    EncodedReads(text, bytes);
    back := Decode(text);
    SixThenEight(bytes, Read(text), back.bytes);
  }
}
