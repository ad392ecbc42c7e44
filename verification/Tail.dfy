/**
 The bounded output tail (crates/barista-guest-agent/src/cmd.rs).
 */
module Tail {
  type Byte = x: int | 0 <= x < 256

  const TAIL_LIMIT := 4096

  /** The last bytes of a stream, as many as are kept. */
  function LastOf(stream: seq<Byte>): (r: seq<Byte>) {
    if |stream| <= TAIL_LIMIT then stream else stream[|stream| - TAIL_LIMIT..]
  }

  /** What one read of the pipe gave; an empty chunk is the end of the stream. */
  datatype Read = Chunk(bytes: seq<Byte>) | Broken

  /** Everything read before the first empty chunk or error. */
  function Stream(pipe: seq<Read>): (r: seq<Byte>) {
    if pipe == [] || pipe[0].Broken? || pipe[0].bytes == [] then []
    else pipe[0].bytes + Stream(pipe[1..])
  }

  class Ring {
    var kept: seq<Byte>
    var dropped: nat

    /** The ring is what a stream leaves behind. */
    ghost predicate Follows(stream: seq<Byte>)
      reads this
    {
      kept == LastOf(stream) && dropped + |kept| == |stream|
    }

    constructor ()
      ensures Follows([])
    {
      kept, dropped := [], 0;
    }

    /** Whatever stream the ring followed, it now follows that stream with `bytes` after it. */
    method Push(bytes: seq<Byte>)
      modifies this
      ensures forall stream :: old(Follows(stream)) ==> Follows(stream + bytes)
      ensures dropped + |kept| == old(dropped) + old(|kept|) + |bytes|
      ensures old(|kept|) <= TAIL_LIMIT ==> |kept| <= TAIL_LIMIT
    {
      var keep := if |bytes| < TAIL_LIMIT then |bytes| else TAIL_LIMIT;
      dropped := dropped + (|bytes| - keep);
      kept := kept + bytes[|bytes| - keep..];
      ghost var joined := kept;
      while |kept| > TAIL_LIMIT
        invariant |kept| <= |joined| && kept == joined[|joined| - |kept|..]
        invariant |joined| > TAIL_LIMIT ==> |kept| >= TAIL_LIMIT
        invariant |joined| <= TAIL_LIMIT ==> kept == joined
        invariant dropped + |kept| == old(dropped) + old(|kept|) + |bytes|
        decreases |kept|
      {
        kept := kept[1..];
        dropped := dropped + 1;
      }
      assert kept == LastOf(joined);
      forall stream | old(Follows(stream))
        ensures Follows(stream + bytes)
      {
        LastOfJoined(stream, bytes);
      }
    }

    /** The tail, with a line in front exactly if it is not the whole stream; the line says how
        many bytes of the stream come before it. */
    method IntoString() returns (text: seq<Byte>)
      ensures forall stream :: Follows(stream) ==> text == Rendered(stream, LineFor(stream))
    {
      var line := if dropped == 0 then [] else Banner(dropped);
      text := line + kept;
      forall stream | Follows(stream)
        ensures text == Rendered(stream, LineFor(stream))
      {
        RendersTail(stream, kept, dropped, line);
      }
    }

    /** Read until the end of the stream or an error, keeping only the tail. */
    method Drain(pipe: seq<Read>)
      requires Follows([])
      modifies this
      ensures Follows(Stream(pipe))
    {
      ghost var seen: seq<Byte> := [];
      var i := 0;
      while i < |pipe| && pipe[i].Chunk? && pipe[i].bytes != []
        invariant 0 <= i <= |pipe| && Follows(seen)
        invariant seen + Stream(pipe[i..]) == Stream(pipe)
      {
        StreamNext(pipe, i);
        assert seen + (pipe[i].bytes + Stream(pipe[i + 1..])) == (seen + pipe[i].bytes) + Stream(pipe[i + 1..]);
        Push(pipe[i].bytes);
        seen := seen + pipe[i].bytes;
        i := i + 1;
      }
      assert seen + [] == seen;
    }
  }

  lemma StreamNext(pipe: seq<Read>, i: nat)
    requires i < |pipe| && pipe[i].Chunk? && pipe[i].bytes != []
    ensures Stream(pipe[i..]) == pipe[i].bytes + Stream(pipe[i + 1..])
  {
    assert pipe[i..][1..] == pipe[i + 1..];
  }

  /** What a stream leaves behind, followed by the part of a write worth copying, leaves the
      same behind as the stream followed by the whole write. */
  lemma LastOfJoined(stream: seq<Byte>, bytes: seq<Byte>)
    ensures LastOf(LastOf(stream) + LastOf(bytes)) == LastOf(stream + bytes)
  {
    var both := stream + bytes;
    if |bytes| >= TAIL_LIMIT {
      assert LastOf(both) == LastOf(bytes);
    }
  }

  /** What is left behind is a suffix, of 4096 bytes or the whole stream if that is shorter. */
  lemma LeavesTheLast(stream: seq<Byte>)
    ensures |LastOf(stream)| == (if |stream| < 4096 then |stream| else 4096)
    ensures LastOf(stream) == stream[|stream| - |LastOf(stream)|..]
  {
  }

  function Flatten(writes: seq<seq<Byte>>): (r: seq<Byte>) {
    if writes == [] then [] else Flatten(writes[..|writes| - 1]) + writes[|writes| - 1]
  }

  /** After any sequence of pushes of any sizes the ring holds exactly the last bytes of the
      whole stream, and what it dropped and kept add up to it. */
  method PushAll(writes: seq<seq<Byte>>) returns (ring: Ring)
    ensures fresh(ring) && ring.kept == LastOf(Flatten(writes)) && ring.dropped + |ring.kept| == |Flatten(writes)|
  {
    ring := new Ring();
    for i := 0 to |writes|
      invariant fresh(ring) && ring.Follows(Flatten(writes[..i]))
    {
      assert writes[..i + 1][..i] == writes[..i];
      ring.Push(writes[i]);
    }
    assert writes[..|writes|] == writes;
  }

  // ---- the text --------------------------------------------------------------

  function Ascii(s: string): (r: seq<Byte>) {
    if s == "" then [] else Ascii(s[..|s| - 1]) + [if s[|s| - 1] as int < 128 then s[|s| - 1] as int else 63]
  }

  function Decimal(n: nat): (r: string)
    ensures r != ""
  {
    (if n < 10 then "" else Decimal(n / 10)) + [(48 + n % 10) as char]
  }

  function Value(digits: string): int {
    if digits == "" then 0 else Value(digits[..|digits| - 1]) * 10 + digits[|digits| - 1] as int - 48
  }

  /** The number in the truncation line is the number it was made from. */
  lemma {:induction false} DecimalReadsBack(n: nat)
    ensures Value(Decimal(n)) == n
  {
    var s := Decimal(n);
    assert s[|s| - 1] as int - 48 == n % 10;
    if n >= 10 {
      DecimalReadsBack(n / 10);
      assert s[..|s| - 1] == Decimal(n / 10);
    } else {
      assert s[..|s| - 1] == "";
    }
  }

  /** What is printed of a stream, behind a line. */
  function Rendered(stream: seq<Byte>, line: seq<Byte>): seq<Byte> {
    line + if |stream| <= TAIL_LIMIT then stream else stream[|stream| - TAIL_LIMIT..]
  }

  /** Nothing before a whole stream; before a tail, how many bytes are missing. */
  function LineFor(stream: seq<Byte>): seq<Byte> {
    if |stream| <= TAIL_LIMIT then [] else Banner(|stream| - TAIL_LIMIT)
  }

  lemma RendersTail(stream: seq<Byte>, kept: seq<Byte>, dropped: nat, line: seq<Byte>)
    requires kept == LastOf(stream) && dropped + |kept| == |stream|
    ensures line + kept == Rendered(stream, line)
    ensures dropped == if |stream| <= TAIL_LIMIT then 0 else |stream| - TAIL_LIMIT
  {
  }

  function Banner(dropped: nat): seq<Byte> {
    Ascii("[" + (Decimal(dropped) + KeepingTheLast()))
  }

  function KeepingTheLast(): (r: string)
    ensures r != "" && r[0] == ' '
  {
    " earlier bytes dropped; keeping the last " + Decimal(TAIL_LIMIT) + "]\n"
  }

  /** The digits a text starts with. */
  function Leading(bytes: seq<Byte>): string {
    if bytes != [] && 48 <= bytes[0] <= 57 then [bytes[0] as char] + Leading(bytes[1..]) else ""
  }

  lemma {:induction false} AsciiJoins(a: string, b: string)
    ensures Ascii(a + b) == Ascii(a) + Ascii(b)
  {
    if b == "" {
      assert a + b == a;
    } else {
      assert (a + b)[..|a + b| - 1] == a + b[..|b| - 1];
      AsciiJoins(a, b[..|b| - 1]);
    }
  }

  predicate AllDigits(s: string) {
    forall i :: 0 <= i < |s| ==> '0' <= s[i] <= '9'
  }

  lemma {:induction false} DecimalIsDigits(n: nat)
    ensures AllDigits(Decimal(n))
  {
    if n >= 10 {
      DecimalIsDigits(n / 10);
    }
  }

  lemma {:induction false} LeadingDigits(s: string, rest: seq<Byte>)
    requires AllDigits(s) && (rest != [] ==> !(48 <= rest[0] <= 57))
    ensures Leading(Ascii(s) + rest) == s
  {
    if s == "" {
      assert Ascii(s) + rest == rest;
    } else {
      assert s == [s[0]] + s[1..];
      AsciiJoins([s[0]], s[1..]);
      OneAscii(s[0]);
      assert (Ascii(s) + rest)[1..] == Ascii(s[1..]) + rest;
      LeadingDigits(s[1..], rest);
    }
  }

  lemma OneAscii(c: char)
    requires c as int < 128
    ensures Ascii([c]) == [c as int]
  {
    assert [c][..0] == "";
  }

  /** The first number in the line, right after its bracket, is how many bytes were dropped. */
  lemma LineStatesTheCount(dropped: nat)
    ensures Banner(dropped) != [] && Banner(dropped)[0] == '[' as int
    ensures Leading(Banner(dropped)[1..]) == Decimal(dropped) && Value(Leading(Banner(dropped)[1..])) == dropped
  {
    LineAfterBracket(Decimal(dropped), KeepingTheLast());
    DecimalIsDigits(dropped);
    DecimalReadsBack(dropped);
  }

  /** And the rest of the line names the limit. */
  lemma LineNamesTheLimit()
    ensures KeepingTheLast() == " earlier bytes dropped; keeping the last 4096]\n"
  {
    LimitInDigits();
  }

  lemma LimitInDigits()
    ensures Decimal(4096) == ['4', '0', '9', '6']
  {
    assert Decimal(40) == ['4', '0'];
    assert Decimal(409) == ['4', '0', '9'];
  }

  lemma LineAfterBracket(digits: string, rest: string)
    requires rest != "" && rest[0] == ' '
    ensures var line := Ascii("[" + (digits + rest));
            line != [] && line[0] == '[' as int && (AllDigits(digits) ==> Leading(line[1..]) == digits)
  {
    AsciiJoins("[", digits + rest);
    OneAscii('[');
    AsciiJoins(digits, rest);
    assert Ascii("[" + (digits + rest))[1..] == Ascii(digits) + Ascii(rest);
    assert rest == [rest[0]] + rest[1..];
    AsciiJoins([rest[0]], rest[1..]);
    OneAscii(rest[0]);
    if AllDigits(digits) {
      LeadingDigits(digits, Ascii(rest));
    }
  }
}
