/**
 * The log analysis of stats/functions.py: reading the frame and sequence number from a logged
 * line, parsing the hex payload, counting bit errors against the transmitted file, recovering
 * the sequence counter past its 8-bit wrap-around, and aggregating the bit errors of a run.
 */
module Stats {
  import opened Common
  import opened Bits
  import PacketGeneration

  // ---------------------------------------------------------------------------
  // popcount and compute_bit_errors
  // ---------------------------------------------------------------------------

  /** `popcount`: the ones in the binary form of n. */
  function Popcount(n: nat): (c: nat)
    ensures c == 0 <==> n == 0
  {
    if n == 0 then 0 else n % 2 + Popcount(n / 2)
  }

  /** Python's `^` on non-negative integers, bit by bit from the lowest. */
  function BitXor(a: nat, b: nat): (r: nat)
    decreases a + b
    ensures r == 0 <==> a == b
  {
    if a == 0 && b == 0 then 0
    else 2 * BitXor(a / 2, b / 2) + (if a % 2 != b % 2 then 1 else 0)
  }

  /** XOR of two k-bit numbers is a k-bit number. */
  lemma {:induction false} XorBelow(a: nat, b: nat, k: nat)
    requires a < Pow2(k) && b < Pow2(k)
    ensures BitXor(a, b) < Pow2(k)
    decreases k
  {
    if k > 0 && !(a == 0 && b == 0) {
      XorBelow(a / 2, b / 2, k - 1);
    }
  }

  /** A k-bit number has at most k ones. */
  lemma {:induction false} PopcountBelow(n: nat, k: nat)
    requires n < Pow2(k)
    ensures Popcount(n) <= k
    decreases k
  {
    if k > 0 && n > 0 {
      PopcountBelow(n / 2, k - 1);
    }
  }

  /** Two bytes differ in at most 8 bits. */
  lemma ByteDistance(a: nat, b: nat)
    requires a < 256 && b < 256
    ensures Popcount(BitXor(a, b)) <= 8
  {
    Pow2Small(8);
    XorBelow(a, b, 8);
    PopcountBelow(BitXor(a, b), 8);
  }

  /** The bit errors between the first n positions of p and s. */
  function ErrorsUpTo(p: seq<nat>, s: seq<nat>, n: nat): (e: nat)
    requires n <= |p| && n <= |s|
    ensures e == 0 <==> p[..n] == s[..n]
  {
    if n == 0 then 0
    else
      assert p[..n] == p[..n - 1] + [p[n - 1]] && s[..n] == s[..n - 1] + [s[n - 1]];
      ErrorsUpTo(p, s, n - 1) + Popcount(BitXor(p[n - 1], s[n - 1]))
  }

  /**
   * `compute_bit_errors(payload, sequence, PACKET_LEN)`: the differing bits of the first
   * min(|payload|, PACKET_LEN) positions. numpy needs `sequence` to be at least that long, and at
   * least one position: two empty lists become float64 arrays, which `^` refuses.
   */
  function BitErrors(payload: seq<nat>, sequence: seq<nat>, packetLen: nat): (e: nat)
    requires 0 < Min(|payload|, packetLen) <= |sequence|
    ensures e == 0 <==> payload[..Min(|payload|, packetLen)] == sequence[..Min(|payload|, packetLen)]
  {
    ErrorsUpTo(payload, sequence, Min(|payload|, packetLen))
  }

  /** Bytes against bytes: at most 8 errors per compared position. */
  lemma {:induction false} ErrorsUpToBound(p: seq<nat>, s: seq<nat>, n: nat)
    requires n <= |p| && n <= |s|
    requires forall i :: 0 <= i < n ==> p[i] < 256 && s[i] < 256
    ensures ErrorsUpTo(p, s, n) <= 8 * n
  {
    if n > 0 {
      ErrorsUpToBound(p, s, n - 1);
      ByteDistance(p[n - 1], s[n - 1]);
    }
  }

  lemma BitErrorsBound(payload: seq<nat>, sequence: seq<nat>, packetLen: nat)
    requires 0 < Min(|payload|, packetLen) <= |sequence|
    requires forall i :: 0 <= i < |payload| ==> payload[i] < 256
    requires forall i :: 0 <= i < |sequence| ==> sequence[i] < 256
    ensures BitErrors(payload, sequence, packetLen) <= 8 * Min(|payload|, packetLen) <= 8 * packetLen
  {
    ErrorsUpToBound(payload, sequence, Min(|payload|, packetLen));
  }

  // ---------------------------------------------------------------------------
  // rnd
  // ---------------------------------------------------------------------------

  /** `rnd(seed)`: `(seed * 1664525 + 1013904223) & 0xFFFFFFFF` on Python's unbounded integers. */
  function Rnd(seed: nat): (r: u32)
  {
    (seed * PacketGeneration.LCG_A + PacketGeneration.LCG_C) % U32_MOD
  }

  /** The mask is reduction modulo 2^32, and on 32-bit seeds the script's generator is the firmware's. */
  lemma RndIsFirmwareLcg(seed: nat)
    ensures Rnd(seed) == BitAnd(0xFFFF_FFFF, seed * PacketGeneration.LCG_A + PacketGeneration.LCG_C)
    ensures seed < U32_MOD ==> Rnd(seed) == PacketGeneration.Lcg(seed)
  {
    PacketGeneration.MaskedSum(seed * PacketGeneration.LCG_A, PacketGeneration.LCG_C);
  }

  // ---------------------------------------------------------------------------
  // Hex tokens: parse_payload and the frame column of readfile
  // ---------------------------------------------------------------------------

  /** The characters `str.split()` and `str.strip()` treat as whitespace. */
  predicate IsSpace(c: char)
  {
    c == ' ' || '\t' <= c <= '\r' || '\U{1C}' <= c <= '\U{1F}' || c == '\U{85}' || c == '\U{A0}'
    || c == '\U{1680}' || '\U{2000}' <= c <= '\U{200A}' || c == '\U{2028}' || c == '\U{2029}'
    || c == '\U{202F}' || c == '\U{205F}' || c == '\U{3000}'
  }

  predicate IsHexDigit(c: char)
  {
    '0' <= c <= '9' || 'a' <= c <= 'f' || 'A' <= c <= 'F'
  }

  function HexDigitValue(c: char): (v: nat)
    requires IsHexDigit(c)
    ensures v < 16
  {
    if '0' <= c <= '9' then c as int - '0' as int
    else if 'a' <= c <= 'f' then c as int - 'a' as int + 10
    else c as int - 'A' as int + 10
  }

  /** The value of a run of hex digits, most significant first; None when a character is not one. */
  function HexDigits(t: string): (r: Option<nat>)
    ensures r.Some? <==> forall i :: 0 <= i < |t| ==> IsHexDigit(t[i])
  {
    if t == [] then Some(0)
    else
      var last := t[|t| - 1];
      var init := HexDigits(t[..|t| - 1]);
      assert forall i :: 0 <= i < |t| - 1 ==> t[..|t| - 1][i] == t[i];
      if init.Some? && IsHexDigit(last) then Some(init.value * 16 + HexDigitValue(last)) else None
  }

  /** `s.lstrip()`. */
  function LStrip(s: string): (r: string)
    ensures |r| <= |s|
  {
    if s != [] && IsSpace(s[0]) then LStrip(s[1..]) else s
  }

  /** `s.rstrip()`. */
  function RStrip(s: string): (r: string)
    ensures |r| <= |s|
  {
    if s != [] && IsSpace(s[|s| - 1]) then RStrip(s[..|s| - 1]) else s
  }

  function Strip(s: string): string
  {
    LStrip(RStrip(s))
  }

  /**
   * `int(t, 16)` for tokens of hex digits: surrounding whitespace is ignored, and an empty token
   * or any other character is a ValueError (None).
   */
  function HexInt(t: string): (r: Option<nat>)
  {
    var u := Strip(t);
    if u == [] then None else HexDigits(u)
  }

  /** The leading run of non-whitespace characters. */
  function Word(s: string): (w: string)
    ensures |w| <= |s| && w == s[..|w|]
    ensures forall i :: 0 <= i < |w| ==> !IsSpace(w[i])
    ensures |w| < |s| ==> IsSpace(s[|w|])
  {
    if s == [] || IsSpace(s[0]) then [] else [s[0]] + Word(s[1..])
  }

  /** `s.split()`: the maximal runs of non-whitespace characters, in order. */
  function Tokens(s: string): (ts: seq<string>)
    decreases |s|
  {
    if s == [] then []
    else if IsSpace(s[0]) then Tokens(s[1..])
    else
      var w := Word(s);
      [w] + Tokens(s[|w|..])
  }

  function ParseTokens(ts: seq<string>): (r: Option<seq<nat>>)
    ensures r.Some? ==> |r.value| == |ts|
  {
    if ts == [] then Some([])
    else
      var head := HexInt(ts[0]);
      var tail := ParseTokens(ts[1..]);
      if head.Some? && tail.Some? then Some([head.value] + tail.value) else None
  }

  /** `parse_payload`: the values of the whitespace-separated hex tokens, in order; None for a ValueError. */
  function ParsePayload(s: string): (r: Option<seq<nat>>)
  {
    ParseTokens(Tokens(s))
  }

  // ---------------------------------------------------------------------------
  // What printPacket writes, and what readfile takes from it
  // ---------------------------------------------------------------------------

  /** A lower-case hex digit. */
  function HexChar(d: nat): (c: char)
    requires d < 16
    ensures IsHexDigit(c) && HexDigitValue(c) == d && !IsSpace(c)
  {
    if d < 10 then ('0' as int + d) as char else ('a' as int + d - 10) as char
  }

  /** `%02x`: two lower-case hex digits. */
  function Hex2(b: byte): (t: string)
    ensures |t| == 2 && IsHexDigit(t[0]) && IsHexDigit(t[1]) && !IsSpace(t[0]) && !IsSpace(t[1])
    ensures HexDigitValue(t[0]) == b / 16 && HexDigitValue(t[1]) == b % 16
  {
    [HexChar(b / 16), HexChar(b % 16)]
  }

  /** The bytes of a frame separated by single spaces, as the frame column reads once stripped. */
  function Joined(bs: seq<byte>): (s: string)
  {
    if bs == [] then []
    else if |bs| == 1 then Hex2(bs[0])
    else Hex2(bs[0]) + " " + Joined(bs[1..])
  }

  /** The loop of `printPacket`: `%02x ` per byte. */
  function Printed(bs: seq<byte>): (s: string)
  {
    if bs == [] then [] else Hex2(bs[0]) + " " + Printed(bs[1..])
  }

  const OVERFLOW_TEXT: string := "packet overflow"

  /** Whether `pattern` occurs in `s` (Python's `in` on strings). */
  predicate Contains(s: string, pattern: string)
    decreases |s|
  {
    |s| >= |pattern| && (s[..|pattern|] == pattern || (s != [] && Contains(s[1..], pattern)))
  }

  /** What `readfile` makes of one frame column. */
  datatype FrameRecord =
    | Dropped                                   // a `packet overflow` line, filtered out
    | Parsed(sequence: nat, payload: string)    // `seq` and the `payload` column
    | Invalid                                   // `int(x[3:5], 16)` raises

  /** Python's `x[a:b]` for 0 <= a <= b: clamped to the string. */
  function Slice(x: string, a: nat, b: nat): (r: string)
    requires a <= b
    ensures |r| == Max(0, Min(b, |x|) - a)
  {
    if a >= |x| then [] else x[a..Min(b, |x|)]
  }

  /**
   * `readfile` on the frame column: strip it, drop it when it holds "packet overflow", take the
   * sequence number from characters 3-5 (hex) and the payload from character 6 on.
   */
  function ReadFrame(column: string): (r: FrameRecord)
    ensures Contains(Strip(column), OVERFLOW_TEXT) <==> r.Dropped?
  {
    var x := Strip(column);
    if Contains(x, OVERFLOW_TEXT) then Dropped
    else
      match HexInt(Slice(x, 3, 5))
      case Some(v) => Parsed(v, Slice(x, 6, Max(6, |x|)))
      case None => Invalid
  }

  // ---------------------------------------------------------------------------
  // Reading back what printPacket wrote
  // ---------------------------------------------------------------------------

  /** `int(..., 16)` reads a printed byte back. */
  lemma HexIntOfHex2(b: byte)
    ensures HexInt(Hex2(b)) == Some(b)
  {
    var t := Hex2(b);
    assert RStrip(t) == t && LStrip(t) == t;
    assert t[..1][..0] == [];
    assert HexDigits(t[..1]) == Some(b / 16);
  }

  /** The tokens of the joined bytes: one per byte. */
  function HexTokens(bs: seq<byte>): (ts: seq<string>)
    ensures |ts| == |bs|
  {
    if bs == [] then [] else [Hex2(bs[0])] + HexTokens(bs[1..])
  }

  /** A joined frame starts with its first byte and ends with a hex digit. */
  lemma {:induction false} JoinedEnds(bs: seq<byte>)
    requires bs != []
    ensures var s := Joined(bs);
      |s| >= 2 && s[..2] == Hex2(bs[0]) && IsHexDigit(s[|s| - 1]) && !IsSpace(s[|s| - 1])
  {
    if |bs| > 1 {
      JoinedEnds(bs[1..]);
    }
  }

  /** Splitting after one printed byte and a space. */
  lemma {:induction false} WordOfHex2(b: byte, rest: string)
    requires rest == [] || IsSpace(rest[0])
    ensures Word(Hex2(b) + rest) == Hex2(b)
  {
    var s := Hex2(b) + rest;
    var w := Word(s);
    assert s[0] == Hex2(b)[0] && s[1] == Hex2(b)[1];
  }

  /** The first token of a printed byte followed by whitespace (or nothing) is that byte. */
  lemma {:induction false} TokensAfterHex2(b: byte, rest: string)
    requires rest == [] || IsSpace(rest[0])
    ensures Tokens(Hex2(b) + rest) == [Hex2(b)] + Tokens(rest)
  {
    var s := Hex2(b) + rest;
    WordOfHex2(b, rest);
    assert s[0] == Hex2(b)[0];
    assert s[2..] == rest;
  }

  lemma TokensSkipSpace(t: string)
    ensures Tokens(" " + t) == Tokens(t)
  {
    assert (" " + t)[1..] == t;
  }

  /** `split()` of the joined bytes gives one token per byte. */
  lemma {:induction false} TokensOfJoined(bs: seq<byte>)
    ensures Tokens(Joined(bs)) == HexTokens(bs)
  {
    if |bs| == 1 {
      TokensAfterHex2(bs[0], []);
      assert Hex2(bs[0]) + [] == Hex2(bs[0]);
    } else if |bs| > 1 {
      var tail := Joined(bs[1..]);
      assert Joined(bs) == Hex2(bs[0]) + (" " + tail);
      TokensAfterHex2(bs[0], " " + tail);
      TokensSkipSpace(tail);
      TokensOfJoined(bs[1..]);
    }
  }

  lemma {:induction false} ParseHexTokens(bs: seq<byte>)
    ensures ParseTokens(HexTokens(bs)) == Some(bs)
  {
    if bs != [] {
      HexIntOfHex2(bs[0]);
      ParseHexTokens(bs[1..]);
      assert HexTokens(bs)[1..] == HexTokens(bs[1..]);
      assert bs == [bs[0]] + bs[1..];
    }
  }

  /** `parse_payload` reads the joined bytes back exactly. */
  lemma ParseJoined(bs: seq<byte>)
    ensures ParsePayload(Joined(bs)) == Some(bs)
  {
    TokensOfJoined(bs);
    ParseHexTokens(bs);
  }

  /** `printPacket`'s byte loop is the joined bytes followed by one space. */
  lemma {:induction false} PrintedIsJoined(bs: seq<byte>)
    requires bs != []
    ensures Printed(bs) == Joined(bs) + " "
  {
    if |bs| > 1 {
      PrintedIsJoined(bs[1..]);
    }
  }

  /** Every character of a joined frame is a hex digit or a space. */
  lemma {:induction false} JoinedCharacters(bs: seq<byte>)
    ensures forall i :: 0 <= i < |Joined(bs)| ==> IsHexDigit(Joined(bs)[i]) || Joined(bs)[i] == ' '
  {
    if |bs| > 1 {
      JoinedCharacters(bs[1..]);
      var s := Joined(bs);
      var t := Joined(bs[1..]);
      assert forall i :: 3 <= i < |s| ==> s[i] == t[i - 3];
    }
  }

  /** A text of hex digits and spaces never contains "packet overflow" (it starts with 'p'). */
  lemma {:induction false} NoOverflowText(s: string)
    requires forall i :: 0 <= i < |s| ==> IsHexDigit(s[i]) || s[i] == ' '
    ensures !Contains(s, OVERFLOW_TEXT)
    decreases |s|
  {
    if |s| >= |OVERFLOW_TEXT| {
      assert s[..|OVERFLOW_TEXT|][0] == s[0];
      NoOverflowText(s[1..]);
    }
  }

  /** Stripping the logged frame column leaves the joined bytes. */
  lemma StripPrinted(bs: seq<byte>)
    requires bs != []
    ensures Strip(" " + Printed(bs)) == Joined(bs)
  {
    var x := Joined(bs);
    PrintedIsJoined(bs);
    JoinedEnds(bs);
    var y := " " + x;
    var padded := y + " ";
    assert " " + Printed(bs) == padded;
    assert padded[..|padded| - 1] == y && IsSpace(padded[|padded| - 1]);
    assert RStrip(padded) == RStrip(y);
    assert y[|y| - 1] == x[|x| - 1];
    assert RStrip(y) == y;
    assert y[1..] == x && IsSpace(y[0]);
    assert LStrip(y) == LStrip(x);
    assert x[0] == Hex2(bs[0])[0];
    assert LStrip(x) == x;
  }

  /** Characters 3-5 of the joined bytes are the second byte. */
  lemma JoinedSequenceSlice(bs: seq<byte>)
    requires |bs| >= 2
    ensures Slice(Joined(bs), 3, 5) == Hex2(bs[1])
  {
    var x := Joined(bs);
    var tail := Joined(bs[1..]);
    JoinedEnds(bs[1..]);
    assert x == Hex2(bs[0]) + " " + tail;
    assert |x| >= 5;
    assert x[3..5] == tail[..2];
  }

  /** From character 6 on come the remaining bytes, after a space. */
  lemma JoinedPayloadSlice(bs: seq<byte>)
    requires |bs| >= 2
    ensures var x := Joined(bs);
      Slice(x, 6, Max(6, |x|)) == Joined(bs[2..])
  {
    var x := Joined(bs);
    var tail := Joined(bs[1..]);
    assert x == Hex2(bs[0]) + " " + tail;
    if |bs| == 2 {
      assert tail == Hex2(bs[1]);
      assert |x| == 5 && bs[2..] == [];
    } else {
      var rest := Joined(bs[2..]);
      assert tail == Hex2(bs[1]) + " " + rest;
      assert x == Hex2(bs[0]) + " " + Hex2(bs[1]) + " " + rest;
      assert |x| > 6;
      assert x[6..] == rest;
      assert Slice(x, 6, Max(6, |x|)) == x[6..];
    }
  }

  /**
   * `readfile` recovers what `printPacket` logged for a received frame `[length, seq, payload...]`:
   * the frame column (a space, then `%02x ` per byte) is not dropped, its sequence number is the
   * second byte and its payload column parses to the bytes after it.
   */
  lemma ReadPrintedFrame(bs: seq<byte>)
    requires |bs| >= 2
    ensures var r := ReadFrame(" " + Printed(bs));
      r.Parsed? && r.sequence == bs[1] && ParsePayload(r.payload) == Some(bs[2..])
  {
    var x := Joined(bs);
    StripPrinted(bs);
    JoinedCharacters(bs);
    NoOverflowText(x);
    JoinedSequenceSlice(bs);
    HexIntOfHex2(bs[1]);
    var payload := Slice(x, 6, Max(6, |x|));
    assert ReadFrame(" " + Printed(bs)) == Parsed(bs[1], payload);
    JoinedPayloadSlice(bs);
    ParseJoined(bs[2..]);
  }

  // ---------------------------------------------------------------------------
  // replace_seq
  // ---------------------------------------------------------------------------

  /** The wrap-arounds `replace_seq` has counted at row i: drops of more than 50 from one row to the next. */
  function Wraps(seqs: seq<int>, i: nat): (c: nat)
    requires i < |seqs|
    ensures c <= i
  {
    if i == 0 then 0 else Wraps(seqs, i - 1) + (if seqs[i] < seqs[i - 1] - 50 then 1 else 0)
  }

  /** The `new_seq` column: `MAX_SEQ * count + seq` row by row. */
  function Unwrapped(seqs: seq<int>, maxSeq: int): (r: seq<int>)
    ensures |r| == |seqs|
  {
    seq(|seqs|, i requires 0 <= i < |seqs| => maxSeq * Wraps(seqs, i) + seqs[i])
  }

  /** `replace_seq`: the counter loop over the rows (row 0 is taken as it is). */
  method ReplaceSeq(seqs: seq<int>, maxSeq: int) returns (newSeq: seq<int>)
    requires |seqs| >= 1
    ensures newSeq == Unwrapped(seqs, maxSeq)
  {
    var count := 0;
    newSeq := [seqs[0]];
    var idx := 1;
    while idx < |seqs|
      invariant 1 <= idx <= |seqs|
      invariant count == Wraps(seqs, idx - 1)
      invariant newSeq == Unwrapped(seqs, maxSeq)[..idx]
    {
      if seqs[idx] < seqs[idx - 1] - 50 {
        count := count + 1;
      }
      newSeq := newSeq + [maxSeq * count + seqs[idx]];
      idx := idx + 1;
    }
  }

  /** The counter never goes down. */
  lemma {:induction false} WrapsMonotonic(seqs: seq<int>, i: nat, j: nat)
    requires i <= j < |seqs|
    ensures Wraps(seqs, i) <= Wraps(seqs, j)
    decreases j
  {
    if i < j {
      WrapsMonotonic(seqs, i, j - 1);
    }
  }

  /**
   * One row to the next of a counter read modulo m: when it advances by at most m - 51, the
   * residue drops by more than 50 exactly when the counter passes a multiple of m.
   */
  lemma WrapStep(prev: int, next: int, m: int)
    requires m > 50 && prev >= 0 && 0 <= next - prev <= m - 51
    ensures next / m == prev / m || next / m == prev / m + 1
    ensures next % m < prev % m - 50 <==> next / m == prev / m + 1
  {
    var q, r := prev / m, prev % m;
    var d := next - prev;
    assert prev == q * m + r;
    if r + d < m {
      ModUnique(next, m, q, r + d);
    } else {
      assert next == (q + 1) * m + (r + d - m);
      ModUnique(next, m, q + 1, r + d - m);
    }
  }

  /**
   * `replace_seq` recovers the true counter: if the logged numbers are a non-decreasing counter
   * `t` (starting below m) taken modulo m, advancing at most m - 51 per row, then
   * `new_seq` is `t` itself.
   */
  lemma UnwrapRecoversCounter(t: seq<int>, seqs: seq<int>, m: int)
    requires |t| == |seqs| >= 1 && m > 50 && 0 <= t[0] < m
    requires forall i :: 0 <= i < |t| ==> seqs[i] == t[i] % m
    requires forall i :: 1 <= i < |t| ==> 0 <= t[i] - t[i - 1] <= m - 51
    ensures Unwrapped(seqs, m) == t
  {
    forall i | 0 <= i < |t|
      ensures Unwrapped(seqs, m)[i] == t[i]
    {
      WrapsCountTurns(t, seqs, m, i);
      DivMod(t[i], m);
    }
  }

  lemma {:induction false} WrapsCountTurns(t: seq<int>, seqs: seq<int>, m: int, i: nat)
    requires |t| == |seqs| >= 1 && m > 50 && 0 <= t[0] < m
    requires forall i :: 0 <= i < |t| ==> seqs[i] == t[i] % m
    requires forall i :: 1 <= i < |t| ==> 0 <= t[i] - t[i - 1] <= m - 51
    requires i < |t|
    ensures t[i] >= 0 && Wraps(seqs, i) == t[i] / m
  {
    if i == 0 {
      ModUnique(t[0], m, 0, t[0]);
    } else {
      WrapsCountTurns(t, seqs, m, i - 1);
      WrapStep(t[i - 1], t[i], m);
    }
  }

  // ---------------------------------------------------------------------------
  // compute_ber
  // ---------------------------------------------------------------------------

  /** A row of the log once read: its `seq` and its `payload` column parsed. */
  datatype LoggedFrame = LoggedFrame(sequence: int, payload: seq<nat>)

  /** The first loop's state: the `bit_error_tmp` list of every slot, and `last_pseudoseq`. */
  datatype Tally = Tally(slots: seq<seq<nat>>, lastPseudoseq: int)

  /** What `compute_ber` returns besides the transmitted file: the error count, `file_size` and the per-slot errors. */
  datatype BerResult = BerResult(counter: nat, fileSize: nat, bitError: seq<nat>)

  /** The file frames the script compares against, each at least `PACKET_LEN` values long. */
  predicate FileFrames(file: map<int, seq<nat>>, packetLen: nat)
  {
    forall k :: k in file ==> |file[k]| >= packetLen
  }

  /** `pseudoseq`: the payload's first two values as a big-endian index, or the previous one plus `PACKET_LEN` if the file has no such frame. */
  function PseudoSeq(payload: seq<nat>, last: int, file: map<int, seq<nat>>, packetLen: nat): int
    requires |payload| >= 2
  {
    var read := payload[0] * 256 + payload[1];
    if read in file then read else last + packetLen
  }

  /**
   * One row of the first loop: rows outside the slot range are skipped; otherwise the bit errors
   * of the payload after the index against the file frame at `pseudoseq` join the row's slot.
   * None where Python raises: a payload of fewer than two values, a `pseudoseq` the file lacks,
   * or nothing to compare (only the two index values, or a `PACKET_LEN` of 0).
   */
  function TallyStep(t: Tally, f: LoggedFrame, first: int, file: map<int, seq<nat>>, packetLen: nat): (r: Option<Tally>)
    requires FileFrames(file, packetLen)
    ensures r.Some? ==> |r.value.slots| == |t.slots|
    ensures 0 <= f.sequence - first < |t.slots| && (|f.payload| <= 2 || packetLen == 0) ==> r.None?
    ensures !(0 <= f.sequence - first < |t.slots|) ==> r == Some(t)
  {
    var k := f.sequence - first;
    if !(0 <= k < |t.slots|) then Some(t)
    else if |f.payload| < 2 then None
    else
      var p := PseudoSeq(f.payload, t.lastPseudoseq, file, packetLen);
      if p !in file || Min(|f.payload| - 2, packetLen) == 0 then None
      else Some(Tally(t.slots[k := t.slots[k] + [BitErrors(f.payload[2..], file[p], packetLen)]], p))
  }

  /** The first loop over the first n rows. */
  function TallyUpTo(frames: seq<LoggedFrame>, n: nat, first: int, file: map<int, seq<nat>>, packetLen: nat, init: Tally): (r: Option<Tally>)
    requires n <= |frames| && FileFrames(file, packetLen)
    ensures r.Some? ==> |r.value.slots| == |init.slots|
  {
    if n == 0 then Some(init)
    else
      match TallyUpTo(frames, n - 1, first, file, packetLen, init)
      case None => None
      case Some(t) => TallyStep(t, frames[n - 1], first, file, packetLen)
  }

  /** The smallest of a non-empty list (`min(l)`). */
  function MinOf(xs: seq<nat>): (m: nat)
    requires xs != []
    ensures m in xs && forall x :: x in xs ==> m <= x
  {
    if |xs| == 1 then xs[0]
    else
      var rest := MinOf(xs[1..]);
      assert forall x :: x in xs ==> x == xs[0] || x in xs[1..];
      if xs[0] <= rest then xs[0] else rest
  }

  /** A slot's bit errors: the whole packet if it was never received, else its best reception. */
  function SlotError(errors: seq<nat>, packetLen: nat): (e: nat)
    ensures errors == [] ==> e == 8 * packetLen
    ensures errors != [] ==> e in errors && forall x :: x in errors ==> e <= x
  {
    if errors == [] then 8 * packetLen else MinOf(errors)
  }

  /** The error counter over the first slots. */
  function TotalErrors(slots: seq<seq<nat>>, packetLen: nat): nat
  {
    if slots == [] then 0 else TotalErrors(slots[..|slots| - 1], packetLen) + SlotError(slots[|slots| - 1], packetLen)
  }

  /** The number of slots `range(seq[0], seq[last] + 1)` holds. */
  function SlotCount(frames: seq<LoggedFrame>): nat
    requires |frames| >= 1
  {
    Max(0, frames[|frames| - 1].sequence + 1 - frames[0].sequence)
  }

  /** The first loop's starting state: n empty slots. */
  function EmptyTally(n: nat): (t: Tally)
  {
    Tally(seq(n, _ => []), 0)
  }

  /** The `bit_error` column: every slot's error count. */
  function SlotErrors(slots: seq<seq<nat>>, packetLen: nat): (r: seq<nat>)
    ensures |r| == |slots|
  {
    seq(|slots|, k requires 0 <= k < |slots| => SlotError(slots[k], packetLen))
  }

  /** `file_size`: a packet's bits for every slot. */
  function FileSize(slotCount: nat, packetLen: nat): nat
  {
    slotCount * packetLen * 8
  }

  /** What `compute_ber` computes; None where it raises, including the division by a zero `file_size`. */
  function Ber(frames: seq<LoggedFrame>, file: map<int, seq<nat>>, packetLen: nat): Option<BerResult>
    requires |frames| >= 1 && FileFrames(file, packetLen)
  {
    var n := SlotCount(frames);
    match TallyUpTo(frames, |frames|, frames[0].sequence, file, packetLen, EmptyTally(n))
    case None => None
    case Some(t) =>
      if FileSize(n, packetLen) == 0 then None
      else Some(BerResult(TotalErrors(t.slots, packetLen), FileSize(n, packetLen), SlotErrors(t.slots, packetLen)))
  }

  /**
   * A row in the slot range with nothing to compare after its index makes the whole computation
   * raise, whatever the rows before and after it hold.
   */
  lemma ShortRowRaises(frames: seq<LoggedFrame>, file: map<int, seq<nat>>, packetLen: nat, i: nat)
    requires |frames| >= 1 && FileFrames(file, packetLen) && i < |frames|
    requires 0 <= frames[i].sequence - frames[0].sequence < SlotCount(frames)
    requires |frames[i].payload| <= 2 || packetLen == 0
    ensures Ber(frames, file, packetLen) == None
  {
    var first := frames[0].sequence;
    var init := EmptyTally(SlotCount(frames));
    var prev := TallyUpTo(frames, i, first, file, packetLen, init);
    if prev.Some? {
      assert TallyUpTo(frames, i + 1, first, file, packetLen, init) == TallyStep(prev.value, frames[i], first, file, packetLen);
    } else {
      TallyStaysFailed(frames, i, i + 1, first, file, packetLen, init);
    }
    TallyStaysFailed(frames, i + 1, |frames|, first, file, packetLen, init);
  }

  /** Once the first loop has raised, it stays raised. */
  lemma {:induction false} TallyStaysFailed(frames: seq<LoggedFrame>, i: nat, n: nat, first: int, file: map<int, seq<nat>>, packetLen: nat, init: Tally)
    requires i <= n <= |frames| && FileFrames(file, packetLen)
    requires TallyUpTo(frames, i, first, file, packetLen, init).None?
    ensures TallyUpTo(frames, n, first, file, packetLen, init).None?
    decreases n
  {
    if i < n {
      TallyStaysFailed(frames, i, n - 1, first, file, packetLen, init);
    }
  }

  /** The first loop of `compute_ber`: files each row's bit errors under its slot. */
  method TallyRows(frames: seq<LoggedFrame>, first: int, n: nat, file: map<int, seq<nat>>, packetLen: nat) returns (r: Option<Tally>)
    requires FileFrames(file, packetLen)
    ensures r == TallyUpTo(frames, |frames|, first, file, packetLen, EmptyTally(n))
  {
    var slots: seq<seq<nat>> := seq(n, _ => []);
    var last := 0;
    var idx := 0;
    while idx < |frames|
      invariant 0 <= idx <= |frames|
      invariant TallyUpTo(frames, idx, first, file, packetLen, EmptyTally(n)) == Some(Tally(slots, last))
    {
      var f := frames[idx];
      var k := f.sequence - first;
      if 0 <= k < |slots| {
        if |f.payload| < 2 {
          TallyStaysFailed(frames, idx + 1, |frames|, first, file, packetLen, EmptyTally(n));
          return None;
        }
        var p := PseudoSeq(f.payload, last, file, packetLen);
        if p !in file || Min(|f.payload| - 2, packetLen) == 0 {
          TallyStaysFailed(frames, idx + 1, |frames|, first, file, packetLen, EmptyTally(n));
          return None;
        }
        slots := slots[k := slots[k] + [BitErrors(f.payload[2..], file[p], packetLen)]];
        last := p;
      }
      idx := idx + 1;
    }
    r := Some(Tally(slots, last));
  }

  /** The second loop of `compute_ber`: every slot's error count, and their sum. */
  method SumSlots(slots: seq<seq<nat>>, packetLen: nat) returns (counter: nat, bitError: seq<nat>)
    ensures counter == TotalErrors(slots, packetLen) && bitError == SlotErrors(slots, packetLen)
  {
    counter := 0;
    bitError := [];
    var j := 0;
    while j < |slots|
      invariant 0 <= j <= |slots|
      invariant counter == TotalErrors(slots[..j], packetLen)
      invariant bitError == SlotErrors(slots[..j], packetLen)
    {
      var tmp := if slots[j] == [] then 8 * packetLen else MinOf(slots[j]);
      counter := counter + tmp;
      bitError := bitError + [tmp];
      j := j + 1;
      assert slots[..j][..j - 1] == slots[..j - 1];
    }
    assert slots[..j] == slots;
  }

  /**
   * `compute_ber`: the first loop files each row's bit errors under its slot, the second turns
   * every slot into its error count and sums them; `file_size` counts every slot's packet bits.
   */
  method ComputeBer(frames: seq<LoggedFrame>, file: map<int, seq<nat>>, packetLen: nat) returns (outcome: Option<BerResult>)
    requires |frames| >= 1 && FileFrames(file, packetLen)
    ensures outcome == Ber(frames, file, packetLen)
  {
    var first := frames[0].sequence;
    var n := Max(0, frames[|frames| - 1].sequence + 1 - first);
    var tally := TallyRows(frames, first, n, file, packetLen);
    if tally.None? {
      return None;
    }
    var counter, bitError := SumSlots(tally.value.slots, packetLen);
    var fileSize := FileSize(n, packetLen);
    if fileSize == 0 {
      return None;
    }
    outcome := Some(BerResult(counter, fileSize, bitError));
  }

  /** Values that fit a byte, as the log and the file hold. */
  predicate Bytes(xs: seq<nat>)
  {
    forall i :: 0 <= i < |xs| ==> xs[i] < 256
  }

  /** No reception in any slot counts more than a packet's bits. */
  predicate SlotsBounded(slots: seq<seq<nat>>, packetLen: nat)
  {
    forall k :: 0 <= k < |slots| ==> SlotBounded(slots[k], packetLen)
  }

  predicate SlotBounded(errors: seq<nat>, packetLen: nat)
  {
    forall j :: 0 <= j < |errors| ==> errors[j] <= 8 * packetLen
  }

  lemma TallyStepBounded(t: Tally, f: LoggedFrame, first: int, file: map<int, seq<nat>>, packetLen: nat)
    requires FileFrames(file, packetLen) && SlotsBounded(t.slots, packetLen)
    requires Bytes(f.payload) && forall k :: k in file ==> Bytes(file[k])
    ensures TallyStep(t, f, first, file, packetLen).Some? ==> SlotsBounded(TallyStep(t, f, first, file, packetLen).value.slots, packetLen)
  {
    var k := f.sequence - first;
    if 0 <= k < |t.slots| && |f.payload| >= 2 {
      var p := PseudoSeq(f.payload, t.lastPseudoseq, file, packetLen);
      if p in file && Min(|f.payload| - 2, packetLen) > 0 {
        BitErrorsBound(f.payload[2..], file[p], packetLen);
      }
    }
  }

  /** With byte payloads and a byte file, the first loop files no count above a packet's bits. */
  lemma {:induction false} TallyBounded(frames: seq<LoggedFrame>, n: nat, first: int, file: map<int, seq<nat>>, packetLen: nat, init: Tally)
    requires n <= |frames| && FileFrames(file, packetLen) && SlotsBounded(init.slots, packetLen)
    requires forall i :: 0 <= i < |frames| ==> Bytes(frames[i].payload)
    requires forall k :: k in file ==> Bytes(file[k])
    ensures TallyUpTo(frames, n, first, file, packetLen, init).Some? ==>
              SlotsBounded(TallyUpTo(frames, n, first, file, packetLen, init).value.slots, packetLen)
  {
    if n > 0 {
      TallyBounded(frames, n - 1, first, file, packetLen, init);
      var prev := TallyUpTo(frames, n - 1, first, file, packetLen, init);
      if prev.Some? {
        TallyStepBounded(prev.value, frames[n - 1], first, file, packetLen);
      }
    }
  }

  lemma SlotErrorBound(errors: seq<nat>, packetLen: nat)
    requires SlotBounded(errors, packetLen)
    ensures SlotError(errors, packetLen) <= 8 * packetLen
  {
    if errors != [] {
      var e := SlotError(errors, packetLen);
      var j :| 0 <= j < |errors| && errors[j] == e;
    }
  }

  /** The counter is at most a packet's bits per slot. */
  lemma {:induction false} TotalErrorsBound(slots: seq<seq<nat>>, packetLen: nat)
    requires SlotsBounded(slots, packetLen)
    ensures TotalErrors(slots, packetLen) <= |slots| * (8 * packetLen)
  {
    if slots != [] {
      var k := |slots| - 1;
      var b := 8 * packetLen;
      assert forall i :: 0 <= i < k ==> slots[..k][i] == slots[i];
      TotalErrorsBound(slots[..k], packetLen);
      SlotErrorBound(slots[k], packetLen);
      assert TotalErrors(slots, packetLen) == TotalErrors(slots[..k], packetLen) + SlotError(slots[k], packetLen);
      MulSucc(k, b);
    }
  }

  lemma FileSizeBits(n: nat, packetLen: nat)
    ensures FileSize(n, packetLen) == n * (8 * packetLen)
  {
  }
  /**
   * The bit error rate `counter / file_size` is a fraction: with byte payloads and a byte file
   * the counter never exceeds `file_size`.
   */
  lemma BerAtMostOne(frames: seq<LoggedFrame>, file: map<int, seq<nat>>, packetLen: nat)
    requires |frames| >= 1 && FileFrames(file, packetLen)
    requires forall i :: 0 <= i < |frames| ==> Bytes(frames[i].payload)
    requires forall k :: k in file ==> Bytes(file[k])
    ensures Ber(frames, file, packetLen).Some? ==>
              Ber(frames, file, packetLen).value.counter <= Ber(frames, file, packetLen).value.fileSize
  {
    var n := SlotCount(frames);
    var init := EmptyTally(n);
    assert SlotsBounded(init.slots, packetLen);
    TallyBounded(frames, |frames|, frames[0].sequence, file, packetLen, init);
    var t := TallyUpTo(frames, |frames|, frames[0].sequence, file, packetLen, init);
    if t.Some? && FileSize(n, packetLen) != 0 {
      var slots := t.value.slots;
      assert Ber(frames, file, packetLen) == Some(BerResult(TotalErrors(slots, packetLen), FileSize(n, packetLen), SlotErrors(slots, packetLen)));
      TotalErrorsBound(slots, packetLen);
      FileSizeBits(n, packetLen);
    }
  }
  /** The counter is zero exactly when every slot holds an error-free reception. */
  lemma {:induction false} TotalErrorsZero(slots: seq<seq<nat>>, packetLen: nat)
    requires packetLen > 0
    ensures TotalErrors(slots, packetLen) == 0 <==> forall k :: 0 <= k < |slots| ==> 0 in slots[k]
  {
    if slots != [] {
      var k := |slots| - 1;
      TotalErrorsZero(slots[..k], packetLen);
      assert forall i :: 0 <= i < k ==> slots[..k][i] == slots[i];
    }
  }
}
