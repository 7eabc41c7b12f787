/**
 The icon encoder of the distributed bundle service, compared with section 4 of RFC 4648.

 `Rfc` and `Decode` are the reference: they speak of the 24-bit group that three
 bytes form and of its four sextets.  `EncodeBase64` is the array loop of the service,
 with its own bit expressions and its own loop bound, on 32-bit machine integers.
 */
module Base64 {
  import opened Wrappers

  newtype int32 = x: int | -0x8000_0000 <= x < 0x8000_0000
  newtype int64 = x: int | -0x8000_0000_0000_0000 <= x < 0x8000_0000_0000_0000

  // ---------------------------------------------------------------------------
  // Reference: section 4 of RFC 4648
  // ---------------------------------------------------------------------------

  /** Table 1 of RFC 4648. */
  function Char64(v: bv8): (c: char)
    requires v < 64
  {
    var i := v as int;
    if i < 26 then 'A' + i as char
    else if i < 52 then 'a' + (i - 26) as char
    else if i < 62 then '0' + (i - 52) as char
    else if i == 62 then '+' else '/'
  }

  /** Table 1 read backwards; `None` outside the alphabet. */
  ghost function Value64(c: char): (v: Option<bv8>)
    ensures v.Some? ==> v.value < 64 && Char64(v.value) == c
  {
    if exists v: bv8 :: v < 64 && Char64(v) == c then
      var v: bv8 :| v < 64 && Char64(v) == c;
      Some(v)
    else None
  }

  /** Three octets concatenated into a 24-bit group. */
  function Group(b0: bv8, b1: bv8, b2: bv8): bv24 {
    ((b0 as bv24) << 16) | ((b1 as bv24) << 8) | (b2 as bv24)
  }

  function Sextet(g: bv24, k: int): (v: bv8)
    requires 0 <= k < 4
    ensures v < 64
  {
    if k == 0 then ((g >> 18) & 63) as bv8
    else if k == 1 then ((g >> 12) & 63) as bv8
    else if k == 2 then ((g >> 6) & 63) as bv8
    else (g & 63) as bv8
  }

  function Digit(g: bv24, k: int): char
    requires 0 <= k < 4
  {
    Char64(Sextet(g, k))
  }

  /** The encoding of a byte string: full groups, then the one- or two-byte tail with padding. */
  function Rfc(s: seq<bv8>): (t: string)
    ensures |t| == (|s| + 2) / 3 * 4
    decreases |s|
  {
    if |s| == 0 then []
    else if |s| == 1 then
      var g := Group(s[0], 0, 0);
      [Digit(g, 0), Digit(g, 1), '=', '=']
    else if |s| == 2 then
      var g := Group(s[0], s[1], 0);
      [Digit(g, 0), Digit(g, 1), Digit(g, 2), '=']
    else
      var g := Group(s[0], s[1], s[2]);
      [Digit(g, 0), Digit(g, 1), Digit(g, 2), Digit(g, 3)] + Rfc(s[3..])
  }

  /** The 24-bit group that four sextets form, and its octets. */
  function Join(v0: bv8, v1: bv8, v2: bv8, v3: bv8): bv24 {
    ((v0 as bv24) << 18) | ((v1 as bv24) << 12) | ((v2 as bv24) << 6) | (v3 as bv24)
  }

  function Octet(g: bv24, k: int): bv8
    requires 0 <= k < 3
  {
    if k == 0 then ((g >> 16) & 255) as bv8
    else if k == 1 then ((g >> 8) & 255) as bv8
    else (g & 255) as bv8
  }

  /** The strict decoder: padding only at the end, and pad bits must be zero. */
  ghost function Decode(t: string): (r: Option<seq<bv8>>)
    decreases |t|
  {
    if |t| == 0 then Some([])
    else if |t| < 4 then None
    else
      var q0, q1 := Value64(t[0]), Value64(t[1]);
      var q2, q3 := Value64(t[2]), Value64(t[3]);
      if q0.None? || q1.None? then None
      else if t[3] == '=' && t[2] == '=' then
        var g := Join(q0.value, q1.value, 0, 0);
        if |t| == 4 && g & 0xFFFF == 0 then Some([Octet(g, 0)]) else None
      else if q2.None? then None
      else if t[3] == '=' then
        var g := Join(q0.value, q1.value, q2.value, 0);
        if |t| == 4 && g & 0xFF == 0 then Some([Octet(g, 0), Octet(g, 1)]) else None
      else if q3.None? then None
      else
        var g := Join(q0.value, q1.value, q2.value, q3.value);
        var rest := Decode(t[4..]);
        if rest.None? then None
        else Some([Octet(g, 0), Octet(g, 1), Octet(g, 2)] + rest.value)
  }

  lemma ValueOfChar(v: bv8)
    requires v < 64
    ensures Value64(Char64(v)) == Some(v) && Char64(v) != '=' && Char64(v) != '\0'
  {}

  lemma JoinSextets(g: bv24)
    ensures Join(Sextet(g, 0), Sextet(g, 1), Sextet(g, 2), Sextet(g, 3)) == g
  {}

  lemma SextetsOfJoin(v0: bv8, v1: bv8, v2: bv8, v3: bv8)
    requires v0 < 64 && v1 < 64 && v2 < 64 && v3 < 64
    ensures var g := Join(v0, v1, v2, v3);
            Sextet(g, 0) == v0 && Sextet(g, 1) == v1 && Sextet(g, 2) == v2 && Sextet(g, 3) == v3
  {}

  lemma OctetsOfGroup(b0: bv8, b1: bv8, b2: bv8)
    ensures var g := Group(b0, b1, b2);
            Octet(g, 0) == b0 && Octet(g, 1) == b1 && Octet(g, 2) == b2
    ensures Sextet(Group(b0, b1, 0), 3) == 0
    ensures Sextet(Group(b0, 0, 0), 2) == 0 && Sextet(Group(b0, 0, 0), 3) == 0
    ensures Group(b0, b1, 0) & 0xFF == 0 && Group(b0, 0, 0) & 0xFFFF == 0
  {}

  lemma GroupOfOctets(g: bv24)
    ensures Group(Octet(g, 0), Octet(g, 1), Octet(g, 2)) == g
    ensures g & 0xFF == 0 ==> Octet(g, 2) == 0
    ensures g & 0xFFFF == 0 ==> Octet(g, 1) == 0 && Octet(g, 2) == 0
  {}

  lemma DigitValues(g: bv24)
    ensures forall k | 0 <= k < 4 :: Value64(Digit(g, k)) == Some(Sextet(g, k)) && Digit(g, k) != '=' && Digit(g, k) != '\0'
  {
    forall k | 0 <= k < 4
      ensures Value64(Digit(g, k)) == Some(Sextet(g, k)) && Digit(g, k) != '=' && Digit(g, k) != '\0'
    {
      ValueOfChar(Sextet(g, k));
    }
  }

  /** One unpadded quantum in front of anything decodes to its three octets in front of the rest. */
  lemma DecodeQuantum(b0: bv8, b1: bv8, b2: bv8, rest: string)
    ensures var g := Group(b0, b1, b2);
            var t := [Digit(g, 0), Digit(g, 1), Digit(g, 2), Digit(g, 3)] + rest;
            Decode(t) == if Decode(rest).None? then None else Some([b0, b1, b2] + Decode(rest).value)
  {
    var g := Group(b0, b1, b2);
    var t := [Digit(g, 0), Digit(g, 1), Digit(g, 2), Digit(g, 3)] + rest;
    DigitValues(g);
    JoinSextets(g);
    OctetsOfGroup(b0, b1, b2);
    assert t[4..] == rest;
  }

  lemma DecodeTail(b0: bv8, b1: bv8)
    ensures Decode(Rfc([b0])) == Some([b0])
    ensures Decode(Rfc([b0, b1])) == Some([b0, b1])
  {
    DigitValues(Group(b0, 0, 0));
    DigitValues(Group(b0, b1, 0));
    JoinSextets(Group(b0, 0, 0));
    JoinSextets(Group(b0, b1, 0));
    OctetsOfGroup(b0, b1, 0);
    OctetsOfGroup(b0, 0, 0);
  }

  /** Decoding inverts the RFC encoding on every byte string. */
  lemma {:induction false} DecodeInvertsRfc(s: seq<bv8>)
    ensures Decode(Rfc(s)) == Some(s)
    decreases |s|
  {
    hide Char64, Group, Sextet, Octet, Join, Value64, Digit;
    if |s| == 0 {
    } else if |s| < 3 {
      DecodeTail(s[0], if |s| > 1 then s[1] else 0);
      assert s == if |s| == 1 then [s[0]] else [s[0], s[1]];
    } else {
      DecodeInvertsRfc(s[3..]);
      DecodeQuantum(s[0], s[1], s[2], Rfc(s[3..]));
      assert s == [s[0], s[1], s[2]] + s[3..];
    }
  }

  /** What a quantum without padding decodes to has that quantum as its encoding. */
  lemma RfcOfQuantum(v0: bv8, v1: bv8, v2: bv8, v3: bv8, rest: seq<bv8>)
    requires v0 < 64 && v1 < 64 && v2 < 64 && v3 < 64
    ensures var g := Join(v0, v1, v2, v3);
            Rfc([Octet(g, 0), Octet(g, 1), Octet(g, 2)] + rest)
              == [Char64(v0), Char64(v1), Char64(v2), Char64(v3)] + Rfc(rest)
  {
    var g := Join(v0, v1, v2, v3);
    SextetsOfJoin(v0, v1, v2, v3);
    GroupOfOctets(g);
    assert ([Octet(g, 0), Octet(g, 1), Octet(g, 2)] + rest)[3..] == rest;
  }

  lemma RfcOfTail(v0: bv8, v1: bv8, v2: bv8)
    requires v0 < 64 && v1 < 64 && v2 < 64
    ensures var g := Join(v0, v1, 0, 0);
            g & 0xFFFF == 0 ==> Rfc([Octet(g, 0)]) == [Char64(v0), Char64(v1), '=', '=']
    ensures var g := Join(v0, v1, v2, 0);
            g & 0xFF == 0 ==> Rfc([Octet(g, 0), Octet(g, 1)]) == [Char64(v0), Char64(v1), Char64(v2), '=']
  {
    SextetsOfJoin(v0, v1, 0, 0);
    SextetsOfJoin(v0, v1, v2, 0);
    GroupOfOctets(Join(v0, v1, 0, 0));
    GroupOfOctets(Join(v0, v1, v2, 0));
  }

  /** ... and the strict decoder accepts nothing but RFC encodings. */
  lemma {:induction false} RfcInvertsDecode(t: string)
    requires Decode(t).Some?
    ensures Rfc(Decode(t).value) == t
    decreases |t|
  {
    hide Char64, Group, Sextet, Octet, Join, Digit;
    if |t| != 0 {
      var q0, q1 := Value64(t[0]).value, Value64(t[1]).value;
      if t[3] == '=' {
        RfcOfTail(q0, q1, if t[2] == '=' then 0 else Value64(t[2]).value);
      } else {
        RfcInvertsDecode(t[4..]);
        RfcOfQuantum(q0, q1, Value64(t[2]).value, Value64(t[3]).value, Decode(t[4..]).value);
        assert t == [t[0], t[1], t[2], t[3]] + t[4..];
      }
    }
  }

  /** The four characters of a full group. */
  function Quantum(b0: bv8, b1: bv8, b2: bv8): string {
    var g := Group(b0, b1, b2);
    [Digit(g, 0), Digit(g, 1), Digit(g, 2), Digit(g, 3)]
  }

  lemma RfcStep(b0: bv8, b1: bv8, b2: bv8, rest: seq<bv8>)
    ensures Rfc([b0, b1, b2] + rest) == Quantum(b0, b1, b2) + Rfc(rest)
  {
    hide Char64, Group, Sextet, Digit;
    assert ([b0, b1, b2] + rest)[3..] == rest;
  }

  /** Full groups encode independently of what follows them. */
  lemma {:induction false} RfcConcat(s: seq<bv8>, t: seq<bv8>)
    requires |s| % 3 == 0
    ensures Rfc(s + t) == Rfc(s) + Rfc(t)
    decreases |s|
  {
    hide Char64, Group, Sextet, Digit, Quantum;
    if |s| == 0 {
      assert s + t == t;
    } else {
      hide Rfc;
      assert |s| >= 3;
      var head, rest := [s[0], s[1], s[2]], s[3..];
      calc {
        Rfc(s + t);
        { assert s + t == head + (rest + t); }
        Rfc(head + (rest + t));
        { RfcStep(s[0], s[1], s[2], rest + t); }
        Quantum(s[0], s[1], s[2]) + Rfc(rest + t);
        { RfcConcat(rest, t); }
        Quantum(s[0], s[1], s[2]) + (Rfc(rest) + Rfc(t));
        Quantum(s[0], s[1], s[2]) + Rfc(rest) + Rfc(t);
        { RfcStep(s[0], s[1], s[2], rest); assert s == head + rest; }
        Rfc(s) + Rfc(t);
      }
    }
  }

  lemma {:induction false} RfcHasNoNul(s: seq<bv8>)
    ensures '\0' !in Rfc(s)
    decreases |s|
  {
    if |s| > 0 {
      DigitValues(Group(s[0], if |s| > 1 then s[1] else 0, if |s| > 2 then s[2] else 0));
      if |s| >= 3 {
        RfcHasNoNul(s[3..]);
      }
    }
  }

  // ---------------------------------------------------------------------------
  // The encoder of the service
  // ---------------------------------------------------------------------------

  const ROW0 := "ABCDEFGHIJKLM"
  const ROW1 := "NOPQRSTUVWXYZ"
  const ROW2 := "abcdefghijklm"
  const ROW3 := "nopqrstuvwxyz"
  const ROW4 := "0123456789+/"
  const DECODE_TABLE: string := ROW0 + ROW1 + ROW2 + ROW3 + ROW4

  lemma RowIsConsecutive(row: string, c: char)
    requires (row == ROW0 && c == 'A') || (row == ROW1 && c == 'N') || (row == ROW2 && c == 'a') || (row == ROW3 && c == 'n')
    ensures |row| == 13 && forall i | 0 <= i < 13 :: row[i] == c + i as char
  {}

  lemma TableIsAlphabet(v: bv8)
    requires v < 64
    ensures |DECODE_TABLE| == 64 && DECODE_TABLE[v as int] == Char64(v)
  {
    RowIsConsecutive(ROW0, 'A');
    RowIsConsecutive(ROW1, 'N');
    RowIsConsecutive(ROW2, 'a');
    RowIsConsecutive(ROW3, 'n');
  }

  function TableAt(v: bv8): (c: char)
    requires v < 64
    ensures c == Char64(v)
  {
    TableIsAlphabet(v);
    DECODE_TABLE[v as int]
  }

  // The table indices the encoder computes, in its own bit expressions.

  function Index0(byte1: bv8): (v: bv8)
    ensures v < 64
  {
    byte1 >> 2
  }

  function Index1(byte1: bv8, byte2: bv8): (v: bv8)
    ensures v < 64
  {
    ((byte1 & 3) << 4) | (byte2 >> 4)
  }

  function Index2(byte2: bv8, byte3: bv8): (v: bv8)
    ensures v < 64
  {
    ((byte2 & 15) << 2) | (byte3 >> 6)
  }

  function Index3(byte3: bv8): (v: bv8)
    ensures v < 64
  {
    byte3 & 63
  }

  function LastIndex1(byte1: bv8): (v: bv8)
    ensures v < 64
  {
    (byte1 & 3) << 4
  }

  function LastIndex2(byte2: bv8): (v: bv8)
    ensures v < 64
  {
    (byte2 & 15) << 2
  }

  /** Each index is a sextet of the group its bytes form. */
  lemma IndicesAreSextets(b0: bv8, b1: bv8, b2: bv8)
    ensures var g := Group(b0, b1, b2);
            Index0(b0) == Sextet(g, 0) && Index1(b0, b1) == Sextet(g, 1) && Index2(b1, b2) == Sextet(g, 2) && Index3(b2) == Sextet(g, 3)
  {}

  /** Towards the end the missing bytes count as zero. */
  lemma LastIndicesAreSextets(b0: bv8, b1: bv8)
    ensures LastIndex1(b0) == Sextet(Group(b0, 0, 0), 1)
    ensures LastIndex2(b1) == Sextet(Group(b0, b1, 0), 2)
  {}

  /** The four characters a round writes, and those of the two ways to finish. */
  lemma WrittenDigits(b0: bv8, b1: bv8, b2: bv8)
    ensures [TableAt(Index0(b0)), TableAt(Index1(b0, b1)), TableAt(Index2(b1, b2)), TableAt(Index3(b2))] == Quantum(b0, b1, b2)
    ensures [TableAt(Index0(b0)), TableAt(LastIndex1(b0)), '=', '='] == Rfc([b0])
    ensures [TableAt(Index0(b0)), TableAt(Index1(b0, b1)), TableAt(LastIndex2(b1)), '='] == Rfc([b0, b1])
  {
    IndicesAreSextets(b0, b1, b2);
    IndicesAreSextets(b0, b1, 0);
    IndicesAreSextets(b0, 0, 0);
    LastIndicesAreSextets(b0, b1);
    hide Char64, Group, Sextet, TableAt, Index0, Index1, Index2, Index3, LastIndex1, LastIndex2;
  }

  /** What one round of the encoder writes extends the encoding of the bytes read so far. */
  lemma RoundExtendsRfc(s: seq<bv8>, b0: bv8, b1: bv8, b2: bv8)
    requires |s| % 3 == 0
    ensures Rfc(s + [b0, b1, b2])
         == Rfc(s) + [TableAt(Index0(b0)), TableAt(Index1(b0, b1)), TableAt(Index2(b1, b2)), TableAt(Index3(b2))]
  {
    RfcOfNothing();
    WrittenDigits(b0, b1, b2);
    hide Rfc, Quantum, TableAt, Index0, Index1, Index2, Index3;
    RfcConcat(s, [b0, b1, b2]);
    RfcStep(b0, b1, b2, []);
    assert [b0, b1, b2] + [] == [b0, b1, b2];
  }

  lemma RfcOfNothing()
    ensures Rfc([]) == []
  {}

  /** The same for the two ways the encoder finishes. */
  lemma TailExtendsRfc(s: seq<bv8>, b0: bv8, b1: bv8)
    requires |s| % 3 == 0
    ensures Rfc(s + [b0]) == Rfc(s) + [TableAt(Index0(b0)), TableAt(LastIndex1(b0)), '=', '=']
    ensures Rfc(s + [b0, b1])
         == Rfc(s) + [TableAt(Index0(b0)), TableAt(Index1(b0, b1)), TableAt(LastIndex2(b1)), '=']
  {
    WrittenDigits(b0, b1, 0);
    hide Rfc, TableAt, Index0, Index1, LastIndex1, LastIndex2;
    RfcConcat(s, [b0]);
    RfcConcat(s, [b0, b1]);
  }

  function OutLength(n: int): (m: int)
    requires n >= 0
  {
    n / 3 * 4 + if n % 3 != 0 then 4 else 0
  }

  /** How many leading bytes of an n-byte input the output stands for. */
  function Covered(n: int): int
    requires n > 0
  {
    if n % 3 == 0 then n - 1 else n
  }

  /** The four consecutive stores of one round. */
  method Emit(dst: array<char>, j: int32, c0: char, c1: char, c2: char, c3: char)
    requires 0 <= j && j as int + 4 <= dst.Length
    requires j as int + 4 < 0x8000_0000
    modifies dst
    ensures dst[..j + 4] == old(dst[..j]) + [c0, c1, c2, c3]
  {
    dst[j] := c0;
    dst[j + 1] := c1;
    dst[j + 2] := c2;
    dst[j + 3] := c3;
  }

  /** One round of the loop: three bytes become four characters. */
  method EncodeRound(data: array<bv8>, dst: array<char>, i: int32, j: int32)
    requires 0 <= i && i as int + 3 <= data.Length && i as int + 3 < 0x8000_0000 && i % 3 == 0
    requires 0 <= j && j as int + 4 <= dst.Length < 0x8000_0000
    requires dst[..j] == Rfc(data[..i])
    modifies dst
    ensures dst[..j + 4] == Rfc(old(data[..i + 3]))
  {
    hide Rfc, TableAt, Index0, Index1, Index2, Index3, Char64, Group, Sextet;
    var byte1, byte2, byte3 := data[i], data[i + 1], data[i + 2];
    RoundExtendsRfc(data[..i], byte1, byte2, byte3);
    assert data[..i + 3] == data[..i] + [byte1, byte2, byte3];
    Emit(dst, j, TableAt(Index0(byte1)), TableAt(Index1(byte1, byte2)),
         TableAt(Index2(byte2, byte3)), TableAt(Index3(byte3)));
  }

  /** The last byte with two padding characters. */
  method EncodeOne(data: array<bv8>, dst: array<char>, i: int32, j: int32)
    requires 0 <= i && i as int + 1 <= data.Length && i as int + 1 < 0x8000_0000 && i % 3 == 0
    requires 0 <= j && j as int + 4 <= dst.Length < 0x8000_0000
    requires dst[..j] == Rfc(data[..i])
    modifies dst
    ensures dst[..j + 4] == Rfc(old(data[..i + 1]))
  {
    hide Rfc, TableAt, Index0, LastIndex1, Char64, Group, Sextet;
    var byte1 := data[i];
    TailExtendsRfc(data[..i], byte1, 0);
    assert data[..i + 1] == data[..i] + [byte1];
    Emit(dst, j, TableAt(Index0(byte1)), TableAt(LastIndex1(byte1)), '=', '=');
  }

  /** The last two bytes with one padding character. */
  method EncodeTwo(data: array<bv8>, dst: array<char>, i: int32, j: int32)
    requires 0 <= i && i as int + 2 <= data.Length && i as int + 2 < 0x8000_0000 && i % 3 == 0
    requires 0 <= j && j as int + 4 <= dst.Length < 0x8000_0000
    requires dst[..j] == Rfc(data[..i])
    modifies dst
    ensures dst[..j + 4] == Rfc(old(data[..i + 2]))
  {
    hide Rfc, TableAt, Index0, Index1, LastIndex2, Char64, Group, Sextet;
    var byte1, byte2 := data[i], data[i + 1];
    TailExtendsRfc(data[..i], byte1, byte2);
    assert data[..i + 2] == data[..i] + [byte1, byte2];
    Emit(dst, j, TableAt(Index0(byte1)), TableAt(Index1(byte1, byte2)), TableAt(LastIndex2(byte2)), '=');
  }

  /** What follows the loop: the last one or two bytes, by the remainder of the length. */
  method EncodeLast(data: array<bv8>, srcLen: int32, dst: array<char>, i: int32, j: int32)
    requires 0 < srcLen as int <= data.Length
    requires 0 <= i < srcLen && srcLen - 3 <= i && i % 3 == 0
    requires 0 <= j && j as int + 4 <= dst.Length < 0x8000_0000
    requires dst[..j] == Rfc(data[..i])
    modifies dst
    ensures dst[..j + 4] == Rfc(old(data[..Covered(srcLen as int)]))
  {
    hide Rfc;
    if srcLen % 3 == 1 {
      EncodeOne(data, dst, i, j);
    } else {
      EncodeTwo(data, dst, i, j);
    }
  }

  /** After r full rounds there is room for one more, and for exactly one more when the loop ends. */
  lemma RoundsFit(n: int, r: nat)
    requires 3 * r < n
    ensures 4 * r + 4 <= OutLength(n)
    ensures n - 3 <= 3 * r ==> 4 * r + 4 == OutLength(n)
  {}

  method EncodeBase64(data: array<bv8>, srcLen: int32) returns (result: array<char>)
    requires 0 < srcLen as int <= data.Length
    requires OutLength(srcLen as int) + 1 < 0x8000_0000
    ensures result.Length == OutLength(srcLen as int) + 1
    ensures result[..result.Length - 1] == Rfc(data[..Covered(srcLen as int)])
    ensures result[result.Length - 1] == '\0'
  {
    var len: int32 := (srcLen / 3) * 4;
    var outLen: int32 := if srcLen % 3 != 0 then len + 4 else len;
    assert outLen as int == OutLength(srcLen as int);
    RfcOfNothing();
    hide Rfc, Covered, OutLength;
    result := new char[outLen as int + 1];
    var j: int32 := 0;
    var i: int32 := 0;
    ghost var rounds: nat := 0;
    while i < srcLen - 3
      invariant i as int == 3 * rounds && j as int == 4 * rounds && i % 3 == 0
      invariant i < srcLen
      invariant result[..j] == Rfc(data[..i])
    {
      RoundsFit(srcLen as int, rounds);
      EncodeRound(data, result, i, j);
      i, j, rounds := i + 3, j + 4, rounds + 1;
    }
    RoundsFit(srcLen as int, rounds);
    EncodeLast(data, srcLen, result, i, j);
    j := j + 4;
    assert j == outLen;
    result[outLen] := '\0';
  }

  /** The output is the RFC encoding of the whole input exactly when its length is no multiple of three. */
  lemma EncodesWholeInputIff(s: seq<bv8>)
    requires |s| > 0
    ensures Rfc(s[..Covered(|s|)]) == Rfc(s) <==> |s| % 3 != 0
    ensures Decode(Rfc(s[..Covered(|s|)])) == Some(if |s| % 3 != 0 then s else s[..|s| - 1])
  {
    DecodeInvertsRfc(s);
    DecodeInvertsRfc(s[..Covered(|s|)]);
    if |s| % 3 != 0 {
      assert s[..Covered(|s|)] == s;
    }
  }

  /** The failing case at its smallest: three zero bytes. */
  lemma ThirdByteLost()
    ensures Rfc([0, 0, 0]) == "AAAA" && Rfc([0, 0, 0][..Covered(3)]) == "AAA="
  {
    var three: seq<bv8> := [0, 0, 0];
    assert three[3..] == [] && three[..Covered(3)] == [0, 0];
  }

  /** A C string is what precedes the first NUL. */
  function CString(s: string): (t: string)
    requires '\0' in s
    ensures t <= s && '\0' !in t && |t| < |s| && s[|t|] == '\0'
  {
    if s[0] == '\0' then [] else [s[0]] + CString(s[1..])
  }

  lemma {:induction false} CStringOf(t: string)
    requires '\0' !in t
    ensures CString(t + ['\0']) == t
  {
    if t == [] {
    } else {
      CStringOf(t[1..]);
      assert (t + ['\0'])[1..] == t[1..] + ['\0'];
    }
  }

  /** The conversion of a 64-bit length to the 32-bit parameter of the encoder. */
  function Narrow(n: int64): (r: int32)
    ensures r as int == n as int <==> -0x8000_0000 <= n < 0x8000_0000
    ensures n > 0 ==> r as int <= n as int
    ensures (n as int - r as int) % 0x1_0000_0000 == 0
  {
    var m := n as int % 0x1_0000_0000;
    (if m < 0x8000_0000 then m else m - 0x1_0000_0000) as int32
  }

  /**
   The data URI put into the reply; `None` for the length the guard refuses.  A length that
   is narrowed on the way to the encoder yields the encoding of the first bytes only.  The
   encoder has no defined result for a narrowed length that is not positive, or whose
   output does not fit 32-bit arithmetic.
   */
  method GetMediaBase64(data: array<bv8>, fileLength: int64, imageType: string) returns (value: Option<string>)
    requires fileLength as int <= data.Length
    requires fileLength > 0 ==> Narrow(fileLength) > 0 && OutLength(Narrow(fileLength) as int) + 1 < 0x8000_0000
    ensures value == if fileLength <= 0 then None
                     else Some("data:" + imageType + ";base64," + Rfc(data[..Covered(Narrow(fileLength) as int)]))
  {
    if fileLength <= 0 {
      return None;
    }
    var srcLen := Narrow(fileLength);
    var base64Data := EncodeBase64(data, srcLen);
    RfcHasNoNul(data[..Covered(srcLen as int)]);
    CStringOf(Rfc(data[..Covered(srcLen as int)]));
    assert base64Data[..] == base64Data[..base64Data.Length - 1] + ['\0'];
    value := Some("data:" + imageType + ";base64," + CString(base64Data[..]));
  }
}
