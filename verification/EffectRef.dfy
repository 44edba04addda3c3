/** Signed webhook references: unpadded base64url and the reference built from it. */
module EffectRef {
  import opened Wrappers

  type Byte = b: int | 0 <= b < 256
  type Sextet = v: int | 0 <= v < 64

  // ----- The alphabet of section 5 of RFC 4648 -----

  function Char(v: Sextet): char {
    if v < 26 then 'A' + v as char
    else if v < 52 then 'a' + (v - 26) as char
    else if v < 62 then '0' + (v - 52) as char
    else if v == 62 then '-' else '_'
  }

  /** The value of a data character; the decoder also knows the standard alphabet's two symbols. */
  function Value(c: char): Option<Sextet> {
    if 'A' <= c <= 'Z' then Some((c - 'A') as int)
    else if 'a' <= c <= 'z' then Some((c - 'a') as int + 26)
    else if '0' <= c <= '9' then Some((c - '0') as int + 52)
    else if c == '-' || c == '+' then Some(62)
    else if c == '_' || c == '/' then Some(63)
    else None
  }

  lemma ValueOfChar(v: Sextet)
    ensures Value(Char(v)) == Some(v) && Char(v) != '=' && Char(v) != '.'
    ensures Char(v) < 128 as char
  {
  }

  // ----- Encoding -----

  /** The bits of the input in groups of six, the last group filled with zeros. */
  function Sextets(data: seq<Byte>): seq<Sextet> {
    if data == [] then []
    else if |data| == 1 then [data[0] / 4, data[0] % 4 * 16]
    else if |data| == 2 then [data[0] / 4, data[0] % 4 * 16 + data[1] / 16, data[1] % 16 * 4]
    else
      [data[0] / 4, data[0] % 4 * 16 + data[1] / 16, data[1] % 16 * 4 + data[2] / 64, data[2] % 64]
      + Sextets(data[3..])
  }

  function Chars(sextets: seq<Sextet>): string {
    if sextets == [] then "" else [Char(sextets[0])] + Chars(sextets[1..])
  }

  function Padding(n: nat): string {
    if n == 0 then "" else "=" + Padding(n - 1)
  }

  function EncodePadded(data: seq<Byte>): string {
    Chars(Sextets(data)) + Padding((3 - |data| % 3) % 3)
  }

  /** Python's rstrip("="). */
  function StripPadding(s: string): string {
    if s != "" && s[|s| - 1] == '=' then StripPadding(s[..|s| - 1]) else s
  }

  function Encode(data: seq<Byte>): string {
    StripPadding(EncodePadded(data))
  }

  // ----- Decoding -----

  /** A decoder that has read part of its input: how many data characters of the current group it
      has seen, how many padding characters in a row, the bits left over, and the bytes produced. */
  datatype Decoder = Decoder(group: nat, pads: nat, left: nat, out: seq<Byte>)

  predicate Consistent(d: Decoder) {
    d.group < 4
    && (d.group == 0 ==> d.left == 0) && (d.group == 1 ==> d.left < 64)
    && (d.group == 2 ==> d.left < 16) && (d.group == 3 ==> d.left < 4)
  }

  function Feed(d: Decoder, v: Sextet): (d': Decoder)
    requires Consistent(d)
    ensures Consistent(d')
  {
    if d.group == 0 then Decoder(1, 0, v, d.out)
    else if d.group == 1 then Decoder(2, 0, v % 16, d.out + [d.left * 4 + v / 16])
    else if d.group == 2 then Decoder(3, 0, v % 4, d.out + [d.left * 16 + v / 4])
    else Decoder(0, 0, 0, d.out + [d.left * 64 + v])
  }

  /** The lenient base64 scan: padding ends the input once it completes a group, characters outside
      the alphabet are skipped, and an incomplete group is an error. */
  function Scan(s: string, d: Decoder): Result<seq<Byte>, ()>
    requires Consistent(d)
  {
    if s == "" then (if d.group == 0 then Ok(d.out) else Err(()))
    else if s[0] == '=' then
      if d.group >= 2 && d.group + d.pads + 1 >= 4 then Ok(d.out)
      else Scan(s[1..], if d.group >= 2 then d.(pads := d.pads + 1) else d)
    else
      match Value(s[0])
      case None => Scan(s[1..], d)
      case Some(v) => Scan(s[1..], Feed(d, v))
  }

  predicate Ascii(s: string) {
    forall i :: 0 <= i < |s| ==> s[i] < 128 as char
  }

  function Decode(s: string): Result<seq<Byte>, ()> {
    var padded := s + Padding((4 - |s| % 4) % 4);
    if !Ascii(padded) then Err(()) else Scan(padded, Decoder(0, 0, 0, []))
  }

  // ----- What the encoding is -----

  /** The characters, by code: capitals, small letters, digits, hyphen and underscore, in this order. */
  lemma CharIsAlphabet(v: Sextet)
    ensures Char(v) as int ==
      if v < 26 then 65 + v else if v < 52 then 97 + (v - 26) else if v < 62 then 48 + (v - 52)
      else if v == 62 then 45 else 95
  {
  }

  /** The decoder knows those characters, and the two of the standard alphabet. */
  lemma ValueMeans(c: char, v: Sextet)
    ensures Value(c) == Some(v) <==> c == Char(v) || (c == '+' && v == 62) || (c == '/' && v == 63)
  {
  }

  function ByteAt(data: seq<Byte>, i: nat): Byte {
    if i < |data| then data[i] else 0
  }

  function SextetAt(sextets: seq<Sextet>, i: nat): Sextet {
    if i < |sextets| then sextets[i] else 0
  }

  /** The 24 bits of three bytes, filled up with zeros. */
  function ByteGroup(data: seq<Byte>, i: nat): int {
    ByteAt(data, i) * 65536 + ByteAt(data, i + 1) * 256 + ByteAt(data, i + 2)
  }

  /** The 24 bits of four sextets, filled up with zeros. */
  function SextetGroup(s: seq<Sextet>, i: nat): int {
    SextetAt(s, i) * 262144 + SextetAt(s, i + 1) * 4096 + SextetAt(s, i + 2) * 64 + SextetAt(s, i + 3)
  }

  lemma LaterBytes(data: seq<Byte>, i: nat)
    requires |data| > 2
    ensures ByteGroup(data, i + 3) == ByteGroup(data[3..], i)
  {
  }

  lemma LaterSextets(four: seq<Sextet>, rest: seq<Sextet>, i: nat)
    requires |four| == 4
    ensures SextetGroup(four + rest, i + 4) == SextetGroup(rest, i)
  {
  }

  lemma FirstGroupBits(data: seq<Byte>)
    requires data != []
    ensures ByteGroup(data, 0) == SextetGroup(Sextets(data), 0)
  {
  }

  /** Each group of three bytes has the same 24 bits as its four sextets. */
  lemma {:induction false} SameBits(data: seq<Byte>, g: nat)
    requires 3 * g < |data|
    ensures ByteGroup(data, 3 * g) == SextetGroup(Sextets(data), 4 * g)
  {
    if g > 0 {
      var four := FirstGroup(data, []);
      LaterBytes(data, 3 * (g - 1));
      LaterSextets(four, Sextets(data[3..]), 4 * (g - 1));
      SameBits(data[3..], g - 1);
    } else {
      FirstGroupBits(data);
    }
  }

  // ----- Round trip -----

  function FeedAll(d: Decoder, sextets: seq<Sextet>): (d': Decoder)
    requires Consistent(d)
    ensures Consistent(d')
    decreases sextets
  {
    if sextets == [] then d else FeedAll(Feed(d, sextets[0]), sextets[1..])
  }

  lemma ScanChar(v: Sextet, rest: string, d: Decoder)
    requires Consistent(d)
    ensures Scan([Char(v)] + rest, d) == Scan(rest, Feed(d, v))
  {
    ValueOfChar(v);
    assert ([Char(v)] + rest)[1..] == rest;
  }

  lemma FirstChar(sextets: seq<Sextet>, rest: string)
    requires sextets != []
    ensures Chars(sextets) + rest == [Char(sextets[0])] + (Chars(sextets[1..]) + rest)
  {
  }

  /** Scanning encoded data feeds exactly its sextets to the decoder. */
  lemma {:induction false} ScanChars(sextets: seq<Sextet>, rest: string, d: Decoder)
    requires Consistent(d)
    ensures Scan(Chars(sextets) + rest, d) == Scan(rest, FeedAll(d, sextets))
  {
    if sextets == [] {
      assert Chars(sextets) + rest == rest;
    } else {
      ScanChar(sextets[0], Chars(sextets[1..]) + rest, d);
      FirstChar(sextets, rest);
      ScanChars(sextets[1..], rest, Feed(d, sextets[0]));
    }
  }

  lemma {:induction false} FeedConcat(d: Decoder, a: seq<Sextet>, b: seq<Sextet>)
    requires Consistent(d)
    ensures FeedAll(d, a + b) == FeedAll(FeedAll(d, a), b)
    decreases a
  {
    if a == [] {
      assert a + b == b;
    } else {
      assert (a + b)[1..] == a[1..] + b;
      FeedConcat(Feed(d, a[0]), a[1..], b);
    }
  }

  lemma FeedTwo(a: Sextet, b: Sextet, out: seq<Byte>)
    ensures FeedAll(Decoder(0, 0, 0, out), [a, b]) == Decoder(2, 0, b % 16, out + [a * 4 + b / 16])
  {
    assert [a, b][1..] == [b];
    assert FeedAll(Decoder(1, 0, a, out), [b]) == FeedAll(Feed(Decoder(1, 0, a, out), b), []);
  }

  lemma FeedThree(a: Sextet, b: Sextet, c: Sextet, out: seq<Byte>)
    ensures FeedAll(Decoder(0, 0, 0, out), [a, b, c])
         == Decoder(3, 0, c % 4, out + [a * 4 + b / 16, b % 16 * 16 + c / 4])
  {
    FeedTwo(a, b, out);
    assert [a, b] + [c] == [a, b, c];
    FeedConcat(Decoder(0, 0, 0, out), [a, b], [c]);
    assert out + [a * 4 + b / 16] + [b % 16 * 16 + c / 4] == out + [a * 4 + b / 16, b % 16 * 16 + c / 4];
  }

  lemma FeedFour(a: Sextet, b: Sextet, c: Sextet, e: Sextet, out: seq<Byte>)
    ensures FeedAll(Decoder(0, 0, 0, out), [a, b, c, e])
         == Decoder(0, 0, 0, out + [a * 4 + b / 16, b % 16 * 16 + c / 4, c % 4 * 64 + e])
  {
    FeedThree(a, b, c, out);
    assert [a, b, c] + [e] == [a, b, c, e];
    FeedConcat(Decoder(0, 0, 0, out), [a, b, c], [e]);
    var two := [a * 4 + b / 16, b % 16 * 16 + c / 4];
    assert out + two + [c % 4 * 64 + e] == out + (two + [c % 4 * 64 + e]);
  }

  lemma FeedOneByte(x: Byte, out: seq<Byte>)
    ensures FeedAll(Decoder(0, 0, 0, out), [x / 4, x % 4 * 16]) == Decoder(2, 0, 0, out + [x])
  {
    FeedTwo(x / 4, x % 4 * 16, out);
  }

  lemma FeedTwoBytes(x: Byte, y: Byte, out: seq<Byte>)
    ensures FeedAll(Decoder(0, 0, 0, out), [x / 4, x % 4 * 16 + y / 16, y % 16 * 4]) == Decoder(3, 0, 0, out + [x, y])
  {
    FeedThree(x / 4, x % 4 * 16 + y / 16, y % 16 * 4, out);
  }

  lemma FirstByte(x: Byte, y: Byte)
    ensures x / 4 * 4 + (x % 4 * 16 + y / 16) / 16 == x
  {
  }

  lemma SecondByte(x: Byte, y: Byte, z: Byte)
    ensures (x % 4 * 16 + y / 16) % 16 * 16 + (y % 16 * 4 + z / 64) / 4 == y
  {
    assert (x % 4 * 16 + y / 16) % 16 == y / 16;
    assert (y % 16 * 4 + z / 64) / 4 == y % 16;
  }

  lemma ThirdByte(y: Byte, z: Byte)
    ensures (y % 16 * 4 + z / 64) % 4 * 64 + z % 64 == z
  {
    assert (y % 16 * 4 + z / 64) % 4 == z / 64;
  }

  lemma FeedThreeBytes(x: Byte, y: Byte, z: Byte, out: seq<Byte>)
    ensures FeedAll(Decoder(0, 0, 0, out), [x / 4, x % 4 * 16 + y / 16, y % 16 * 4 + z / 64, z % 64])
         == Decoder(0, 0, 0, out + [x, y, z])
  {
    FirstByte(x, y);
    SecondByte(x, y, z);
    ThirdByte(y, z);
    FeedFour(x / 4, x % 4 * 16 + y / 16, y % 16 * 4 + z / 64, z % 64, out);
  }

  lemma FirstGroup(data: seq<Byte>, out: seq<Byte>) returns (four: seq<Sextet>)
    requires |data| > 2
    ensures |four| == 4 && Sextets(data) == four + Sextets(data[3..])
    ensures FeedAll(Decoder(0, 0, 0, out), four) == Decoder(0, 0, 0, out + [data[0], data[1], data[2]])
  {
    four := [data[0] / 4, data[0] % 4 * 16 + data[1] / 16, data[1] % 16 * 4 + data[2] / 64, data[2] % 64];
    FeedThreeBytes(data[0], data[1], data[2], out);
  }

  /** How many sextets of an incomplete group a byte string of length n ends with. */
  function LastGroup(n: nat): nat {
    if n % 3 == 0 then 0 else n % 3 + 1
  }

  lemma LastTwoBytes(data: seq<Byte>, out: seq<Byte>) returns (last: seq<Sextet>)
    requires |data| == 2
    ensures Sextets(data) == last && FeedAll(Decoder(0, 0, 0, out), last) == Decoder(3, 0, 0, out + data)
  {
    last := [data[0] / 4, data[0] % 4 * 16 + data[1] / 16, data[1] % 16 * 4];
    FeedTwoBytes(data[0], data[1], out);
    assert data == [data[0], data[1]];
  }

  lemma LastByte(data: seq<Byte>, out: seq<Byte>) returns (last: seq<Sextet>)
    requires |data| == 1
    ensures Sextets(data) == last && FeedAll(Decoder(0, 0, 0, out), last) == Decoder(2, 0, 0, out + data)
  {
    last := [data[0] / 4, data[0] % 4 * 16];
    FeedOneByte(data[0], out);
    assert data == [data[0]];
  }

  lemma Regroup(out: seq<Byte>, data: seq<Byte>)
    requires |data| > 2
    ensures out + [data[0], data[1], data[2]] + data[3..] == out + data
  {
    assert data == [data[0], data[1], data[2]] + data[3..];
  }

  /** Feeding the sextets of any byte string reproduces it, with no bits left over. */
  lemma {:induction false} FeedSextets(data: seq<Byte>, out: seq<Byte>)
    ensures FeedAll(Decoder(0, 0, 0, out), Sextets(data)) == Decoder(LastGroup(|data|), 0, 0, out + data)
    decreases |data|
  {
    if |data| > 2 {
      var rest := data[3..];
      var four := FirstGroup(data, out);
      FeedConcat(Decoder(0, 0, 0, out), four, Sextets(rest));
      FeedSextets(rest, out + [data[0], data[1], data[2]]);
      Regroup(out, data);
      GroupsRepeat(|rest|, 0);
    } else if |data| == 2 {
      var last := LastTwoBytes(data, out);
    } else if |data| == 1 {
      var last := LastByte(data, out);
    } else {
      assert out + data == out;
    }
  }

  lemma {:induction false} PaddingShape(n: nat)
    ensures |Padding(n)| == n && forall i :: 0 <= i < n ==> Padding(n)[i] == '='
    ensures n > 0 ==> Padding(n)[..n - 1] == Padding(n - 1)
  {
    if n > 0 { PaddingShape(n - 1); }
  }

  lemma {:induction false} StripOfPadding(s: string, n: nat)
    requires s == "" || s[|s| - 1] != '='
    ensures StripPadding(s + Padding(n)) == s
    decreases n
  {
    PaddingShape(n);
    if n == 0 {
      assert s + Padding(n) == s;
    } else {
      assert (s + Padding(n))[..|s| + n - 1] == s + Padding(n - 1);
      StripOfPadding(s, n - 1);
    }
  }

  lemma {:induction false} CharsShape(sextets: seq<Sextet>)
    ensures |Chars(sextets)| == |sextets|
    ensures forall i :: 0 <= i < |sextets| ==> Chars(sextets)[i] == Char(sextets[i])
  {
    if sextets != [] { CharsShape(sextets[1..]); }
  }

  lemma GroupsRepeat(bytes: nat, sextets: nat)
    ensures LastGroup(bytes + 3) == LastGroup(bytes) && (4 + sextets) % 4 == sextets % 4
  {
    assert (bytes + 3) % 3 == bytes % 3;
  }

  lemma {:induction false} SextetCount(data: seq<Byte>)
    ensures |Sextets(data)| % 4 == LastGroup(|data|)
  {
    if |data| > 2 {
      SextetCount(data[3..]);
      assert |Sextets(data)| == 4 + |Sextets(data[3..])|;
      GroupsRepeat(|data[3..]|, |Sextets(data[3..])|);
    }
  }

  /** How many sextets there are: a whole group for three bytes, one more than bytes for a rest. */
  lemma {:induction false} SextetTotal(data: seq<Byte>)
    ensures |Sextets(data)| == |data| / 3 * 4 + LastGroup(|data|)
  {
    if |data| > 2 {
      SextetTotal(data[3..]);
      assert |Sextets(data)| == 4 + |Sextets(data[3..])|;
      assert |data| / 3 == |data[3..]| / 3 + 1;
      GroupsRepeat(|data[3..]|, 0);
    }
  }

  /** The encoder emits only alphabet characters, never padding or a dot. */
  lemma EncodeShape(data: seq<Byte>)
    ensures Encode(data) == Chars(Sextets(data))
    ensures '.' !in Encode(data) && '=' !in Encode(data) && Ascii(Encode(data))
  {
    var sextets := Sextets(data);
    CharsShape(sextets);
    forall i | 0 <= i < |sextets|
      ensures Chars(sextets)[i] != '=' && Chars(sextets)[i] != '.' && Chars(sextets)[i] < 128 as char
    {
      ValueOfChar(sextets[i]);
    }
    StripOfPadding(Chars(sextets), (3 - |data| % 3) % 3);
  }

  lemma PadCount(sextets: nat, bytes: nat)
    requires sextets % 4 == LastGroup(bytes)
    ensures (4 - sextets % 4) % 4 == (3 - bytes % 3) % 3
  {
    if bytes % 3 == 0 {
    } else if bytes % 3 == 1 {
      assert sextets % 4 == 2;
    } else {
      assert sextets % 4 == 3;
    }
  }

  lemma AsciiPadded(s: string, n: nat)
    requires Ascii(s)
    ensures Ascii(s + Padding(n))
  {
    PaddingShape(n);
  }

  /** The decoder restores exactly the padding the encoder dropped. */
  lemma PaddingRestored(data: seq<Byte>)
    ensures Encode(data) + Padding((4 - |Encode(data)| % 4) % 4) == EncodePadded(data)
    ensures Ascii(EncodePadded(data))
  {
    EncodeShape(data);
    SextetCount(data);
    PadCount(|Sextets(data)|, |data|);
    CharsShape(Sextets(data));
    AsciiPadded(Chars(Sextets(data)), (3 - |data| % 3) % 3);
  }

  lemma ScanUndoesEncode(data: seq<Byte>)
    ensures Scan(EncodePadded(data), Decoder(0, 0, 0, [])) == Ok(data)
  {
    FeedSextets(data, []);
    assert [] + data == data;
    ScanChars(Sextets(data), Padding((3 - |data| % 3) % 3), Decoder(0, 0, 0, []));
    ScanPadding(data, |data|);
  }

  /** Unpadded base64url round-trips for byte strings of every length. */
  lemma DecodeUndoesEncode(data: seq<Byte>)
    ensures Decode(Encode(data)) == Ok(data)
  {
    PaddingRestored(data);
    ScanUndoesEncode(data);
  }

  lemma ScanPad(rest: string, d: Decoder)
    requires Consistent(d) && d.group >= 2
    ensures Scan("=" + rest, d)
         == if d.group + d.pads + 1 >= 4 then Ok(d.out) else Scan(rest, d.(pads := d.pads + 1))
  {
    assert ("=" + rest)[1..] == rest;
  }

  lemma ScanTwoPads(out: seq<Byte>)
    ensures Scan(Padding(2), Decoder(2, 0, 0, out)) == Ok(out)
  {
    assert Padding(2) == "=" + Padding(1);
    ScanPad(Padding(1), Decoder(2, 0, 0, out));
    assert Padding(1) == "=" + Padding(0);
    ScanPad(Padding(0), Decoder(2, 1, 0, out));
  }

  lemma ScanOnePad(out: seq<Byte>)
    ensures Scan(Padding(1), Decoder(3, 0, 0, out)) == Ok(out)
  {
    assert Padding(1) == "=" + Padding(0);
    ScanPad(Padding(0), Decoder(3, 0, 0, out));
  }

  lemma ScanPadding(out: seq<Byte>, n: nat)
    ensures Scan(Padding((3 - n % 3) % 3), Decoder(LastGroup(n), 0, 0, out)) == Ok(out)
  {
    if n % 3 == 1 { ScanTwoPads(out); } else if n % 3 == 2 { ScanOnePad(out); }
  }

  // ----- Text that was not encoded here -----

  /** Text of data characters only: the URL-safe alphabet or the standard one. */
  ghost predicate IsData(s: string) {
    forall i :: 0 <= i < |s| ==> Value(s[i]).Some?
  }

  lemma ScanData(c: char, rest: string, d: Decoder)
    requires Consistent(d) && Value(c).Some?
    ensures Scan([c] + rest, d) == Scan(rest, Feed(d, Value(c).value))
  {
    assert ([c] + rest)[1..] == rest;
  }

  lemma {:induction false} ScanText(s: string, rest: string, d: Decoder) returns (d': Decoder)
    requires Consistent(d) && d.pads == 0 && IsData(s)
    ensures Consistent(d') && d'.pads == 0 && d'.group == (d.group + |s|) % 4
    ensures Scan(s + rest, d) == Scan(rest, d')
    decreases |s|
  {
    if s == "" {
      assert s + rest == rest;
      d' := d;
    } else {
      ScanData(s[0], s[1..] + rest, d);
      assert s + rest == [s[0]] + (s[1..] + rest);
      d' := ScanText(s[1..], rest, Feed(d, Value(s[0]).value));
    }
  }

  lemma ScanLonePads(d: Decoder, n: nat)
    requires Consistent(d) && d.group == 1
    ensures Scan(Padding(n), d) == Err(())
  {
    if n > 0 {
      assert ("=" + Padding(n - 1))[1..] == Padding(n - 1);
      ScanLonePads(d, n - 1);
    }
  }

  lemma ScanRest(d: Decoder)
    requires Consistent(d) && d.pads == 0
    ensures Scan(Padding((4 - d.group) % 4), d).Ok? <==> d.group != 1
  {
    if d.group == 1 {
      ScanLonePads(d, 3);
    } else if d.group == 2 {
      assert Padding(2) == "=" + Padding(1);
      ScanPad(Padding(1), d);
      assert Padding(1) == "=" + Padding(0);
      ScanPad(Padding(0), d.(pads := 1));
    } else if d.group == 3 {
      assert Padding(1) == "=" + Padding(0);
      ScanPad(Padding(0), d);
    }
  }

  lemma DecodeIsScan(s: string, n: nat)
    requires Ascii(s) && n == (4 - |s| % 4) % 4
    ensures Decode(s) == Scan(s + Padding(n), Decoder(0, 0, 0, []))
  {
    AsciiPadded(s, n);
  }

  lemma TextDecodes(s: string, n: nat, ok: bool)
    requires Ascii(s) && n == (4 - |s| % 4) % 4
    requires Scan(s + Padding(n), Decoder(0, 0, 0, [])).Ok? <==> ok
    ensures Decode(s).Ok? <==> ok
  {
    DecodeIsScan(s, n);
  }

  lemma DataIsAscii(s: string)
    requires IsData(s)
    ensures Ascii(s)
  {
  }

  /** Any text of data characters decodes, except one with a single character in its last group. */
  lemma DecodesUnlessLoneCharacter(s: string)
    requires IsData(s)
    ensures Decode(s).Ok? <==> |s| % 4 != 1
  {
    var n := (4 - |s| % 4) % 4;
    DataIsAscii(s);
    var d := ScanText(s, Padding(n), Decoder(0, 0, 0, []));
    ScanRest(d);
    TextDecodes(s, n, |s| % 4 != 1);
  }

  /** Characters outside the alphabet are skipped wherever they stand. */
  lemma {:induction false} ForeignCharactersAreSkipped(a: string, c: char, b: string, d: Decoder)
    requires Consistent(d) && Value(c).None? && c != '='
    ensures Scan(a + [c] + b, d) == Scan(a + b, d)
    decreases |a|
  {
    if a == "" {
      assert a + [c] + b == [c] + b && a + b == b && ([c] + b)[1..] == b;
    } else {
      assert (a + [c] + b)[1..] == a[1..] + [c] + b && (a + b)[1..] == a[1..] + b;
      assert (a + [c] + b)[0] == a[0] == (a + b)[0];
      if a[0] == '=' {
        ForeignCharactersAreSkipped(a[1..], c, b, if d.group >= 2 then d.(pads := d.pads + 1) else d);
      } else {
        ForeignCharactersAreSkipped(a[1..], c, b, match Value(a[0]) case None => d case Some(v) => Feed(d, v));
      }
    }
  }

  // ----- References -----

  /** The library functions the references rest on: UTF-8 and HMAC-SHA256. */
  datatype Library = Library(
    utf8: string -> seq<Byte>,
    fromUtf8: seq<Byte> -> Option<string>,
    hmac: (seq<Byte>, seq<Byte>) -> seq<Byte>)

  function Signature(lib: Library, organization: string, key: string, secret: string): string {
    Encode(lib.hmac(lib.utf8(secret), lib.utf8(organization + ":" + key)))
  }

  function BuildRef(lib: Library, organization: string, key: string, secret: string): string {
    Encode(lib.utf8(key)) + "." + Signature(lib, organization, key, secret)
  }

  /** Python's s.split(".", 1) into two parts, if there are two. */
  function SplitDot(s: string): Option<(string, string)> {
    if s == "" then None
    else if s[0] == '.' then Some(("", s[1..]))
    else
      match SplitDot(s[1..])
      case None => None
      case Some((before, after)) => Some(([s[0]] + before, after))
  }

  lemma {:induction false} SplitAtFirstDot(s: string)
    ensures SplitDot(s).None? <==> '.' !in s
    ensures SplitDot(s).Some? ==>
      s == SplitDot(s).value.0 + "." + SplitDot(s).value.1 && '.' !in SplitDot(s).value.0
  {
    if s != "" && s[0] != '.' { SplitAtFirstDot(s[1..]); }
  }

  lemma {:induction false} SplitOfJoin(before: string, after: string)
    requires '.' !in before
    ensures SplitDot(before + "." + after) == Some((before, after))
  {
    var s := before + "." + after;
    if before != "" {
      assert s[1..] == before[1..] + "." + after;
      SplitOfJoin(before[1..], after);
      assert [before[0]] + before[1..] == before;
    }
  }

  /** A reference that cannot be correlated, or a signature text that the comparison of digests does
      not take because it is not ASCII. */
  datatype RefError = InvalidCorrelation | NotComparable

  function DecodeRef(lib: Library, organization: string, ref: string, secret: string): Result<string, RefError> {
    match SplitDot(ref)
    case None => Err(InvalidCorrelation)
    case Some((encoded, supplied)) =>
      match Decode(encoded)
      case Err(_) => Err(InvalidCorrelation)
      case Ok(bytes) =>
        match lib.fromUtf8(bytes)
        case None => Err(InvalidCorrelation)
        case Some(key) =>
          match SplitDot(BuildRef(lib, organization, key, secret))
          case None => Err(InvalidCorrelation)
          case Some((_, expected)) =>
            if !Ascii(supplied) then Err(NotComparable)
            else if supplied == expected then Ok(key) else Err(InvalidCorrelation)
  }

  lemma BuiltRefSplits(lib: Library, organization: string, key: string, secret: string)
    ensures SplitDot(BuildRef(lib, organization, key, secret))
         == Some((Encode(lib.utf8(key)), Signature(lib, organization, key, secret)))
    ensures Ascii(Signature(lib, organization, key, secret))
  {
    EncodeShape(lib.hmac(lib.utf8(secret), lib.utf8(organization + ":" + key)));
    EncodeShape(lib.utf8(key));
    SplitOfJoin(Encode(lib.utf8(key)), Signature(lib, organization, key, secret));
  }

  /** A reference built for any organization, key and secret decodes to its key, provided UTF-8
      decoding undoes UTF-8 encoding. */
  lemma DecodeUndoesBuild(lib: Library, organization: string, key: string, secret: string)
    requires lib.fromUtf8(lib.utf8(key)) == Some(key)
    ensures DecodeRef(lib, organization, BuildRef(lib, organization, key, secret), secret) == Ok(key)
  {
    BuiltRefSplits(lib, organization, key, secret);
    DecodeUndoesEncode(lib.utf8(key));
  }

  /** The first part of a reference decodes to the key. */
  ghost predicate Names(lib: Library, encoded: string, key: string) {
    Decode(encoded).Ok? && lib.fromUtf8(Decode(encoded).value) == Some(key)
  }

  lemma PartsAccepted(lib: Library, organization: string, ref: string, secret: string, encoded: string,
                      supplied: string, key: string)
    requires SplitDot(ref) == Some((encoded, supplied))
    ensures DecodeRef(lib, organization, ref, secret) == Ok(key) <==>
      Names(lib, encoded, key) && supplied == Signature(lib, organization, key, secret)
  {
    BuiltRefSplits(lib, organization, key, secret);
  }

  /** A reference is accepted exactly when its first part decodes to a key and everything after the
      first dot is that key's signature for this organization and secret. */
  lemma AcceptedIffSigned(lib: Library, organization: string, ref: string, secret: string, key: string)
    ensures DecodeRef(lib, organization, ref, secret) == Ok(key) <==>
      exists encoded ::
        && '.' !in encoded && Names(lib, encoded, key)
        && ref == encoded + "." + Encode(lib.hmac(lib.utf8(secret), lib.utf8(organization + ":" + key)))
  {
    SplitAtFirstDot(ref);
    var signature := Signature(lib, organization, key, secret);
    if SplitDot(ref).Some? {
      var (encoded, supplied) := SplitDot(ref).value;
      PartsAccepted(lib, organization, ref, secret, encoded, supplied, key);
    }
    forall encoded | '.' !in encoded && ref == encoded + "." + signature
      ensures SplitDot(ref) == Some((encoded, signature))
    {
      SplitOfJoin(encoded, signature);
    }
  }

  // ----- References are bound to their tenant and secret -----

  /** Different text has different bytes and decodes back, and different inputs have different digests. */
  ghost predicate Faithful(lib: Library) {
    && (forall s :: lib.fromUtf8(lib.utf8(s)) == Some(s))
    && (forall k, m, k', m' :: lib.hmac(k, m) == lib.hmac(k', m') ==> k == k' && m == m')
  }

  lemma EncodeInjective(a: seq<Byte>, b: seq<Byte>)
    requires Encode(a) == Encode(b)
    ensures a == b
  {
    DecodeUndoesEncode(a);
    DecodeUndoesEncode(b);
  }

  lemma SameMessage(organization: string, organization': string, key: string)
    requires organization + ":" + key == organization' + ":" + key
    ensures organization == organization'
  {
    assert |organization| == |organization'|;
    assert organization == (organization + ":" + key)[..|organization|];
  }

  lemma SignatureBinds(lib: Library, organization: string, organization': string, key: string, secret: string, secret': string)
    requires Faithful(lib)
    requires Signature(lib, organization, key, secret) == Signature(lib, organization', key, secret')
    ensures organization == organization' && secret == secret'
  {
    var message, message' := organization + ":" + key, organization' + ":" + key;
    EncodeInjective(lib.hmac(lib.utf8(secret), lib.utf8(message)), lib.hmac(lib.utf8(secret'), lib.utf8(message')));
    assert lib.fromUtf8(lib.utf8(message)) == lib.fromUtf8(lib.utf8(message'));
    assert lib.fromUtf8(lib.utf8(secret)) == lib.fromUtf8(lib.utf8(secret'));
    SameMessage(organization, organization', key);
  }

  /** A reference built for one tenant with one secret is accepted for exactly that tenant and secret. */
  lemma AcceptedOnlyAtHome(lib: Library, organization: string, key: string, secret: string,
                           organization': string, secret': string)
    requires Faithful(lib)
    ensures
      var r := DecodeRef(lib, organization', BuildRef(lib, organization, key, secret), secret');
      && (r.Ok? <==> organization' == organization && secret' == secret)
      && (r.Ok? ==> r.value == key)
  {
    var ref := BuildRef(lib, organization, key, secret);
    BuiltRefSplits(lib, organization, key, secret);
    DecodeUndoesEncode(lib.utf8(key));
    PartsAccepted(lib, organization', ref, secret', Encode(lib.utf8(key)), Signature(lib, organization, key, secret), key);
    BuiltRefSplits(lib, organization', key, secret');
    if Signature(lib, organization, key, secret) == Signature(lib, organization', key, secret') {
      SignatureBinds(lib, organization, organization', key, secret, secret');
    }
  }
}
