/**
 * CPU lists in the List Format of cpuset(7): the parser of `fs/cpuset.rs` and the translation into
 * systemd's byte mask in `systemd/cpuset.rs`.
 */
module CpuList {
  import opened Decimal
  import opened Integers
  import opened Text
  import opened Wrappers

  /** An inclusive range; a reversed one holds nothing. */
  datatype Range = Range(first: nat, last: nat)

  predicate Covered(ranges: seq<Range>, i: nat) {
    exists r | r in ranges :: r.first <= i <= r.last
  }

  // The list parser of fs/cpuset.rs.

  function ParsePart(sp: string): Option<Range> {
    if '-' in sp then
      var split := Split(sp, {'-'});
      if |split| != 2 then None
      else
        match (ParseU64(split[0]), ParseU64(split[1]))
        case (Some(a), Some(b)) => Some(Range(a, b))
        case _ => None
    else
      match ParseU64(sp) case Some(n) => Some(Range(n, n)) case None => None
  }

  /** How the translation reads one part: by the number of pieces between dashes. */
  function MaskPart(part: string): Option<Range> {
    var range := Split(part, {'-'});
    if |range| == 1 then
      match ParseU64(range[0]) case Some(n) => Some(Range(n, n)) case None => None
    else if |range| == 2 then
      match (ParseU64(range[0]), ParseU64(range[1]))
      case (Some(a), Some(b)) => Some(Range(a, b))
      case _ => None
    else None
  }

  /** The two places in the crate that read CPU lists. */
  datatype Parser = ListParser | MaskParser {
    function Part(part: string): Option<Range> {
      if this == ListParser then ParsePart(part) else MaskPart(part)
    }
  }

  /** The ranges of all parts in order, or None as soon as one part is malformed. */
  function ParseParts(parser: Parser, parts: seq<string>): Option<seq<Range>> {
    if parts == [] then Some([])
    else
      match ParseParts(parser, parts[..|parts| - 1])
      case None => None
      case Some(ranges) =>
        match parser.Part(parts[|parts| - 1]) case None => None case Some(r) => Some(ranges + [r])
  }

  function Ranges(s: string): Option<seq<Range>> {
    if s == "" then Some([]) else ParseParts(ListParser, Split(s, {','}))
  }

  lemma {:induction false} BadPartSpoils(parser: Parser, parts: seq<string>, i: nat)
    requires i <= |parts| && ParseParts(parser, parts[..i]) == None
    ensures ParseParts(parser, parts) == None
    decreases |parts|
  {
    if i < |parts| {
      assert parts[..|parts| - 1][..i] == parts[..i];
      BadPartSpoils(parser, parts[..|parts| - 1], i);
    } else {
      assert parts[..i] == parts;
    }
  }

  /** What the next part does to the parts read so far. */
  lemma NextPart(parser: Parser, parts: seq<string>, i: nat, ranges: seq<Range>)
    requires i < |parts| && ParseParts(parser, parts[..i]) == Some(ranges)
    ensures match parser.Part(parts[i])
            case None => ParseParts(parser, parts) == None
            case Some(r) => ParseParts(parser, parts[..i + 1]) == Some(ranges + [r])
  {
    assert parts[..i + 1][..i] == parts[..i];
    if parser.Part(parts[i]) == None {
      BadPartSpoils(parser, parts, i + 1);
    }
  }

  /** The body of the loop over the comma-separated parts. */
  method ReadPart(sp: string) returns (r: Option<Range>)
    ensures r == ParsePart(sp)
  {
    if '-' in sp {
      var dashSplit := Split(sp, {'-'});
      if |dashSplit| != 2 {
        return None;
      }
      var first, second := ParseU64(dashSplit[0]), ParseU64(dashSplit[1]);
      if first.None? || second.None? {
        return None;
      }
      r := Some(Range(first.value, second.value));
    } else {
      var num := ParseU64(sp);
      if num.None? {
        return None;
      }
      r := Some(Range(num.value, num.value));
    }
  }

  method ParseRange(s: string) returns (r: Option<seq<Range>>)
    ensures r == Ranges(s)
  {
    var fin := [];
    if s == "" {
      return Some(fin);
    }
    var commaSplit := Split(s, {','});
    for i := 0 to |commaSplit|
      invariant ParseParts(ListParser, commaSplit[..i]) == Some(fin)
    {
      NextPart(ListParser, commaSplit, i, fin);
      var part := ReadPart(commaSplit[i]);
      if part.None? {
        return None;
      }
      fin := fin + [part.value];
    }
    assert commaSplit[..|commaSplit|] == commaSplit;
    r := Some(fin);
  }

  // The mask of systemd/cpuset.rs.

  function LocalIndex(i: nat): (k: nat)
    ensures k / 8 == i / 8 && k % 8 == 7 - i % 8
  {
    i / 8 * 8 + 7 - i % 8
  }

  lemma LocalIndexInBounds(i: nat, n: nat)
    requires i < n && n % 8 == 0
    ensures LocalIndex(i) < n
  {
  }

  function Pow2(n: nat): (p: nat)
    ensures p > 0
  {
    if n == 0 then 1 else 2 * Pow2(n - 1)
  }

  function Bit(b: bool): nat {
    if b then 1 else 0
  }

  /** The number that bits stand for, the highest one first. */
  function BitsValue(bits: seq<bool>): (v: nat)
    ensures v < Pow2(|bits|)
  {
    if bits == [] then 0 else Bit(bits[0]) * Pow2(|bits| - 1) + BitsValue(bits[1..])
  }

  type Byte = b: int | 0 <= b < 256

  /** `BitVec::to_bytes`: the first bit becomes the highest one of the first byte. */
  function ToByte(bits: seq<bool>): Byte
    requires |bits| == 8
  {
    assert Pow2(8) == 256 by {
      assert Pow2(4) == 16;
    }
    BitsValue(bits)
  }

  function ToBytes(bits: seq<bool>): seq<Byte>
    requires |bits| % 8 == 0
  {
    if bits == [] then [] else ToBytes(bits[..|bits| - 8]) + [ToByte(bits[|bits| - 8..])]
  }

  function Reverse(bytes: seq<Byte>): seq<Byte> {
    if bytes == [] then [] else [bytes[|bytes| - 1]] + Reverse(bytes[..|bytes| - 1])
  }

  /** A byte string read as a number, most significant byte first. */
  function BigEndian(bytes: seq<Byte>): nat {
    if bytes == [] then 0 else 256 * BigEndian(bytes[..|bytes| - 1]) + bytes[|bytes| - 1]
  }

  /** The number whose least significant byte is the first one. */
  function LittleEndian(bytes: seq<Byte>): nat {
    if bytes == [] then 0 else LittleEndian(bytes[..|bytes| - 1]) + Pow2(8 * (|bytes| - 1)) * bytes[|bytes| - 1]
  }

  /** The sum of 2^i over the covered positions i below n. */
  function Sum(ranges: seq<Range>, n: nat): nat {
    if n == 0 then 0 else Sum(ranges, n - 1) + if Covered(ranges, n - 1) then Pow2(n - 1) else 0
  }

  function MaxLast(ranges: seq<Range>): nat {
    if ranges == [] then 0
    else
      Larger(MaxLast(ranges[..|ranges| - 1]), ranges[|ranges| - 1].last)
  }

  function MaskRanges(list: string): Option<seq<Range>> {
    ParseParts(MaskParser, Split(list, {','}))
  }

  /** The vector grown, byte by byte, until it has position `index`. */
  function Grown(bits: seq<bool>, index: nat): (out: seq<bool>)
    requires |bits| % 8 == 0
    ensures |out| % 8 == 0 && |out| == if index < |bits| then |bits| else 8 * (index / 8 + 1)
  {
    if index < |bits| then bits else bits + seq(8 * (index / 8 + 1) - |bits|, _ => false)
  }

  /** The vector after the local places of the positions from `first` to before `end` were set, one by one. */
  function Marked(bits: seq<bool>, first: nat, end: nat): (out: seq<bool>)
    requires |bits| % 8 == 0 && (first < end ==> end <= |bits|)
    ensures |out| == |bits|
  {
    if end <= first then bits
    else
      LocalIndexInBounds(end - 1, |bits|);
      Marked(bits, first, end - 1)[LocalIndex(end - 1) := true]
  }

  function BitsOf(ranges: seq<Range>): (bits: seq<bool>)
    ensures |bits| % 8 == 0
  {
    if ranges == [] then seq(8, _ => false)
    else
      var r := ranges[|ranges| - 1];
      Marked(Grown(BitsOf(ranges[..|ranges| - 1]), r.last), r.first, r.last + 1)
  }

  function Mask(ranges: seq<Range>): seq<Byte> {
    Reverse(ToBytes(BitsOf(ranges)))
  }

  lemma LocalIndexInverse(k: nat, i: nat)
    ensures LocalIndex(k) == i <==> k == LocalIndex(i)
  {
  }

  method GrowTo(bits: seq<bool>, index: nat) returns (out: seq<bool>)
    requires |bits| % 8 == 0
    ensures out == Grown(bits, index)
  {
    out := bits;
    while index >= |out|
      invariant |out| % 8 == 0 && |bits| <= |out| <= |Grown(bits, index)|
      invariant forall k | 0 <= k < |out| :: out[k] == (k < |bits| && bits[k])
    {
      out := out + [false, false, false, false, false, false, false, false];
    }
  }

  /** Setting place by place sets exactly the places whose positions are in the range. */
  lemma {:induction false} MarkedMeans(bits: seq<bool>, first: nat, end: nat, k: nat)
    requires |bits| % 8 == 0 && (first < end ==> end <= |bits|) && k < |bits|
    ensures Marked(bits, first, end)[k] <==> bits[k] || first <= LocalIndex(k) < end
  {
    if first < end {
      MarkedMeans(bits, first, end - 1, k);
      LocalIndexInverse(k, end - 1);
    }
  }

  lemma BitsOfMore(ranges: seq<Range>, r: Range)
    ensures BitsOf(ranges + [r]) == Marked(Grown(BitsOf(ranges), r.last), r.first, r.last + 1)
  {
    assert (ranges + [r])[..|ranges|] == ranges;
  }

  lemma MarkedOne(bits: seq<bool>, index: nat)
    requires |bits| % 8 == 0 && index < |bits|
    ensures LocalIndex(index) < |bits|
    ensures Marked(bits, index, index + 1) == bits[LocalIndex(index) := true]
  {
    assert Marked(bits, index, index) == bits;
  }

  /** A part "x": the vector grows up to x, and the bit of x is set. */
  method SetOne(bits: seq<bool>, index: nat, ghost ranges: seq<Range>) returns (out: seq<bool>)
    requires bits == BitsOf(ranges)
    ensures out == BitsOf(ranges + [Range(index, index)])
  {
    BitsOfMore(ranges, Range(index, index));
    var grown := GrowTo(bits, index);
    MarkedOne(grown, index);
    out := grown[LocalIndex(index) := true];
  }

  /** The loop `for index in left..=right`, which runs for no index when the range is reversed. */
  method SetPlaces(bits: seq<bool>, left: nat, right: nat) returns (out: seq<bool>)
    requires |bits| % 8 == 0 && (left <= right ==> right < |bits|)
    ensures out == Marked(bits, left, right + 1)
  {
    out := bits;
    if left <= right {
      for index := left to right + 1
        invariant out == Marked(bits, left, index)
      {
        LocalIndexInBounds(index, |bits|);
        out := out[LocalIndex(index) := true];
      }
    }
  }

  /** A part "x-y": the vector grows up to y, and the bits of x to y are set. */
  method SetRange(bits: seq<bool>, left: nat, right: nat, ghost ranges: seq<Range>) returns (out: seq<bool>)
    requires bits == BitsOf(ranges)
    ensures out == BitsOf(ranges + [Range(left, right)])
  {
    BitsOfMore(ranges, Range(left, right));
    var grown := GrowTo(bits, right);
    out := SetPlaces(grown, left, right);
  }

  /** The body of the loop over the parts. */
  method AddPart(bits: seq<bool>, part1: string, ghost ranges: seq<Range>) returns (out: Option<seq<bool>>)
    requires bits == BitsOf(ranges)
    ensures out == match MaskPart(part1) case None => None case Some(r) => Some(BitsOf(ranges + [r]))
  {
    var range := Split(part1, {'-'});
    match |range| {
      case 1 =>
        var left := ParseU64(range[0]);
        if left.None? {
          return None;
        }
        var one := SetOne(bits, left.value, ranges);
        out := Some(one);
      case 2 =>
        var left, right := ParseU64(range[0]), ParseU64(range[1]);
        if left.None? || right.None? {
          return None;
        }
        var more := SetRange(bits, left.value, right.value, ranges);
        out := Some(more);
      case _ =>
        out := None;
    }
  }

  method ConvertListToMask(list: string) returns (r: Option<seq<Byte>>)
    ensures r == match MaskRanges(list) case None => None case Some(ranges) => Some(Mask(ranges))
  {
    var bitVec := seq(8, _ => false);
    var parts := Split(list, {','});
    ghost var ranges: seq<Range> := [];
    for p := 0 to |parts|
      invariant ParseParts(MaskParser, parts[..p]) == Some(ranges) && bitVec == BitsOf(ranges)
    {
      NextPart(MaskParser, parts, p, ranges);
      var grown := AddPart(bitVec, parts[p], ranges);
      if grown.None? {
        return None;
      }
      bitVec := grown.value;
      ranges := ranges + [MaskPart(parts[p]).value];
    }
    assert parts[..|parts|] == parts;
    var mask := ToBytes(bitVec);
    r := Some(Reverse(mask));
  }

  // The two parsers read the same grammar.

  lemma PartsAgree(part: string)
    ensures ParsePart(part) == MaskPart(part)
  {
    SplitSingle(part, {'-'});
    if '-' !in part {
      SplitFree(part, {'-'});
    }
  }

  lemma {:induction false} AllPartsAgree(parts: seq<string>)
    ensures ParseParts(ListParser, parts) == ParseParts(MaskParser, parts)
  {
    if parts != [] {
      AllPartsAgree(parts[..|parts| - 1]);
      PartsAgree(parts[|parts| - 1]);
    }
  }

  /** They accept the same lists with the same ranges, except that the empty text is a list for one only. */
  lemma ParsersAgree(s: string)
    ensures Ranges(s) == MaskRanges(s) <==> s != ""
  {
    AllPartsAgree(Split(s, {','}));
    if s == "" {
      assert Split(s, {','}) == [""];
      assert ParseParts(MaskParser, [""][..0]) == Some([]);
      PartsAgree("");
    }
  }

  // The mask is the set of CPUs, as a number.

  lemma {:induction false} CoveredBound(ranges: seq<Range>)
    ensures forall r | r in ranges :: r.last <= MaxLast(ranges)
  {
    if ranges != [] {
      CoveredBound(ranges[..|ranges| - 1]);
      assert ranges == ranges[..|ranges| - 1] + [ranges[|ranges| - 1]];
    }
  }

  lemma GrownLength(bits: seq<bool>, top: nat, index: nat)
    requires |bits| == 8 * (top / 8 + 1)
    ensures |Grown(bits, index)| == 8 * (Larger(top, index) / 8 + 1)
  {
  }

  /** The largest right end fixes the length, reversed ranges included. */
  lemma {:induction false} BitsLength(ranges: seq<Range>)
    ensures |BitsOf(ranges)| == 8 * (MaxLast(ranges) / 8 + 1)
  {
    if ranges != [] {
      var before, r := ranges[..|ranges| - 1], ranges[|ranges| - 1];
      BitsLength(before);
      var bits := BitsOf(before);
      GrownLength(bits, MaxLast(before), r.last);
    }
  }

  /** A bit is set exactly where its position is covered. */
  lemma {:induction false} BitsMark(ranges: seq<Range>, k: nat)
    requires k < |BitsOf(ranges)|
    ensures BitsOf(ranges)[k] <==> Covered(ranges, LocalIndex(k))
  {
    if ranges != [] {
      var before, r := ranges[..|ranges| - 1], ranges[|ranges| - 1];
      assert ranges == before + [r];
      MarkedBit(BitsOf(before), r, k);
      CoveredMore(before, r, LocalIndex(k));
      if k < |BitsOf(before)| {
        BitsMark(before, k);
      } else {
        BitsLength(before);
        NotCoveredBeyond(before, k);
      }
    }
  }

  lemma MarkedBit(bits: seq<bool>, r: Range, k: nat)
    requires |bits| % 8 == 0 && k < |Grown(bits, r.last)|
    ensures Marked(Grown(bits, r.last), r.first, r.last + 1)[k] <==>
              (k < |bits| && bits[k]) || r.first <= LocalIndex(k) <= r.last
  {
    MarkedMeans(Grown(bits, r.last), r.first, r.last + 1, k);
  }

  lemma LocalIndexBeyond(k: nat, top: nat)
    requires k >= 8 * (top / 8 + 1)
    ensures LocalIndex(k) > top
  {
    assert LocalIndex(k) >= 8 * (k / 8);
  }

  lemma NotCoveredBeyond(ranges: seq<Range>, k: nat)
    requires k >= 8 * (MaxLast(ranges) / 8 + 1)
    ensures !Covered(ranges, LocalIndex(k))
  {
    CoveredBound(ranges);
    LocalIndexBeyond(k, MaxLast(ranges));
  }

  lemma CoveredMore(ranges: seq<Range>, r: Range, i: nat)
    ensures Covered(ranges + [r], i) <==> Covered(ranges, i) || r.first <= i <= r.last
  {
    assert forall x :: x in ranges + [r] <==> x in ranges || x == r;
  }

  lemma Pow2Add(m: nat, k: nat)
    ensures Pow2(m + k) == Pow2(m) * Pow2(k)
  {
    if k > 0 {
      Pow2Add(m, k - 1);
      assert Pow2(m + k) == 2 * Pow2(m + k - 1);
    }
  }

  /** The sum gains from the next positions what their bits are worth, the last position's bit first. */
  lemma {:induction false} SumBits(ranges: seq<Range>, m: nat, bits: seq<bool>)
    requires forall k: nat | k < |bits| :: bits[k] <==> Covered(ranges, m + |bits| - 1 - k)
    ensures Sum(ranges, m + |bits|) == Sum(ranges, m) + Pow2(m) * BitsValue(bits)
  {
    if bits != [] {
      var n := |bits| - 1;
      assert forall k: nat | k < n :: bits[1..][k] == bits[k + 1];
      SumBits(ranges, m, bits[1..]);
      Pow2Add(m, n);
      assert bits[0] <==> Covered(ranges, m + n);
      Distribute(Pow2(m), Bit(bits[0]), Pow2(n), BitsValue(bits[1..]));
    }
  }

  lemma Distribute(p: nat, bit: nat, w: nat, v: nat)
    requires bit <= 1
    ensures p * (bit * w + v) == p * v + if bit == 1 then p * w else 0
  {
  }

  lemma LocalIndexInByte(m: nat, k: nat)
    requires m % 8 == 0 && k < 8
    ensures LocalIndex(m + k) == m + 7 - k
  {
    assert (m + k) / 8 * 8 == m;
  }

  ghost predicate Marks(bits: seq<bool>, ranges: seq<Range>) {
    forall k: nat | k < |bits| :: bits[k] <==> Covered(ranges, LocalIndex(k))
  }

  lemma MarksInit(bits: seq<bool>, ranges: seq<Range>, m: nat)
    requires Marks(bits, ranges) && m <= |bits|
    ensures Marks(bits[..m], ranges)
  {
  }

  /** Within a byte the local order is the reverse of the order of the positions. */
  lemma LastByte(ranges: seq<Range>, bits: seq<bool>)
    requires |bits| % 8 == 0 && bits != []
    requires Marks(bits, ranges)
    ensures var m := |bits| - 8; forall k: nat | k < 8 :: bits[m..][k] <==> Covered(ranges, m + 7 - k)
  {
    var m := |bits| - 8;
    forall k: nat | k < 8
      ensures bits[m..][k] <==> Covered(ranges, m + 7 - k)
    {
      LocalIndexInByte(m, k);
      assert bits[m..][k] == bits[m + k];
    }
  }

  lemma LittleEndianStep(bits: seq<bool>)
    requires |bits| % 8 == 0 && bits != []
    ensures var m := |bits| - 8;
            var before := ToBytes(bits[..m]);
            && |ToBytes(bits)| == |before| + 1
            && LittleEndian(ToBytes(bits)) == LittleEndian(before) + Pow2(8 * |before|) * ToByte(bits[m..])
  {
    var bytes := ToBytes(bits);
    assert bytes[..|bytes| - 1] == ToBytes(bits[..|bits| - 8]);
  }

  lemma {:induction false} LittleEndianIsSum(ranges: seq<Range>, bits: seq<bool>)
    requires |bits| % 8 == 0
    requires Marks(bits, ranges)
    ensures |ToBytes(bits)| == |bits| / 8 && LittleEndian(ToBytes(bits)) == Sum(ranges, |bits|)
  {
    if bits != [] {
      var m := |bits| - 8;
      var init, last := bits[..m], bits[m..];
      MarksInit(bits, ranges, m);
      LittleEndianIsSum(ranges, init);
      LastByte(ranges, bits);
      SumBits(ranges, m, last);
      LittleEndianStep(bits);
    }
  }

  lemma Pow2Byte(n: nat)
    ensures Pow2(8 * (n + 1)) == 256 * Pow2(8 * n)
  {
    Pow2Add(8 * n, 8);
    assert Pow2(8) == 16 * Pow2(4) && Pow2(4) == 16;
  }

  lemma {:induction false} BigEndianCons(b: Byte, bytes: seq<Byte>)
    ensures BigEndian([b] + bytes) == Pow2(8 * |bytes|) * b + BigEndian(bytes)
  {
    if bytes == [] {
      assert [b] + bytes == [b];
      assert BigEndian([b]) == 256 * BigEndian([b][..0]) + b;
    } else {
      var init := bytes[..|bytes| - 1];
      BigEndianCons(b, init);
      assert ([b] + bytes)[..|bytes|] == [b] + init;
      Pow2Byte(|init|);
      var p := Pow2(8 * |init|);
      assert 256 * (p * b) == (256 * p) * b;
    }
  }

  /** Reversing the bytes turns the least significant byte first into the most significant one first. */
  lemma {:induction false} ReverseSwapsEnds(bytes: seq<Byte>)
    ensures |Reverse(bytes)| == |bytes| && BigEndian(Reverse(bytes)) == LittleEndian(bytes)
  {
    if bytes != [] {
      ReverseSwapsEnds(bytes[..|bytes| - 1]);
      BigEndianCons(bytes[|bytes| - 1], Reverse(bytes[..|bytes| - 1]));
    }
  }

  /** The mask, read as a big-endian number, is the sum of 2^i over the union of the ranges. */
  lemma MaskIsSum(ranges: seq<Range>)
    ensures |Mask(ranges)| == MaxLast(ranges) / 8 + 1
    ensures BigEndian(Mask(ranges)) == Sum(ranges, 8 * |Mask(ranges)|)
    ensures forall i: nat | Covered(ranges, i) :: i < 8 * |Mask(ranges)|
  {
    BitsLength(ranges);
    var bits := BitsOf(ranges);
    BytesAreSum(ranges, bits);
    ReverseSwapsEnds(ToBytes(bits));
    forall i: nat | Covered(ranges, i)
      ensures i < |bits|
    {
      CoveredBound(ranges);
    }
  }

  lemma BytesAreSum(ranges: seq<Range>, bits: seq<bool>)
    requires bits == BitsOf(ranges)
    ensures |ToBytes(bits)| == |bits| / 8 && LittleEndian(ToBytes(bits)) == Sum(ranges, |bits|)
  {
    forall k: nat | k < |bits|
      ensures bits[k] <==> Covered(ranges, LocalIndex(k))
    {
      BitsMark(ranges, k);
    }
    LittleEndianIsSum(ranges, bits);
  }

  lemma {:induction false} SumBound(ranges: seq<Range>, n: nat)
    ensures Sum(ranges, n) < Pow2(n)
  {
    if n > 0 {
      SumBound(ranges, n - 1);
    }
  }

  lemma {:induction false} Apart(p: nat, a: nat, b: nat)
    requires a < b
    ensures p * a + p <= p * b
  {
    assert p * b == p * (b - 1) + p;
    if a < b - 1 {
      Apart(p, a, b - 1);
    }
  }

  lemma QuotientIsUnique(p: nat, q: nat, r: nat, d: nat, m: nat)
    requires r < p && m < p && p * q + r == p * d + m
    ensures q == d
  {
    if d < q {
      Apart(p, d, q);
    } else if q < d {
      Apart(p, q, d);
    }
  }

  lemma Quotient(x: nat, p: nat, q: nat, r: nat)
    requires r < p && x == p * q + r
    ensures x / p == q
  {
    QuotientIsUnique(p, q, r, x / p, x % p);
  }

  lemma EvenMultiple(a: nat, p: nat, k: nat, x: nat)
    requires p > 0 && x == a + p * (2 * k)
    ensures (x / p) % 2 == (a / p) % 2
  {
    var q, r := a / p, a % p;
    assert p * (q + 2 * k) == p * q + p * (2 * k);
    Quotient(x, p, q + 2 * k, r);
  }

  /** Digit i of the sum in base two tells whether i is covered. */
  lemma {:induction false} SumDigit(ranges: seq<Range>, n: nat, i: nat)
    requires i < n
    ensures (Sum(ranges, n) / Pow2(i)) % 2 == 1 <==> Covered(ranges, i)
  {
    SumBound(ranges, n - 1);
    var c := if Covered(ranges, n - 1) then 1 else 0;
    if i == n - 1 {
      Quotient(Sum(ranges, n), Pow2(i), c, Sum(ranges, i));
    } else {
      SumDigit(ranges, n - 1, i);
      var k := n - 2 - i;
      Pow2Add(i, k + 1);
      EvenMultiple(Sum(ranges, n - 1), Pow2(i), c * Pow2(k), Sum(ranges, n));
    }
  }

  /** Bit i of the mask as a number. */
  function MaskBit(mask: seq<Byte>, i: nat): nat {
    (BigEndian(mask) / Pow2(i)) % 2
  }

  lemma MaskDigit(ranges: seq<Range>, i: nat)
    ensures MaskBit(Mask(ranges), i) == 1 <==> Covered(ranges, i)
  {
    MaskIsSum(ranges);
    var n := 8 * |Mask(ranges)|;
    if i < n {
      SumDigit(ranges, n, i);
    } else {
      SumBound(ranges, n);
      Pow2Add(n, i - n);
      Apart(Pow2(n), 0, Pow2(i - n));
      Quotient(Sum(ranges, n), Pow2(i), 0, Sum(ranges, n));
    }
  }

  /** What both parsers make of one list: bit i of the mask is set exactly if a parsed range holds i. */
  lemma MaskHoldsTheParsedRanges(list: string, i: nat)
    requires list != "" && Ranges(list).Some?
    ensures MaskRanges(list).Some?
    ensures MaskBit(Mask(MaskRanges(list).value), i) == 1 <==> Covered(Ranges(list).value, i)
  {
    ParsersAgree(list);
    MaskDigit(Ranges(list).value, i);
  }

  // What both parsers accept, in terms of the text.

  /** A single number, or two with one '-' between them. */
  ghost predicate Denotes(part: string, r: Range) {
    || (ParseU64(part) == Some(r.first) && r.last == r.first)
    || exists i | 0 <= i < |part| ::
         part[i] == '-' && ParseU64(part[..i]) == Some(r.first) && ParseU64(part[i + 1..]) == Some(r.last)
  }

  lemma NumberIsFree(s: string, c: char)
    requires ParseU64(s).Some? && !IsDigit(c) && c != '+'
    ensures Free(s, {c})
  {
    var digits := if s[0] == '+' then s[1..] else s;
    assert s == digits || s == "+" + digits;
    assert AllDigits(digits);
  }

  lemma PairSplits(part: string, i: nat)
    requires i < |part| && part[i] == '-' && Free(part[..i], {'-'}) && Free(part[i + 1..], {'-'})
    ensures Split(part, {'-'}) == [part[..i], part[i + 1..]]
  {
    assert part == part[..i] + ['-'] + part[i + 1..];
    SplitConcat(part[..i], '-', part[i + 1..], {'-'});
    SplitFree(part[i + 1..], {'-'});
  }

  lemma TwoPieces(part: string)
    requires |Split(part, {'-'})| == 2
    ensures var pieces := Split(part, {'-'});
            var i := |pieces[0]|;
            i < |part| && part[i] == '-' && part[..i] == pieces[0] && part[i + 1..] == pieces[1]
  {
    var pieces := Split(part, {'-'});
    JoinSplit(part, '-');
    assert pieces == [pieces[0], pieces[1]] && pieces[1..] == [pieces[1]];
    assert part == pieces[0] + ['-'] + pieces[1];
  }

  /** A part is read as a range exactly if it denotes the range, and is malformed if it denotes none. */
  lemma PartIsExact(part: string, r: Range)
    ensures ParsePart(part) == Some(r) <==> Denotes(part, r)
    ensures ParsePart(part) == Some(r) <==>
              || (ParseU64(part) == Some(r.first) && r.last == r.first)
              || exists i | 0 <= i < |part| ::
                   part[i] == '-' && ParseU64(part[..i]) == Some(r.first) && ParseU64(part[i + 1..]) == Some(r.last)
  {
    if ParsePart(part) == Some(r) {
      if '-' in part {
        TwoPieces(part);
      }
    } else if ParseU64(part) == Some(r.first) {
      NumberIsFree(part, '-');
    } else if i: nat :|
        i < |part| && part[i] == '-'
        && ParseU64(part[..i]) == Some(r.first) && ParseU64(part[i + 1..]) == Some(r.last) {
      NumberIsFree(part[..i], '-');
      NumberIsFree(part[i + 1..], '-');
      PairSplits(part, i);
    }
  }

  ghost predicate AllDenote(parts: seq<string>, ranges: seq<Range>) {
    |ranges| == |parts| && forall i | 0 <= i < |parts| :: Denotes(parts[i], ranges[i])
  }

  lemma InitLast<T>(s: seq<T>)
    requires s != []
    ensures s == s[..|s| - 1] + [s[|s| - 1]]
  {
  }

  lemma LastOfSome(parts: seq<string>, ranges: seq<Range>)
    requires parts != [] && ranges != [] && ParseParts(ListParser, parts) == Some(ranges)
    ensures var n, m := |parts| - 1, |ranges| - 1;
            ParseParts(ListParser, parts[..n]) == Some(ranges[..m]) && ParsePart(parts[n]) == Some(ranges[m])
  {
    var before := ParseParts(ListParser, parts[..|parts| - 1]).value;
    var r := ParsePart(parts[|parts| - 1]).value;
    assert (before + [r])[..|before|] == before;
  }

  lemma {:induction false} AcceptedPartsDenote(parts: seq<string>, ranges: seq<Range>)
    requires ParseParts(ListParser, parts) == Some(ranges)
    ensures AllDenote(parts, ranges)
  {
    if parts != [] {
      var n := |parts| - 1;
      SomeIsNotEmpty(parts, ranges);
      LastOfSome(parts, ranges);
      var m := |ranges| - 1;
      AcceptedPartsDenote(parts[..n], ranges[..m]);
      LastDenotes(parts[n], ranges[m]);
      OneMoreDenotes(parts[..n], ranges[..m], parts[n], ranges[m]);
      InitLast(parts);
      InitLast(ranges);
    }
  }

  lemma OneMoreDenotes(parts: seq<string>, ranges: seq<Range>, part: string, r: Range)
    requires AllDenote(parts, ranges) && Denotes(part, r)
    ensures AllDenote(parts + [part], ranges + [r])
  {
  }

  lemma LastDenotes(part: string, r: Range)
    requires ParsePart(part) == Some(r)
    ensures Denotes(part, r)
  {
    PartIsExact(part, r);
  }

  lemma SomeIsNotEmpty(parts: seq<string>, ranges: seq<Range>)
    requires parts != [] && ParseParts(ListParser, parts) == Some(ranges)
    ensures ranges != []
  {
  }

  lemma InitDenotes(parts: seq<string>, ranges: seq<Range>)
    requires AllDenote(parts, ranges) && parts != []
    ensures var n := |parts| - 1;
            |ranges| == n + 1 && AllDenote(parts[..n], ranges[..n]) && Denotes(parts[n], ranges[n])
  {
  }

  lemma {:induction false} DenotingPartsAreAccepted(parts: seq<string>, ranges: seq<Range>)
    requires AllDenote(parts, ranges)
    ensures ParseParts(ListParser, parts) == Some(ranges)
  {
    if parts != [] {
      var n := |parts| - 1;
      InitDenotes(parts, ranges);
      DenotingPartsAreAccepted(parts[..n], ranges[..n]);
      PartIsExact(parts[n], ranges[n]);
      ParseOneMore(ListParser, parts[..n], parts[n], ranges[..n], ranges[n]);
      InitLast(parts);
      InitLast(ranges);
    }
  }

  lemma PartsAreExact(parts: seq<string>, ranges: seq<Range>)
    ensures ParseParts(ListParser, parts) == Some(ranges) <==> AllDenote(parts, ranges)
  {
    if ParseParts(ListParser, parts) == Some(ranges) {
      AcceptedPartsDenote(parts, ranges);
    } else if AllDenote(parts, ranges) {
      DenotingPartsAreAccepted(parts, ranges);
    }
  }

  /** A list is accepted exactly if each of its comma-separated parts denotes a range, by both parsers. */
  lemma ListIsExact(parts: seq<string>, ranges: seq<Range>)
    requires parts != [] && forall p | p in parts :: Free(p, {','})
    ensures MaskRanges(Join(parts, ",")) == Some(ranges) <==> AllDenote(parts, ranges)
    ensures Join(parts, ",") != "" ==> (Ranges(Join(parts, ",")) == Some(ranges) <==> AllDenote(parts, ranges))
  {
    SplitJoin(parts, ',');
    PartsAreExact(parts, ranges);
    AllPartsAgree(parts);
  }

  // The malformed lists of the unit tests, and a single number.

  lemma EmptyPartIsRejected()
    ensures MaskRanges("1-3,,") == Ranges("1-3,,") == None
  {
    SplitFree("", {','});
    SplitConcat("", ',', "", {','});
    SplitConcat("1-3", ',', ",", {','});
    assert "" + [','] + "" == "," && "1-3" + [','] + "," == "1-3,,";
    var parts := ["1-3", "", ""];
    assert Split("1-3,,", {','}) == parts;
    assert ParsePart("") == None && parts[2] == "";
    assert ParseParts(ListParser, parts) == None;
    ParsersAgree("1-3,,");
  }

  lemma SecondDashIsRejected()
    ensures MaskRanges("1-3-4") == Ranges("1-3-4") == None
  {
    SplitFree("1-3-4", {','});
    DashTwice();
    assert ["1-3-4"][..0] == [];
    assert ParseParts(ListParser, ["1-3-4"]) == None;
    ParsersAgree("1-3-4");
  }

  lemma SingleNumberIsItsRange()
    ensures MaskRanges("7") == Ranges("7") == Some([Range(7, 7)])
  {
    SplitFree("7", {','});
    assert Value("7") == 7 by {
      assert "7"[..0] == "";
    }
    assert ParseU64("7") == Some(7);
    DenotingPartsAreAccepted(["7"], [Range(7, 7)]);
    ParsersAgree("7");
  }

  lemma DashTwice()
    ensures ParsePart("1-3-4") == None
  {
    SplitFree("4", {'-'});
    SplitConcat("3", '-', "4", {'-'});
    SplitConcat("1", '-', "3-4", {'-'});
    assert "3" + ['-'] + "4" == "3-4" && "1" + ['-'] + "3-4" == "1-3-4";
    assert "1-3-4"[1] == '-';
  }

  // Printing: every list of ranges can be written and read back by both parsers.

  function PrintRange(r: Range): string {
    PrintNat(r.first) + ['-'] + PrintNat(r.last)
  }

  function PrintAll(ranges: seq<Range>): (parts: seq<string>)
    ensures |parts| == |ranges|
  {
    if ranges == [] then [] else PrintAll(ranges[..|ranges| - 1]) + [PrintRange(ranges[|ranges| - 1])]
  }

  function PrintRanges(ranges: seq<Range>): string {
    Join(PrintAll(ranges), ",")
  }

  predicate Printable(ranges: seq<Range>) {
    forall r | r in ranges :: r.first <= U64_MAX && r.last <= U64_MAX
  }

  lemma RangeRoundTrip(r: Range)
    requires r.first <= U64_MAX && r.last <= U64_MAX
    ensures Free(PrintRange(r), {','}) && ParsePart(PrintRange(r)) == Some(r)
  {
    var a, b := PrintNat(r.first), PrintNat(r.last);
    PrintHasNoSeparator(r.first, '-');
    PrintHasNoSeparator(r.last, '-');
    SplitConcat(a, '-', b, {'-'});
    SplitFree(b, {'-'});
    UnsignedRoundTrip(r.first, U64_MAX);
    UnsignedRoundTrip(r.last, U64_MAX);
    assert (a + ['-'] + b)[|a|] == '-';
    PrintHasNoSeparator(r.first, ',');
    PrintHasNoSeparator(r.last, ',');
  }

  lemma ParseOneMore(parser: Parser, parts: seq<string>, part: string, ranges: seq<Range>, r: Range)
    requires ParseParts(parser, parts) == Some(ranges) && parser.Part(part) == Some(r)
    ensures ParseParts(parser, parts + [part]) == Some(ranges + [r])
  {
    assert (parts + [part])[..|parts|] == parts;
  }

  lemma {:induction false} PartsRoundTrip(ranges: seq<Range>)
    requires Printable(ranges)
    ensures ParseParts(ListParser, PrintAll(ranges)) == Some(ranges)
  {
    if ranges != [] {
      var init, r := ranges[..|ranges| - 1], ranges[|ranges| - 1];
      PartsRoundTrip(init);
      assert r in ranges;
      RangeRoundTrip(r);
      ParseOneMore(ListParser, PrintAll(init), PrintRange(r), init, r);
      assert ranges == init + [r];
    }
  }

  lemma {:induction false} PartsAreFree(ranges: seq<Range>)
    requires Printable(ranges)
    ensures forall p | p in PrintAll(ranges) :: p != "" && Free(p, {','})
  {
    if ranges != [] {
      var init, r := ranges[..|ranges| - 1], ranges[|ranges| - 1];
      PartsAreFree(init);
      assert r in ranges;
      RangeRoundTrip(r);
    }
  }

  /** Any list of ranges, printed, is read back by both parsers. */
  lemma ListRoundTrip(ranges: seq<Range>)
    requires ranges != [] && Printable(ranges)
    ensures Ranges(PrintRanges(ranges)) == Some(ranges) == MaskRanges(PrintRanges(ranges))
  {
    PartsRoundTrip(ranges);
    PartsAreFree(ranges);
    SplitJoin(PrintAll(ranges), ',');
    assert PrintAll(ranges)[0] in PrintAll(ranges);
    assert PrintRanges(ranges) != "";
    ParsersAgree(PrintRanges(ranges));
  }
}
