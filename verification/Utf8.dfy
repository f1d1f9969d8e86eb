/** UTF-8 (RFC 3629, sections 3 and 4): encoding, and the lossy decoding that puts U+FFFD in place of what is not
    UTF-8. */
module Utf8 {
  import opened Common

  type Byte = b: nat | b < 256

  type Scalar = c: nat | c < 0x11_0000 && !(0xD800 <= c < 0xE000)

  const REPLACEMENT: Scalar := 0xFFFD

  // ----- encoding

  function Encode(c: Scalar): (s: seq<Byte>)
    ensures 1 <= |s| <= 4
  {
    var q := c / 0x40;
    var r := q / 0x40;
    if c < 0x80 then [c]
    else if c < 0x800 then [0xC0 + q, 0x80 + c % 0x40]
    else if c < 0x1_0000 then [0xE0 + r, 0x80 + q % 0x40, 0x80 + c % 0x40]
    else [0xF0 + r / 0x40, 0x80 + r % 0x40, 0x80 + q % 0x40, 0x80 + c % 0x40]
  }

  function EncodeText(text: seq<Scalar>): seq<Byte> {
    if text == [] then [] else Encode(text[0]) + EncodeText(text[1..])
  }

  // ----- lossy decoding

  /** One step: a scalar value, or nothing for a maximal invalid part, and how many bytes it took. */
  datatype Step = Step(scalar: Option<Scalar>, consumed: nat)

  /** Bytes past the end read as zero, which continues nothing. */
  function ByteAt(bytes: seq<Byte>, i: nat): Byte {
    if i < |bytes| then bytes[i] else 0
  }

  predicate IsContinuation(b: Byte) { 0x80 <= b < 0xC0 }

  /** The second bytes that may follow the first byte of a three-byte or four-byte sequence. */
  predicate SecondFits(first: Byte, second: Byte) {
    if first == 0xE0 then 0xA0 <= second <= 0xBF
    else if first == 0xED then 0x80 <= second <= 0x9F
    else if first == 0xF0 then 0x90 <= second <= 0xBF
    else if first == 0xF4 then 0x80 <= second <= 0x8F
    else IsContinuation(second)
  }

  function DecodeBytes(b0: Byte, b1: Byte, b2: Byte, b3: Byte): (s: Step)
    ensures 1 <= s.consumed <= 4
  {
    if b0 < 0x80 then Step(Some(b0), 1)
    else if 0xC2 <= b0 <= 0xDF then
      if !IsContinuation(b1) then Step(None, 1)
      else Step(Some((b0 - 0xC0) * 0x40 + (b1 - 0x80)), 2)
    else if 0xE0 <= b0 <= 0xEF then
      if !SecondFits(b0, b1) then Step(None, 1)
      else if !IsContinuation(b2) then Step(None, 2)
      else Step(Some(((b0 - 0xE0) * 0x40 + (b1 - 0x80)) * 0x40 + (b2 - 0x80)), 3)
    else if 0xF0 <= b0 <= 0xF4 then
      if !SecondFits(b0, b1) then Step(None, 1)
      else if !IsContinuation(b2) then Step(None, 2)
      else if !IsContinuation(b3) then Step(None, 3)
      else Step(Some((((b0 - 0xF0) * 0x40 + (b1 - 0x80)) * 0x40 + (b2 - 0x80)) * 0x40 + (b3 - 0x80)), 4)
    else Step(None, 1)
  }

  function DecodeStep(bytes: seq<Byte>): (s: Step)
    requires bytes != []
    ensures 1 <= s.consumed <= |bytes|
  {
    DecodeBytes(bytes[0], ByteAt(bytes, 1), ByteAt(bytes, 2), ByteAt(bytes, 3))
  }

  function Lossy(bytes: seq<Byte>): seq<Scalar>
    decreases |bytes|
  {
    if bytes == [] then []
    else
      var s := DecodeStep(bytes);
      [if s.scalar.Some? then s.scalar.value else REPLACEMENT] + Lossy(bytes[s.consumed..])
  }

  /** A byte that no encoding has becomes U+FFFD. */
  lemma InvalidByteIsReplaced()
    ensures Lossy([0xFF]) == [0xFFFD]
  {
    assert [0xFF][1..] == [];
  }

  predicate EndsInReplacement(text: seq<Scalar>) {
    text != [] && text[|text| - 1] == REPLACEMENT
  }

  // ----- one scalar value

  /** The first bytes as a step reads them, when `part` comes first. */
  lemma ReadsPart(part: seq<Byte>, rest: seq<Byte>)
    requires 1 <= |part| <= 4
    ensures (part + rest)[0] == part[0]
    ensures forall i: nat :: i < |part| ==> ByteAt(part + rest, i) == part[i]
    ensures rest == [] ==> forall i: nat :: |part| <= i ==> ByteAt(part + rest, i) == 0
  {
  }

  /** Decoding undoes encoding, whatever follows. */
  lemma EncodeDecodes(c: Scalar, rest: seq<Byte>)
    ensures DecodeStep(Encode(c) + rest) == Step(Some(c), |Encode(c)|)
  {
    var e, bytes := Encode(c), Encode(c) + rest;
    ReadsPart(e, rest);
    EncodedBytesDecode(c, ByteAt(bytes, 1), ByteAt(bytes, 2), ByteAt(bytes, 3));
  }

  lemma EncodedBytesDecode(c: Scalar, b1: Byte, b2: Byte, b3: Byte)
    requires |Encode(c)| > 1 ==> b1 == Encode(c)[1]
    requires |Encode(c)| > 2 ==> b2 == Encode(c)[2]
    requires |Encode(c)| > 3 ==> b3 == Encode(c)[3]
    ensures DecodeBytes(Encode(c)[0], b1, b2, b3) == Step(Some(c), |Encode(c)|)
  {
    var q := c / 0x40;
    var r := q / 0x40;
    assert c == q * 0x40 + c % 0x40 && q == r * 0x40 + q % 0x40 && r == r / 0x40 * 0x40 + r % 0x40;
  }

  /** A step that yields a scalar value took exactly its encoding. */
  lemma DecodeEncodes(bytes: seq<Byte>)
    requires bytes != [] && DecodeStep(bytes).scalar.Some?
    ensures bytes[..DecodeStep(bytes).consumed] == Encode(DecodeStep(bytes).scalar.value)
  {
    DecodedBytesEncode(bytes[0], ByteAt(bytes, 1), ByteAt(bytes, 2), ByteAt(bytes, 3));
  }

  lemma DecodedBytesEncode(b0: Byte, b1: Byte, b2: Byte, b3: Byte)
    requires DecodeBytes(b0, b1, b2, b3).scalar.Some?
    ensures Encode(DecodeBytes(b0, b1, b2, b3).scalar.value) == [b0, b1, b2, b3][..DecodeBytes(b0, b1, b2, b3).consumed]
  {
    var c := DecodeBytes(b0, b1, b2, b3).scalar.value;
    if 0xE0 <= b0 <= 0xEF {
      var q := (b0 - 0xE0) * 0x40 + (b1 - 0x80);
      assert c / 0x40 == q && q / 0x40 == b0 - 0xE0;
    } else if 0xF0 <= b0 {
      var r := (b0 - 0xF0) * 0x40 + (b1 - 0x80);
      var q := r * 0x40 + (b2 - 0x80);
      assert c / 0x40 == q && q / 0x40 == r && r / 0x40 == b0 - 0xF0;
    }
  }

  /** What a byte holds beside its leading bits. */
  function Bits(b: int, leading: int): int { b - leading }

  /** The table of RFC 3629, section 3: how long an encoding is, what its bytes look like, and where the bits are. */
  lemma EncodingTable(c: Scalar)
    ensures var s := Encode(c);
            |s| == (if c < 0x80 then 1 else if c < 0x800 then 2 else if c < 0x1_0000 then 3 else 4) &&
            (forall i :: 1 <= i < |s| ==> 0x80 <= s[i] <= 0xBF) &&
            match |s|
            case 1 => c == s[0]
            case 2 => 0xC0 <= s[0] <= 0xDF && c == Bits(s[0], 0xC0) * 0x40 + Bits(s[1], 0x80)
            case 3 => 0xE0 <= s[0] <= 0xEF &&
                      c == Bits(s[0], 0xE0) * 0x1000 + Bits(s[1], 0x80) * 0x40 + Bits(s[2], 0x80)
            case _ => 0xF0 <= s[0] <= 0xF7 &&
                      c == Bits(s[0], 0xF0) * 0x4_0000 + Bits(s[1], 0x80) * 0x1000 + Bits(s[2], 0x80) * 0x40
                           + Bits(s[3], 0x80)
  {
    var q := c / 0x40;
    var r := q / 0x40;
    assert c == q * 0x40 + c % 0x40 && q == r * 0x40 + q % 0x40 && r == r / 0x40 * 0x40 + r % 0x40;
  }

  /** A proper part of an encoding is one invalid part as a whole. */
  lemma PartialIsInvalid(c: Scalar, n: nat)
    requires 0 < n < |Encode(c)|
    ensures DecodeStep(Encode(c)[..n]) == Step(None, n)
  {
    var e, part := Encode(c), Encode(c)[..n];
    assert part + [] == part;
    ReadsPart(part, []);
    PartialBytesFail(c, n, ByteAt(part, 1), ByteAt(part, 2), ByteAt(part, 3));
  }

  lemma PartialBytesFail(c: Scalar, n: nat, b1: Byte, b2: Byte, b3: Byte)
    requires 0 < n < |Encode(c)|
    requires b1 == if n > 1 then Encode(c)[1] else 0
    requires b2 == if n > 2 then Encode(c)[2] else 0
    requires b3 == 0
    ensures DecodeBytes(Encode(c)[0], b1, b2, b3) == Step(None, n)
  {
  }

  /** The bytes are a proper part of the encoding of some scalar value. */
  ghost predicate IsPart(part: seq<Byte>) {
    exists c: Scalar :: 0 < |part| < |Encode(c)| && part == Encode(c)[..|part|]
  }

  lemma PartialBytesReach(c: Scalar, n: nat, b1: Byte, b2: Byte, b3: Byte)
    requires 0 < n < |Encode(c)|
    requires (n > 1 ==> b1 == Encode(c)[1]) && (n > 2 ==> b2 == Encode(c)[2])
    ensures DecodeBytes(Encode(c)[0], b1, b2, b3).consumed >= n
  {
  }

  lemma PartReaches(bytes: seq<Byte>, m: nat)
    requires 0 < m <= |bytes| && IsPart(bytes[..m])
    ensures DecodeStep(bytes).consumed >= m
  {
    var c: Scalar :| m < |Encode(c)| && bytes[..m] == Encode(c)[..m];
    assert forall i :: 0 <= i < m ==> bytes[..m][i] == bytes[i] && Encode(c)[..m][i] == Encode(c)[i];
    PartialBytesReach(c, m, ByteAt(bytes, 1), ByteAt(bytes, 2), ByteAt(bytes, 3));
  }

  /** An invalid part is the longest beginning that is a proper part of some encoding, or one byte; and no encoding
      stands there. */
  lemma InvalidPartIsLongest(bytes: seq<Byte>, m: nat, c: Scalar)
    requires bytes != [] && DecodeStep(bytes).scalar.None?
    ensures DecodeStep(bytes).consumed > 1 ==> IsPart(bytes[..DecodeStep(bytes).consumed])
    ensures DecodeStep(bytes).consumed < m <= |bytes| ==> !IsPart(bytes[..m])
    ensures !(Encode(c) <= bytes)
  {
    var n := DecodeStep(bytes).consumed;
    if n > 1 {
      InvalidBytesArePart(bytes[0], ByteAt(bytes, 1), ByteAt(bytes, 2), ByteAt(bytes, 3));
      assert bytes[..n] == [bytes[0], ByteAt(bytes, 1), ByteAt(bytes, 2)][..n];
    }
    if n < m <= |bytes| && IsPart(bytes[..m]) {
      PartReaches(bytes, m);
    }
    if Encode(c) <= bytes {
      assert Encode(c) + bytes[|Encode(c)|..] == bytes;
      EncodeDecodes(c, bytes[|Encode(c)|..]);
    }
  }

  lemma InvalidBytesArePart(b0: Byte, b1: Byte, b2: Byte, b3: Byte)
    requires DecodeBytes(b0, b1, b2, b3).scalar.None? && DecodeBytes(b0, b1, b2, b3).consumed > 1
    ensures DecodeBytes(b0, b1, b2, b3).consumed <= 3
    ensures IsPart([b0, b1, b2][..DecodeBytes(b0, b1, b2, b3).consumed])
  {
    var n := DecodeBytes(b0, b1, b2, b3).consumed;
    var third := if n > 2 then b2 else 0x80;
    DecodedBytesEncode(b0, b1, third, 0x80);
    var c := DecodeBytes(b0, b1, third, 0x80).scalar.value;
    assert [b0, b1, b2][..n] == Encode(c)[..n];
  }

  /** What follows changes a step only if the step is invalid and reaches the end of the bytes. */
  lemma StepIgnoresRest(a: seq<Byte>, b: seq<Byte>)
    requires a != [] && (DecodeStep(a).scalar.Some? || DecodeStep(a).consumed < |a|)
    ensures DecodeStep(a + b) == DecodeStep(a)
  {
  }

  // ----- whole texts

  /** Bytes that do not end in an invalid part decode apart from whatever follows them. */
  lemma {:induction false} LossyConcat(a: seq<Byte>, b: seq<Byte>)
    requires !EndsInReplacement(Lossy(a))
    ensures Lossy(a + b) == Lossy(a) + Lossy(b)
    decreases |a|
  {
    hide DecodeStep;
    if a == [] {
      assert a + b == b;
    } else {
      var n := DecodeStep(a).consumed;
      assert n == |a| ==> a[n..] == [];
      StepIgnoresRest(a, b);
      assert (a + b)[n..] == a[n..] + b;
      LossyConcat(a[n..], b);
    }
  }

  lemma {:induction false} EncodeTextConcat(a: seq<Scalar>, b: seq<Scalar>)
    ensures EncodeText(a + b) == EncodeText(a) + EncodeText(b)
    decreases |a|
  {
    if a == [] {
      assert a + b == b;
    } else {
      assert (a + b)[1..] == a[1..] + b;
      EncodeTextConcat(a[1..], b);
    }
  }

  /** Encoded text followed by part of one more encoding decodes to the text, and U+FFFD if the part is not empty. */
  lemma {:induction false} LossyOfText(text: seq<Scalar>, next: Scalar, n: nat)
    requires n < |Encode(next)|
    ensures Lossy(EncodeText(text) + Encode(next)[..n]) == text + if n == 0 then [] else [REPLACEMENT]
    decreases |text|
  {
    hide Encode, DecodeStep;
    var part := Encode(next)[..n];
    if text == [] {
      assert EncodeText(text) + part == part;
      if n > 0 {
        PartialIsInvalid(next, n);
      }
    } else {
      var rest := EncodeText(text[1..]) + part;
      assert EncodeText(text) + part == Encode(text[0]) + rest;
      EncodeDecodes(text[0], rest);
      assert (Encode(text[0]) + rest)[|Encode(text[0])|..] == rest;
      LossyOfText(text[1..], next, n);
    }
  }

  /** The round trip: the lossy decoding loses nothing of valid UTF-8. */
  lemma LossyInvertsEncode(text: seq<Scalar>)
    ensures Lossy(EncodeText(text)) == text
  {
    LossyOfText(text, 0, 0);
    assert EncodeText(text) + Encode(0)[..0] == EncodeText(text);
  }

  /** Whether the first n bytes of a text end on a code point boundary. */
  ghost predicate OnBoundary(text: seq<Scalar>, n: nat) {
    exists k: nat :: k <= |text| && n == |EncodeText(text[..k])|
  }

  /** Splits the first n bytes of a text into whole encodings and part of the next one. */
  lemma {:induction false} PrefixSplits(text: seq<Scalar>, n: nat) returns (k: nat, next: Scalar, m: nat)
    requires n <= |EncodeText(text)|
    ensures k <= |text| && m < |Encode(next)| && (m > 0 ==> k < |text| && next == text[k])
    ensures EncodeText(text)[..n] == EncodeText(text[..k]) + Encode(next)[..m]
    decreases |text|
  {
    hide Encode;
    if text == [] {
      k, next, m := 0, 0, 0;
    } else if n < |Encode(text[0])| {
      k, next, m := 0, text[0], n;
      assert EncodeText(text)[..n] == Encode(next)[..m];
    } else {
      var head := Encode(text[0]);
      k, next, m := PrefixSplits(text[1..], n - |head|);
      assert text[..k + 1][1..] == text[1..][..k];
      assert EncodeText(text)[..n] == head + EncodeText(text[1..])[..n - |head|];
      k := k + 1;
    }
  }

  lemma {:induction false} EncodeTextGrows(text: seq<Scalar>, i: nat, j: nat)
    requires i <= j <= |text|
    ensures EncodeText(text[..j]) == EncodeText(text[..i]) + EncodeText(text[i..j])
    ensures |EncodeText(text[i..j])| >= j - i
  {
    assert text[..j] == text[..i] + text[i..j];
    EncodeTextConcat(text[..i], text[i..j]);
    EncodeTextLength(text[i..j]);
  }

  lemma {:induction false} EncodeTextLength(text: seq<Scalar>)
    ensures |EncodeText(text)| >= |text|
  {
    if text != [] {
      EncodeTextLength(text[1..]);
    }
  }

  /** For a part of a valid text: it ends on a code point boundary exactly when its decoding is a beginning of the text,
      and its decoding ends in U+FFFD exactly when it does not end on a boundary or ends in a U+FFFD of the text. */
  lemma PrefixDecoding(text: seq<Scalar>, n: nat) returns (k: nat)
    requires n <= |EncodeText(text)|
    ensures k <= |text| && |EncodeText(text[..k])| <= n
    ensures OnBoundary(text, n) <==> n == |EncodeText(text[..k])|
    ensures OnBoundary(text, n) ==> Lossy(EncodeText(text)[..n]) == text[..k]
    ensures !OnBoundary(text, n) ==> Lossy(EncodeText(text)[..n]) == text[..k] + [REPLACEMENT]
  {
    var next, m;
    k, next, m := PrefixSplits(text, n);
    LossyOfText(text[..k], next, m);
    if OnBoundary(text, n) {
      var j: nat :| j <= |text| && n == |EncodeText(text[..j])|;
      BoundaryIsExact(text, k, next, m, j);
    }
  }

  lemma BoundaryIsExact(text: seq<Scalar>, k: nat, next: Scalar, m: nat, j: nat)
    requires k <= |text| && m < |Encode(next)| && (m > 0 ==> k < |text| && next == text[k]) && j <= |text|
    requires |EncodeText(text[..j])| == |EncodeText(text[..k])| + m
    ensures m == 0
  {
    if j <= k {
      EncodeTextGrows(text, j, k);
    } else {
      EncodeTextFirst(text, k, j);
      EncodeTextGrows(text, k, j);
    }
  }

  lemma EncodeTextFirst(text: seq<Scalar>, i: nat, j: nat)
    requires i < j <= |text|
    ensures |EncodeText(text[i..j])| >= |Encode(text[i])|
  {
  }
}
