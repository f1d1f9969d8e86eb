/** Streaming of generated text: a cursor into a growing byte buffer. */
module Streaming {
  import opened Common
  import opened Utf8

  /** The characters with the Unicode property White_Space. */
  predicate IsWhitespace(c: Scalar) {
    0x09 <= c <= 0x0D || c == 0x20 || c == 0x85 || c == 0xA0 || c == 0x1680 || 0x2000 <= c <= 0x200A ||
    c == 0x2028 || c == 0x2029 || c == 0x202F || c == 0x205F || c == 0x3000
  }

  function TrimStart(text: seq<Scalar>): seq<Scalar> {
    if text != [] && IsWhitespace(text[0]) then TrimStart(text[1..]) else text
  }

  /** A text without its leading whitespace. */
  ghost predicate IsTrimmed(text: seq<Scalar>, trimmed: seq<Scalar>) {
    (trimmed == [] || !IsWhitespace(trimmed[0])) &&
    exists cut: nat :: cut <= |text| && trimmed == text[cut..] && AllWhitespace(text[..cut])
  }

  ghost predicate AllWhitespace(text: seq<Scalar>) { forall c <- text :: IsWhitespace(c) }

  /** Trimming cuts off whitespace, all of it, and nothing else. */
  lemma {:induction false} TrimStartTrims(text: seq<Scalar>)
    ensures IsTrimmed(text, TrimStart(text))
    decreases |text|
  {
    hide IsWhitespace;
    if text != [] && IsWhitespace(text[0]) {
      TrimStartTrims(text[1..]);
      var cut: nat :| cut <= |text[1..]| && TrimStart(text) == text[1..][cut..] && AllWhitespace(text[1..][..cut]);
      assert text[..cut + 1] == [text[0]] + text[1..][..cut] && text[cut + 1..] == text[1..][cut..];
    } else {
      assert text[0..] == text && AllWhitespace(text[..0]);
    }
  }

  /** There is only one way to trim. */
  lemma TrimmedIsUnique(text: seq<Scalar>, a: seq<Scalar>, b: seq<Scalar>)
    requires IsTrimmed(text, a) && IsTrimmed(text, b)
    ensures a == b
  {
    var i: nat :| i <= |text| && a == text[i..] && AllWhitespace(text[..i]);
    var j: nat :| j <= |text| && b == text[j..] && AllWhitespace(text[..j]);
    if i < j {
      WhitespaceAt(text, i, j);
    } else if j < i {
      WhitespaceAt(text, j, i);
    }
  }

  lemma WhitespaceAt(text: seq<Scalar>, i: nat, cut: nat)
    requires i < cut <= |text| && AllWhitespace(text[..cut])
    ensures IsWhitespace(text[i])
  {
    assert text[i] in text[..cut];
  }

  /** The 25 characters, by code point. */
  lemma WhitespaceCharacters(c: Scalar)
    ensures IsWhitespace(c) <==>
              c in {0x09, 0x0A, 0x0B, 0x0C, 0x0D, 0x20, 0x85, 0xA0, 0x1680,
                    0x2000, 0x2001, 0x2002, 0x2003, 0x2004, 0x2005, 0x2006, 0x2007, 0x2008, 0x2009, 0x200A,
                    0x2028, 0x2029, 0x202F, 0x205F, 0x3000}
  {
  }

  /** A space before the first letter is not returned. */
  lemma FirstSpaceIsTrimmed()
    ensures Delta([0x20, 0x61], 0) == Some([0x61])
  {
    assert [0x20, 0x61][0..] == [0x20, 0x61] && [0x20, 0x61][1..] == [0x61] && [0x61][1..] == [];
    assert Lossy([0x61]) == [0x61] && Lossy([0x20, 0x61]) == [0x20, 0x61];
    assert TrimStart([0x20, 0x61]) == TrimStart([0x61]) == [0x61];
  }

  /** What a peek at the buffer returns: nothing if the pending bytes decode to text that ends in U+FFFD. */
  function Delta(bytes: seq<Byte>, streamIdx: nat): Option<seq<Scalar>>
    requires streamIdx <= |bytes|
  {
    var decoded := Lossy(bytes[streamIdx..]);
    if EndsInReplacement(decoded) then None
    else if streamIdx == 0 then Some(TrimStart(decoded))
    else Some(decoded)
  }

  /** What holds between the buffer, the cursor and everything emitted so far. Only what was emitted while the
      cursor stood at 0, the first firstCut bytes, lost its leading whitespace. */
  ghost predicate Streamed(bytes: seq<Byte>, streamIdx: nat, firstCut: nat, emitted: seq<Scalar>) {
    && firstCut <= streamIdx <= |bytes|
    && (firstCut == 0 <==> streamIdx == 0)
    && !EndsInReplacement(Lossy(bytes[..firstCut]))
    && !EndsInReplacement(Lossy(bytes[..streamIdx]))
    && emitted == TrimStart(Lossy(bytes[..firstCut])) + Lossy(bytes[firstCut..streamIdx])
  }

  lemma NothingStreamed(bytes: seq<Byte>)
    ensures Streamed(bytes, 0, 0, [])
  {
  }

  /** More bytes change nothing about what was emitted. */
  lemma StreamedGrows(bytes: seq<Byte>, more: seq<Byte>, streamIdx: nat, firstCut: nat, emitted: seq<Scalar>)
    requires Streamed(bytes, streamIdx, firstCut, emitted)
    ensures Streamed(bytes + more, streamIdx, firstCut, emitted)
  {
    assert (bytes + more)[..firstCut] == bytes[..firstCut];
    assert (bytes + more)[..streamIdx] == bytes[..streamIdx];
    assert (bytes + more)[firstCut..streamIdx] == bytes[firstCut..streamIdx];
  }

  /** Decoding a stretch of the buffer in two parts, when the first part does not end in an invalid part. */
  lemma LossySplit(bytes: seq<Byte>, i: nat, j: nat, k: nat)
    requires i <= j <= k <= |bytes| && !EndsInReplacement(Lossy(bytes[i..j]))
    ensures Lossy(bytes[i..k]) == Lossy(bytes[i..j]) + Lossy(bytes[j..k])
  {
    assert bytes[i..k] == bytes[i..j] + bytes[j..k];
    LossyConcat(bytes[i..j], bytes[j..k]);
  }

  lemma LossyEmpty(bytes: seq<Byte>)
    ensures Lossy(bytes) == [] <==> bytes == []
  {
  }

  lemma Slices(bytes: seq<Byte>, i: nat)
    requires i <= |bytes|
    ensures bytes[0..i] == bytes[..i] && bytes[i..|bytes|] == bytes[i..] && bytes[i..i] == []
    ensures bytes[..|bytes|] == bytes == bytes[0..]
  {
  }

  /** A delta advances the cursor to the end of the buffer and keeps the relation. */
  lemma DeltaKeepsStreamed(bytes: seq<Byte>, streamIdx: nat, firstCut: nat, emitted: seq<Scalar>)
    requires Streamed(bytes, streamIdx, firstCut, emitted) && Delta(bytes, streamIdx).Some?
    ensures Streamed(bytes, |bytes|, if streamIdx == 0 then |bytes| else firstCut,
                     emitted + Delta(bytes, streamIdx).value)
  {
    if streamIdx == 0 {
      FirstDeltaStreams(bytes, emitted);
    } else {
      LaterDeltaStreams(bytes, streamIdx, firstCut, emitted);
    }
  }

  lemma FirstDeltaStreams(bytes: seq<Byte>, emitted: seq<Scalar>)
    requires Streamed(bytes, 0, 0, emitted) && Delta(bytes, 0).Some?
    ensures Streamed(bytes, |bytes|, |bytes|, emitted + Delta(bytes, 0).value)
  {
    hide Lossy, TrimStart;
    Slices(bytes, 0);
    Slices(bytes, |bytes|);
    LossyEmpty([]);
    TrimNothing();
    assert emitted == [];
    assert TrimStart(Lossy(bytes)) + [] == [] + TrimStart(Lossy(bytes));
  }

  lemma LaterDeltaStreams(bytes: seq<Byte>, streamIdx: nat, firstCut: nat, emitted: seq<Scalar>)
    requires Streamed(bytes, streamIdx, firstCut, emitted) && streamIdx > 0 && Delta(bytes, streamIdx).Some?
    ensures Streamed(bytes, |bytes|, firstCut, emitted + Delta(bytes, streamIdx).value)
  {
    hide Lossy, TrimStart;
    Slices(bytes, streamIdx);
    Slices(bytes, |bytes|);
    LossySplit(bytes, 0, streamIdx, |bytes|);
    LossyEmpty([]);
    CutSplit(bytes, streamIdx, firstCut);
    var pending := Lossy(bytes[streamIdx..]);
    assert (TrimStart(Lossy(bytes[..firstCut])) + Lossy(bytes[firstCut..streamIdx])) + pending
        == TrimStart(Lossy(bytes[..firstCut])) + (Lossy(bytes[firstCut..streamIdx]) + pending);
  }

  lemma CutSplit(bytes: seq<Byte>, streamIdx: nat, firstCut: nat)
    requires firstCut <= streamIdx <= |bytes|
    requires !EndsInReplacement(Lossy(bytes[..firstCut])) && !EndsInReplacement(Lossy(bytes[..streamIdx]))
    ensures Lossy(bytes[firstCut..|bytes|]) == Lossy(bytes[firstCut..streamIdx]) + Lossy(bytes[streamIdx..])
  {
    hide Lossy;
    Slices(bytes, firstCut);
    Slices(bytes, streamIdx);
    LossySplit(bytes, 0, firstCut, streamIdx);
    LossySplit(bytes, firstCut, streamIdx, |bytes|);
  }

  lemma TrimNothing()
    ensures TrimStart([]) == []
  {
  }

  /** Faithful for all bytes whatsoever: what was emitted is the lossy decoding of the bytes before the cursor,
      apart from the whitespace trimmed off the very first delta. */
  lemma EmittedIsDecoding(bytes: seq<Byte>, streamIdx: nat, firstCut: nat, emitted: seq<Scalar>)
    requires Streamed(bytes, streamIdx, firstCut, emitted)
    ensures Lossy(bytes[..streamIdx]) == Lossy(bytes[..firstCut]) + Lossy(bytes[firstCut..streamIdx])
    ensures emitted
              == TrimStart(Lossy(bytes[..streamIdx])[..|Lossy(bytes[..firstCut])|])
                + Lossy(bytes[..streamIdx])[|Lossy(bytes[..firstCut])|..]
  {
    hide Lossy, TrimStart;
    Slices(bytes, streamIdx);
    Slices(bytes, firstCut);
    LossySplit(bytes, 0, firstCut, streamIdx);
  }

  /** While the buffer is part of a valid text, the cursor stands on code point boundaries, and what was emitted
      is the text up to there. */
  lemma StreamsText(text: seq<Scalar>, n: nat, streamIdx: nat, firstCut: nat, emitted: seq<Scalar>)
    returns (first: nat, k: nat)
    requires n <= |EncodeText(text)| && Streamed(EncodeText(text)[..n], streamIdx, firstCut, emitted)
    ensures first <= k <= |text|
    ensures firstCut == |EncodeText(text[..first])| && streamIdx == |EncodeText(text[..k])|
    ensures emitted == TrimStart(text[..first]) + text[first..k]
  {
    hide Lossy, TrimStart, EncodeText;
    var bytes := EncodeText(text)[..n];
    assert bytes[..firstCut] == EncodeText(text)[..firstCut] && bytes[..streamIdx] == EncodeText(text)[..streamIdx];
    first := PrefixDecoding(text, firstCut);
    k := PrefixDecoding(text, streamIdx);
    assert Lossy(bytes[..firstCut]) == text[..first] && Lossy(bytes[..streamIdx]) == text[..k];
    EmittedIsDecoding(bytes, streamIdx, firstCut, emitted);
    assert |text[..first]| <= |text[..k]|;
    assert text[..k][..first] == text[..first] && text[..k][first..] == text[first..k];
  }

  /** While the buffer is part of a valid text, a delta is returned exactly when nothing is pending, or the buffer ends
      on a code point boundary and not in a U+FFFD that belongs to the text. */
  lemma DeltaExactly(text: seq<Scalar>, n: nat, streamIdx: nat, firstCut: nat, emitted: seq<Scalar>)
    requires n <= |EncodeText(text)| && Streamed(EncodeText(text)[..n], streamIdx, firstCut, emitted)
    ensures var bytes := EncodeText(text)[..n];
            Delta(bytes, streamIdx).Some? <==>
              streamIdx == n || (OnBoundary(text, n) && !EndsInReplacement(Lossy(bytes)))
    ensures REPLACEMENT !in text ==> (Delta(EncodeText(text)[..n], streamIdx).Some? <==> OnBoundary(text, n))
  {
    hide Lossy, TrimStart, EncodeText, OnBoundary;
    var bytes := EncodeText(text)[..n];
    var pending := bytes[streamIdx..];
    Slices(bytes, streamIdx);
    LossySplit(bytes, 0, streamIdx, n);
    LossyEmpty(pending);
    assert EndsInReplacement(Lossy(pending)) <==> pending != [] && EndsInReplacement(Lossy(bytes));
    var k := PrefixDecoding(text, n);
    if REPLACEMENT !in text {
      assert k > 0 ==> text[..k][k - 1] in text;
    }
  }

  /** A text that ends in U+FFFD is held back, although its bytes are complete. */
  lemma ReplacementIsHeldBack()
    ensures OnBoundary([REPLACEMENT], |EncodeText([REPLACEMENT])|)
    ensures Delta(EncodeText([REPLACEMENT]), 0).None?
  {
    assert [REPLACEMENT][..1] == [REPLACEMENT];
    LossyInvertsEncode([REPLACEMENT]);
    assert EncodeText([REPLACEMENT])[0..] == EncodeText([REPLACEMENT]);
  }
}
