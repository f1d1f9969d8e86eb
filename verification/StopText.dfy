/** The text that is answered for a stop string: the lossy decoding of the completion, cut where the stop string stands
    among the raw bytes. */
module StopText {
  import opened Common
  import opened Utf8
  import opened Streaming
  import opened SequenceState

  /** The first n bytes of an encoded text, as a text; cutting inside a code point, or behind the end, fails. */
  function Cut(text: seq<Scalar>, n: nat): Option<seq<Scalar>> {
    if n == 0 then Some([])
    else if text == [] || n < |Encode(text[0])| then None
    else
      var rest := Cut(text[1..], n - |Encode(text[0])|);
      if rest.None? then None else Some([text[0]] + rest.value)
  }

  function Answer(bytes: seq<Byte>, pos: nat): Option<seq<Scalar>> {
    var cut := Cut(Lossy(bytes), pos);
    if cut.None? then None else Some(TrimStart(cut.value))
  }

  lemma {:induction false} CutLength(text: seq<Scalar>, n: nat)
    ensures Cut(text, n).Some? ==> Cut(text, n).value <= text && |EncodeText(Cut(text, n).value)| == n
    decreases |text|
  {
    hide Encode;
    if n > 0 && text != [] && n >= |Encode(text[0])| {
      CutLength(text[1..], n - |Encode(text[0])|);
      var rest := Cut(text[1..], n - |Encode(text[0])|);
      if rest.Some? {
        assert ([text[0]] + rest.value)[1..] == rest.value;
      }
    }
  }

  lemma {:induction false} CutBehind(text: seq<Scalar>, rest: seq<Scalar>)
    ensures Cut(text + rest, |EncodeText(text)|) == Some(text)
    decreases |text|
  {
    hide Encode;
    if text != [] {
      assert (text + rest)[1..] == text[1..] + rest;
      CutBehind(text[1..], rest);
      assert [text[0]] + text[1..] == text;
    }
  }

  // ----- decoding up to the first byte of a stop string

  lemma EncodingStarts(c: Scalar)
    ensures !IsContinuation(Encode(c)[0])
  {
  }

  lemma StepBeforeLead(a: seq<Byte>, b: seq<Byte>)
    requires a != [] && (b == [] || !IsContinuation(b[0]))
    ensures DecodeStep(a + b) == DecodeStep(a)
  {
    var ab := a + b;
    assert forall i :: 0 <= i < |a| ==> ab[i] == a[i];
    if b != [] {
      assert ab[|a|] == b[0];
    }
  }

  /** Whatever stands before it, valid or not, decodes apart from it. */
  lemma {:induction false} LossyBeforeLead(a: seq<Byte>, b: seq<Byte>)
    requires b == [] || !IsContinuation(b[0])
    ensures Lossy(a + b) == Lossy(a) + Lossy(b)
    decreases |a|
  {
    hide DecodeStep;
    if a == [] {
      assert a + b == b;
    } else {
      StepBeforeLead(a, b);
      var n := DecodeStep(a).consumed;
      assert (a + b)[n..] == a[n..] + b;
      LossyBeforeLead(a[n..], b);
    }
  }

  /** Every invalid part consists of three bytes, as many as the U+FFFD that replaces it. */
  predicate InvalidPartsHaveThree(bytes: seq<Byte>)
    decreases |bytes|
  {
    bytes == [] ||
    (var s := DecodeStep(bytes);
     (s.scalar.None? ==> s.consumed == 3) && InvalidPartsHaveThree(bytes[s.consumed..]))
  }

  lemma InvalidStepIsShort(bytes: seq<Byte>)
    requires bytes != [] && DecodeStep(bytes).scalar.None?
    ensures DecodeStep(bytes).consumed <= 3 == |Encode(REPLACEMENT)|
  {
  }

  /** The decoding is never shorter than the bytes, and as long exactly if every invalid part has three. */
  lemma {:induction false} DecodedLength(bytes: seq<Byte>)
    ensures |EncodeText(Lossy(bytes))| >= |bytes|
    ensures |EncodeText(Lossy(bytes))| == |bytes| <==> InvalidPartsHaveThree(bytes)
    decreases |bytes|
  {
    hide DecodeStep, Encode;
    if bytes != [] {
      var s := DecodeStep(bytes);
      var c := if s.scalar.Some? then s.scalar.value else REPLACEMENT;
      DecodedLength(bytes[s.consumed..]);
      assert Lossy(bytes)[0] == c && Lossy(bytes)[1..] == Lossy(bytes[s.consumed..]);
      if s.scalar.Some? {
        DecodeEncodes(bytes);
      } else {
        InvalidStepIsShort(bytes);
      }
    }
  }

  /** The answer is cut right before the stop string exactly if every invalid part before it has three bytes. Otherwise
      it is cut too early, or inside a code point. A stop string is a text, so its first byte continues nothing. */
  lemma CutIsExact(bytes: seq<Byte>, needle: seq<Byte>, pos: nat)
    requires OccursAt(bytes, needle, pos) && needle != [] && !IsContinuation(needle[0])
    ensures Cut(Lossy(bytes), pos) == Some(Lossy(bytes[..pos])) <==> InvalidPartsHaveThree(bytes[..pos])
    ensures Cut(Lossy(bytes), pos).Some? ==> Cut(Lossy(bytes), pos).value <= Lossy(bytes[..pos])
  {
    hide Lossy, Cut, InvalidPartsHaveThree, EncodeText;
    var before, behind := bytes[..pos], bytes[pos..];
    assert behind[0] == needle[0] by { assert bytes[pos..pos + |needle|][0] == needle[0]; }
    assert bytes == before + behind;
    LossyBeforeLead(before, behind);
    DecodedLength(before);
    CutLength(Lossy(bytes), pos);
    CutBehind(Lossy(before), Lossy(behind));
    if Cut(Lossy(bytes), pos).Some? {
      ShorterIsPrefix(Cut(Lossy(bytes), pos).value, Lossy(before), Lossy(bytes));
    }
  }

  /** Of two beginnings of a text the one with the shorter encoding is a beginning of the other. */
  lemma ShorterIsPrefix(a: seq<Scalar>, b: seq<Scalar>, text: seq<Scalar>)
    requires a <= text && b <= text && |EncodeText(a)| <= |EncodeText(b)|
    ensures a <= b
  {
    assert a == text[..|a|] && b == text[..|b|];
    if |b| < |a| {
      EncodeTextGrows(text, |b|, |a|);
    }
  }

  lemma {:induction false} TextHasNoInvalidParts(text: seq<Scalar>)
    ensures InvalidPartsHaveThree(EncodeText(text))
    decreases |text|
  {
    hide Encode, DecodeStep;
    if text != [] {
      var rest := EncodeText(text[1..]);
      EncodeDecodes(text[0], rest);
      assert (Encode(text[0]) + rest)[|Encode(text[0])|..] == rest;
      TextHasNoInvalidParts(text[1..]);
    }
  }

  lemma ContinuesInside(c: Scalar, m: nat)
    requires 0 < m < |Encode(c)|
    ensures IsContinuation(Encode(c)[m])
  {
  }

  /** Within a valid text the answer is always the text before the stop string. */
  lemma CutOfText(text: seq<Scalar>, m: nat, needle: seq<Byte>, pos: nat) returns (k: nat)
    requires m <= |EncodeText(text)| && OccursAt(EncodeText(text)[..m], needle, pos) && needle != []
    requires !IsContinuation(needle[0])
    ensures k <= |text| && pos == |EncodeText(text[..k])|
    ensures Cut(Lossy(EncodeText(text)[..m]), pos) == Some(text[..k])
  {
    hide Lossy, Cut, InvalidPartsHaveThree, EncodeText, Encode;
    var bytes, next, rest := EncodeText(text)[..m], 0, 0;
    k, next, rest := PrefixSplits(text, pos);
    assert bytes[..pos] == EncodeText(text)[..pos] && bytes[pos..pos + |needle|][0] == needle[0];
    if rest > 0 {
      NextByte(text, k, rest);
      ContinuesInside(next, rest);
    }
    assert EncodeText(text[..k]) + Encode(next)[..0] == EncodeText(text[..k]);
    TextHasNoInvalidParts(text[..k]);
    CutIsExact(bytes, needle, pos);
    LossyInvertsEncode(text[..k]);
  }

  /** So the answer is that text without its leading whitespace. */
  lemma AnswerOfText(text: seq<Scalar>, m: nat, needle: seq<Byte>, pos: nat) returns (k: nat)
    requires m <= |EncodeText(text)| && OccursAt(EncodeText(text)[..m], needle, pos)
    requires needle != [] && !IsContinuation(needle[0])
    ensures k <= |text| && pos == |EncodeText(text[..k])|
    ensures var answer := Answer(EncodeText(text)[..m], pos);
            answer.Some? && IsTrimmed(text[..k], answer.value)
  {
    k := CutOfText(text, m, needle, pos);
    TrimStartTrims(text[..k]);
  }

  lemma NextByte(text: seq<Scalar>, k: nat, m: nat)
    requires k < |text| && m < |Encode(text[k])|
    ensures |EncodeText(text[..k])| + m < |EncodeText(text)|
    ensures EncodeText(text)[|EncodeText(text[..k])| + m] == Encode(text[k])[m]
  {
    hide Encode;
    assert text[..k] + text[k..] == text;
    EncodeTextConcat(text[..k], text[k..]);
    assert text[k..][0] == text[k];
  }

  /** Behind a single invalid byte the cut falls inside the U+FFFD. */
  lemma InvalidByteFails()
    ensures OccursAt([0xFF, 0x62], [0x62], 1) && Answer([0xFF, 0x62], 1).None?
  {
    assert [0xFF, 0x62][1..] == [0x62] && [0x62][1..] == [];
    assert Lossy([0x62]) == [0x62] && Lossy([0xFF, 0x62]) == [REPLACEMENT, 0x62];
  }
}
