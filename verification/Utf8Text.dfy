/**
  Reading text out of a file: strict UTF-8, as sections 3 and 4 of RFC 3629 define
  it, with a read cut at a byte cap trimmed to a character boundary first.
 */
module Utf8Text {
  import opened Outcomes

  newtype Byte = b: int | 0 <= b < 0x100

  /** A code point that is not a surrogate. */
  newtype Scalar = c: int | 0 <= c < 0xD800 || 0xE000 <= c < 0x11_0000

  // ------------------------------------------------- one character

  predicate Tail(b: Byte) {
    0x80 <= b <= 0xBF
  }

  /** The length the lead byte announces; 0 for a byte no character starts with. */
  function LengthFrom(lead: Byte): nat {
    if lead <= 0x7F then 1
    else if 0xC2 <= lead <= 0xDF then 2
    else if 0xE0 <= lead <= 0xEF then 3
    else if 0xF0 <= lead <= 0xF4 then 4
    else 0
  }

  /** UTF8-char of section 4. */
  predicate IsChar(bs: seq<Byte>) {
    |bs| > 0 && |bs| == LengthFrom(bs[0])
    && (forall k :: 1 <= k < |bs| ==> Tail(bs[k]))
    && (bs[0] == 0xE0 ==> bs[1] >= 0xA0)
    && (bs[0] == 0xED ==> bs[1] <= 0x9F)
    && (bs[0] == 0xF0 ==> bs[1] >= 0x90)
    && (bs[0] == 0xF4 ==> bs[1] <= 0x8F)
  }

  /** The bits of an octet above its marker. */
  function Bits(b: Byte, marker: int): int {
    b as int - marker
  }

  /** The character number that section 3 assigns to the octets. */
  function NumberOf(bs: seq<Byte>): int
    requires IsChar(bs)
  {
    if |bs| == 1 then bs[0] as int
    else if |bs| == 2 then Bits(bs[0], 0xC0) * 0x40 + Bits(bs[1], 0x80)
    else if |bs| == 3 then
      (Bits(bs[0], 0xE0) * 0x40 + Bits(bs[1], 0x80)) * 0x40 + Bits(bs[2], 0x80)
    else
      ((Bits(bs[0], 0xF0) * 0x40 + Bits(bs[1], 0x80)) * 0x40 + Bits(bs[2], 0x80)) * 0x40
      + Bits(bs[3], 0x80)
  }

  function ScalarOf(bs: seq<Byte>): Scalar
    requires IsChar(bs)
  {
    NumberOf(bs) as Scalar
  }

  function Octet(marker: int, bits: int): Byte
    requires 0 <= marker && 0 <= bits && marker + bits < 0x100
  {
    (marker + bits) as Byte
  }

  /** Six bits to each octet after the first. */
  function EncodeChar(c: Scalar): seq<Byte> {
    var n := c as int;
    var high := n / 0x40;
    var higher := high / 0x40;
    if n < 0x80 then [Octet(0, n)]
    else if n < 0x800 then [Octet(0xC0, high), Octet(0x80, n % 0x40)]
    else if n < 0x1_0000 then
      [Octet(0xE0, higher), Octet(0x80, high % 0x40), Octet(0x80, n % 0x40)]
    else
      [Octet(0xF0, higher / 0x40), Octet(0x80, higher % 0x40), Octet(0x80, high % 0x40),
       Octet(0x80, n % 0x40)]
  }

  /** Each code point has an encoding that section 4 allows and that reads back. */
  lemma EncodesChar(c: Scalar)
    ensures IsChar(EncodeChar(c)) && ScalarOf(EncodeChar(c)) == c
  {
    var n := c as int;
    var high := n / 0x40;
    var higher := high / 0x40;
    assert n == high * 0x40 + n % 0x40 && high == higher * 0x40 + high % 0x40;
    assert higher == higher / 0x40 * 0x40 + higher % 0x40;
  }

  /** The number tells the length. */
  lemma NumberRange(bs: seq<Byte>)
    requires IsChar(bs)
    ensures |bs| == if NumberOf(bs) < 0x80 then 1 else if NumberOf(bs) < 0x800 then 2
                    else if NumberOf(bs) < 0x1_0000 then 3 else 4
  {
    assert forall k :: 1 <= k < |bs| ==> 0 <= Bits(bs[k], 0x80) < 0x40;
  }

  lemma SameDigits(high: int, low: int, high': int, low': int)
    requires 0 <= low < 0x40 && 0 <= low' < 0x40
    requires high * 0x40 + low == high' * 0x40 + low'
    ensures high == high' && low == low'
  {
  }

  /** Each character has one encoding: octets with the same number are the same. */
  lemma SameNumber(a: seq<Byte>, b: seq<Byte>)
    requires IsChar(a) && IsChar(b) && NumberOf(a) == NumberOf(b)
    ensures a == b
  {
    NumberRange(a);
    NumberRange(b);
    var n := |a|;
    assert forall k :: 1 <= k < n ==> Tail(a[k]) && Tail(b[k]);
    if n == 2 {
      SameDigits(Bits(a[0], 0xC0), Bits(a[1], 0x80), Bits(b[0], 0xC0), Bits(b[1], 0x80));
    } else if n == 3 {
      var p := Bits(a[0], 0xE0) * 0x40 + Bits(a[1], 0x80);
      var q := Bits(b[0], 0xE0) * 0x40 + Bits(b[1], 0x80);
      SameDigits(p, Bits(a[2], 0x80), q, Bits(b[2], 0x80));
      SameDigits(Bits(a[0], 0xE0), Bits(a[1], 0x80), Bits(b[0], 0xE0), Bits(b[1], 0x80));
    } else if n == 4 {
      SameFour(a, b);
    }
  }

  lemma SameFour(a: seq<Byte>, b: seq<Byte>)
    requires IsChar(a) && IsChar(b) && NumberOf(a) == NumberOf(b) && |a| == |b| == 4
    ensures a == b
  {
    assert forall k :: 1 <= k < 4 ==> Tail(a[k]) && Tail(b[k]);
    var p := Bits(a[0], 0xF0) * 0x40 + Bits(a[1], 0x80);
    var q := Bits(b[0], 0xF0) * 0x40 + Bits(b[1], 0x80);
    SameDigits(p * 0x40 + Bits(a[2], 0x80), Bits(a[3], 0x80),
               q * 0x40 + Bits(b[2], 0x80), Bits(b[3], 0x80));
    SameDigits(p, Bits(a[2], 0x80), q, Bits(b[2], 0x80));
    SameDigits(Bits(a[0], 0xF0), Bits(a[1], 0x80), Bits(b[0], 0xF0), Bits(b[1], 0x80));
  }

  // ------------------------------------------------- text

  function Encode(text: seq<Scalar>): seq<Byte> {
    if text == [] then [] else EncodeChar(text[0]) + Encode(text[1..])
  }

  /** The length of the character the bytes start with; 0 if there is none. */
  function FirstLength(bs: seq<Byte>): (n: nat)
    ensures n <= |bs|
    ensures n > 0 <==> exists m :: 0 <= m <= |bs| && IsChar(bs[..m])
    ensures n > 0 ==> IsChar(bs[..n])
  {
    if bs == [] then 0
    else
      var n := LengthFrom(bs[0]);
      assert forall m :: 0 < m <= |bs| && IsChar(bs[..m]) ==> bs[..m][0] == bs[0] && m == n;
      if n <= |bs| && IsChar(bs[..n]) then n else 0
  }

  /** bytes.decode("utf-8"): the text, or the position of the first bad byte. */
  function Decode(bs: seq<Byte>): Result<seq<Scalar>, nat> {
    if bs == [] then Ok([])
    else
      var n := FirstLength(bs);
      if n == 0 then Err(0)
      else
        var rest := Decode(bs[n..]);
        if rest.Err? then Err(n + rest.error) else Ok([ScalarOf(bs[..n])] + rest.value)
  }

  lemma CharFirst(ch: seq<Byte>, rest: seq<Byte>)
    requires IsChar(ch)
    ensures FirstLength(ch + rest) == |ch|
    ensures (ch + rest)[..|ch|] == ch && (ch + rest)[|ch|..] == rest
  {
    assert (ch + rest)[0] == ch[0];
    assert (ch + rest)[..|ch|] == ch;
  }

  /** What comes before `rest` adds its characters, or moves the bad byte along. */
  function Prefixed(before: seq<Scalar>, length: nat, rest: Result<seq<Scalar>, nat>)
    : Result<seq<Scalar>, nat>
  {
    if rest.Err? then Err(length + rest.error) else Ok(before + rest.value)
  }

  lemma PrefixedTwice(a: seq<Scalar>, b: seq<Scalar>, m: nat, n: nat,
                      rest: Result<seq<Scalar>, nat>)
    ensures Prefixed(a, m, Prefixed(b, n, rest)) == Prefixed(a + b, m + n, rest)
  {
    assert rest.Ok? ==> a + (b + rest.value) == (a + b) + rest.value;
  }

  lemma DecodeNext(c: Scalar, rest: seq<Byte>)
    ensures Decode(EncodeChar(c) + rest) == Prefixed([c], |EncodeChar(c)|, Decode(rest))
  {
    EncodesChar(c);
    CharFirst(EncodeChar(c), rest);
  }

  lemma FirstApart(text: seq<Scalar>, rest: seq<Byte>)
    requires text != []
    ensures |Encode(text)| == |EncodeChar(text[0])| + |Encode(text[1..])|
    ensures Encode(text) + rest == EncodeChar(text[0]) + (Encode(text[1..]) + rest)
  {
    Regroup(EncodeChar(text[0]), Encode(text[1..]), rest);
  }

  lemma Regroup(a: seq<Byte>, b: seq<Byte>, c: seq<Byte>)
    ensures (a + b) + c == a + (b + c)
  {
  }

  /** Decoding goes through a whole text and then does what it would have done. */
  lemma {:induction false} DecodeAfter(text: seq<Scalar>, rest: seq<Byte>)
    ensures Decode(Encode(text) + rest) == Prefixed(text, |Encode(text)|, Decode(rest))
  {
    if text == [] {
      assert Encode(text) + rest == rest;
      assert Decode(rest).Ok? ==> text + Decode(rest).value == Decode(rest).value;
    } else {
      var c, more := text[0], text[1..];
      FirstApart(text, rest);
      DecodeNext(c, Encode(more) + rest);
      DecodeAfter(more, rest);
      PrefixedTwice([c], more, |EncodeChar(c)|, |Encode(more)|, Decode(rest));
      assert text == [c] + more;
    }
  }

  /** Decoding accepts exactly the encodings, and inverts encoding. */
  lemma {:induction false} DecodeIffEncoded(bs: seq<Byte>, text: seq<Scalar>)
    ensures Decode(bs) == Ok(text) <==> bs == Encode(text)
    decreases |bs|
  {
    if bs == Encode(text) {
      DecodeAfter(text, []);
      assert Encode(text) + [] == bs && text + [] == text;
    }
    if bs != [] && FirstLength(bs) > 0 && Decode(bs) == Ok(text) {
      var n := FirstLength(bs);
      EncodesChar(text[0]);
      SameNumber(EncodeChar(text[0]), bs[..n]);
      DecodeIffEncoded(bs[n..], text[1..]);
      assert bs == bs[..n] + bs[n..];
    }
  }

  /** A character cut short does not decode. */
  lemma PartIsNoText(c: Scalar, m: nat)
    requires 0 < m < |EncodeChar(c)|
    ensures Decode(EncodeChar(c)[..m]).Err?
  {
    EncodesChar(c);
    var part := EncodeChar(c)[..m];
    assert LengthFrom(part[0]) > |part|;
  }

  // ------------------------------------------------- the read

  /** data[:stop], where a negative stop counts from the end. */
  function SliceTo(data: seq<Byte>, stop: int): seq<Byte> {
    if stop >= |data| then data
    else if stop >= 0 then data[..stop]
    else if |data| + stop >= 0 then data[..|data| + stop]
    else []
  }

  function Candidate(data: seq<Byte>, back: nat): seq<Byte> {
    if back == 0 then data else SliceTo(data, |data| - back)
  }

  /** How many bytes to give up, at most three, for the rest to be text. */
  function GiveUp(data: seq<Byte>, from: nat): (back: nat)
    requires from <= 4
    ensures from <= back <= 4
    ensures back < 4 ==> Decode(Candidate(data, back)).Ok?
    ensures forall b :: from <= b < back ==> Decode(Candidate(data, b)).Err?
    decreases 4 - from
  {
    if from == 4 then 4
    else if Decode(Candidate(data, from)).Ok? then from
    else GiveUp(data, from + 1)
  }

  function ExactText(data: seq<Byte>, truncated: bool): Result<seq<Scalar>, nat> {
    var back := GiveUp(data, 0);
    if truncated && back < 4 then Decode(Candidate(data, back)) else Decode(data)
  }

  method DecodeExactText(data: seq<Byte>, truncated: bool) returns (r: Result<seq<Scalar>, nat>)
    ensures r == ExactText(data, truncated)
  {
    var head := data;
    if truncated {
      for back := 0 to 4
        invariant GiveUp(data, 0) == GiveUp(data, back)
        invariant head == data
      {
        var candidate := Candidate(data, back);
        if Decode(candidate).Err? {
          continue;
        }
        head := candidate;
        break;
      }
    }
    return Decode(head);
  }

  // ------------------------------------------------- what a capped read returns

  /** How many whole characters fit into `cap` bytes. */
  function Fitting(text: seq<Scalar>, cap: nat): (k: nat)
    ensures k <= |text|
    ensures |Encode(text[..k])| <= cap
    ensures k < |text| ==> |Encode(text[..k])| + |EncodeChar(text[k])| > cap
  {
    if text == [] || |EncodeChar(text[0])| > cap then 0
    else
      var rest := Fitting(text[1..], cap - |EncodeChar(text[0])|);
      assert text[..rest+1][1..] == text[1..][..rest];
      rest + 1
  }

  function Capped(bs: seq<Byte>, cap: nat): seq<Byte> {
    if cap >= |bs| then bs else bs[..cap]
  }

  lemma {:induction false} EncodeSplit(text: seq<Scalar>, k: nat)
    requires k <= |text|
    ensures Encode(text) == Encode(text[..k]) + Encode(text[k..])
  {
    if k > 0 {
      EncodeSplit(text[1..], k - 1);
      assert text[..k][1..] == text[1..][..k-1] && text[1..][k-1..] == text[k..];
    } else {
      assert text[0..] == text;
    }
  }

  /** The capped bytes: the characters that fit, and part of the next one. */
  lemma CappedIs(text: seq<Scalar>, cap: nat)
    ensures var k := Fitting(text, cap);
            var whole, data := Encode(text[..k]), Capped(Encode(text), cap);
            |whole| <= |data| && data[..|whole|] == whole
            && (k == |text| ==> data == whole)
            && (k < |text| ==> |data| - |whole| < |EncodeChar(text[k])|
                               && data[|whole|..] == EncodeChar(text[k])[..|data| - |whole|])
  {
    var k := Fitting(text, cap);
    var whole := Encode(text[..k]);
    EncodeSplit(text, k);
    if k == |text| {
      assert text[..k] == text;
    } else {
      assert Encode(text) == whole + (EncodeChar(text[k]) + Encode(text[k..][1..]));
    }
  }

  /** A text file cut anywhere by the cap reads back as its longest prefix of whole
      characters that fits, at most three bytes short of the cut. */
  lemma CappedReadIsLongestPrefix(text: seq<Scalar>, cap: nat)
    ensures var k := Fitting(text, cap);
            var data := Capped(Encode(text), cap);
            ExactText(data, true) == Ok(text[..k])
            && |data| - 3 <= |Encode(text[..k])| <= |data|
  {
    var k := Fitting(text, cap);
    var whole, data := Encode(text[..k]), Capped(Encode(text), cap);
    var short := |data| - |whole|;
    CappedIs(text, cap);
    assert short <= 3;
    forall b | 0 <= b < short ensures Decode(Candidate(data, b)).Err? {
      assert Candidate(data, b) == whole + EncodeChar(text[k])[..short-b];
      CutCharIsRefused(text[..k], text[k], short - b);
    }
    assert Candidate(data, short) == whole;
    DecodeIffEncoded(whole, text[..k]);
    assert GiveUp(data, 0) == short;
  }

  lemma CutCharIsRefused(text: seq<Scalar>, c: Scalar, m: nat)
    requires 0 < m < |EncodeChar(c)|
    ensures Decode(Encode(text) + EncodeChar(c)[..m]).Err?
  {
    PartIsNoText(c, m);
    DecodeAfter(text, EncodeChar(c)[..m]);
  }

  /** No longer prefix of the text fits under the cap. */
  lemma {:induction false} FittingIsLongest(text: seq<Scalar>, cap: nat, j: nat)
    requires j <= |text|
    ensures |Encode(text[..j])| <= cap <==> j <= Fitting(text, cap)
  {
    if j > 0 {
      assert text[..j][1..] == text[1..][..j-1];
      if |EncodeChar(text[0])| <= cap {
        FittingIsLongest(text[1..], cap - |EncodeChar(text[0])|, j - 1);
      }
    }
  }

  /** A read that was not cut is accepted exactly if all of it is text. */
  lemma UncutReadIsStrict(data: seq<Byte>, text: seq<Scalar>)
    ensures ExactText(data, false) == Ok(text) <==> data == Encode(text)
  {
    DecodeIffEncoded(data, text);
  }

  /** A read that was cut is not strict: it is accepted exactly if what remains
      after giving up at most three bytes is text, whatever those bytes are. */
  lemma CutReadForgivesThreeBytes(data: seq<Byte>)
    ensures ExactText(data, true).Ok?
            <==> exists n :: |data| - 3 <= n <= |data| && n >= 0 && Decode(data[..n]).Ok?
  {
    assert data[..|data|] == data;
    var back := GiveUp(data, 0);
    if back < 4 {
      var n := if back <= |data| then |data| - back
               else if back <= 2 * |data| then 2 * |data| - back else 0;
      assert Candidate(data, back) == data[..n];
      assert |data| - 3 <= n <= |data|;
    }
    forall n | |data| - 3 <= n <= |data| && n >= 0 ensures Candidate(data, |data| - n) == data[..n] {
    }
  }

  /** So a byte that no text contains is accepted at the end of a cut read, and
      refused in the same place of a read that was not cut. */
  lemma BadByteAccepted(text: seq<Scalar>)
    ensures ExactText(Encode(text) + [0xFF], true) == Ok(text)
    ensures ExactText(Encode(text) + [0xFF], false).Err?
    ensures forall longer: seq<Scalar> :: !(Encode(text) + [0xFF] <= Encode(longer))
  {
    var data := Encode(text) + [0xFF];
    DecodeAfter(text, [0xFF]);
    assert FirstLength([0xFF]) == 0;
    assert Candidate(data, 1) == Encode(text);
    DecodeIffEncoded(Encode(text), text);
    assert GiveUp(data, 0) == GiveUp(data, 1) == 1;
    forall longer: seq<Scalar> ensures !(data <= Encode(longer)) {
      if data <= Encode(longer) {
        EncodedBytes(longer, |Encode(text)|);
      }
    }
  }

  lemma {:induction false} EncodedBytes(text: seq<Scalar>, k: nat)
    requires k < |Encode(text)|
    ensures Encode(text)[k] <= 0xF4
  {
    var n := |EncodeChar(text[0])|;
    if k >= n {
      EncodedBytes(text[1..], k - n);
    }
  }

  /** The examples of section 7 of RFC 3629. */
  lemma SectionSevenChars()
    ensures EncodeChar(0x41) == [0x41] && EncodeChar(0x2E) == [0x2E]
    ensures EncodeChar(0x2262) == [0xE2, 0x89, 0xA2] && EncodeChar(0x391) == [0xCE, 0x91]
    ensures EncodeChar(0xD55C) == [0xED, 0x95, 0x9C] && EncodeChar(0xAD6D) == [0xEA, 0xB5, 0xAD]
    ensures EncodeChar(0xFEFF) == [0xEF, 0xBB, 0xBF]
    ensures EncodeChar(0x233B4) == [0xF0, 0xA3, 0x8E, 0xB4]
  {
  }

  lemma EncodesNext(c: Scalar, text: seq<Scalar>)
    ensures Encode([c] + text) == EncodeChar(c) + Encode(text)
  {
    assert ([c] + text)[1..] == text;
  }

  /** A text reads back from its characters' octets put one after another. */
  lemma ThreeRead(a: Scalar, b: Scalar, c: Scalar)
    ensures Decode(EncodeChar(a) + (EncodeChar(b) + EncodeChar(c))) == Ok([a, b, c])
  {
    EncodesNext(c, []);
    EncodesNext(b, [c]);
    EncodesNext(a, [b, c]);
    assert [a] + ([b] + ([c] + [])) == [a, b, c];
    assert EncodeChar(c) + Encode([]) == EncodeChar(c);
    DecodeIffEncoded(Encode([a, b, c]), [a, b, c]);
  }

  lemma SectionSevenText(bs: seq<Byte>)
    requires bs == [0x41, 0xE2, 0x89, 0xA2, 0xCE, 0x91]
    ensures Decode(bs) == Ok([0x41, 0x2262, 0x391])
  {
    SectionSevenChars();
    ThreeRead(0x41, 0x2262, 0x391);
    assert bs == [0x41] + ([0xE2, 0x89, 0xA2] + [0xCE, 0x91]);
  }
}
