/** The remaining-length code of MQTT 3.1.1 section 2.2.3: it is inverted by the reader, prefix-free and shortest. */
module MqttLengthProofs {
  import opened Bytes
  import opened MqttWire
  import opened MqttDecoder

  function Power128(k: nat): nat {
    if k == 0 then 1 else 128 * Power128(k - 1)
  }

  /** The first byte of a code in front of anything, and what comes after it. */
  lemma CodeHead(len: nat, rest: seq<byte>)
    ensures var s := RemainingLength(len) + rest;
            && s[0] == (if len < 128 then len else 128 + len % 128)
            && s[1..] == (if len < 128 then rest else RemainingLength(len / 128) + rest)
  {
    if len >= 128 {
      var tail := RemainingLength(len / 128);
      assert ([128 + len % 128] + tail + rest)[1..] == tail + rest;
    } else {
      assert ([len] + rest)[1..] == rest;
    }
  }

  lemma DivideBound(len: nat, p: nat)
    ensures len / 128 < p <==> len < 128 * p
  {
  }

  lemma {:induction false} DigitsRoundTrip(len: nat, rest: seq<byte>, budget: nat)
    requires budget >= 1
    ensures ReadDigits(RemainingLength(len) + rest, budget) == if len < Power128(budget) then Got(len, rest) else Malformed
    decreases len
  {
    CodeHead(len, rest);
    PowerPositive(budget - 1);
    DivideBound(len, Power128(budget - 1));
    if len >= 128 && budget > 1 {
      DigitsRoundTrip(len / 128, rest, budget - 1);
    }
  }

  lemma PowerPositive(k: nat)
    ensures Power128(k) >= 1
  {
  }

  /** Reading gives back exactly what was written when the length is below 2^28, and rejects it otherwise. */
  lemma {:induction false} LengthRoundTrip(len: nat, rest: seq<byte>)
    ensures ReadLength(RemainingLength(len) + rest) == if len < 0x1000_0000 then Got(len, rest) else Malformed
  {
    DigitsRoundTrip(len, rest, 4);
    assert Power128(4) == 0x1000_0000;
  }

  /** No code is a proper prefix of another, whatever follows: the writer may be unbounded. */
  lemma {:induction false} LengthPrefixFree(a: nat, b: nat, x: seq<byte>, y: seq<byte>)
    requires RemainingLength(a) + x == RemainingLength(b) + y
    ensures a == b && x == y
    decreases a
  {
    CodeHead(a, x);
    CodeHead(b, y);
    if a >= 128 {
      LengthPrefixFree(a / 128, b / 128, x, y);
    }
  }

  lemma {:induction false} LengthSize(len: nat, k: nat)
    requires k >= 1
    ensures |RemainingLength(len)| <= k <==> len < Power128(k)
    decreases len
  {
    if len < 128 {
      PowerPositive(k - 1);
    } else if k > 1 {
      LengthSize(len / 128, k - 1);
    }
  }

  lemma LengthFitsFourBytes(len: nat)
    ensures |RemainingLength(len)| <= 4 <==> len < 0x1000_0000
  {
    LengthSize(len, 4);
    assert Power128(4) == 0x1000_0000;
  }

  /** Any run of bytes in which exactly the last lacks the continuation bit. */
  predicate IsLengthCode(e: seq<byte>) {
    e != [] && e[|e| - 1] < 128 && forall i :: 0 <= i < |e| - 1 ==> e[i] >= 128
  }

  function CodeValue(e: seq<byte>): nat
    requires IsLengthCode(e)
  {
    if |e| == 1 then e[0] else e[0] - 128 + 128 * CodeValue(e[1..])
  }

  lemma CodeStep(low: nat, tail: nat)
    requires low < 128
    ensures RemainingLength(low + 128 * tail) == if tail == 0 then [low] else [128 + low] + RemainingLength(tail)
  {
    assert (low + 128 * tail) / 128 == tail && (low + 128 * tail) % 128 == low;
  }

  lemma OneDigitMore(low: nat, tail: nat, code: seq<byte>)
    requires low < 128 && code != [] && |RemainingLength(tail)| <= |code|
    requires |RemainingLength(tail)| == |code| ==> RemainingLength(tail) == code
    ensures |RemainingLength(low + 128 * tail)| <= 1 + |code|
    ensures |RemainingLength(low + 128 * tail)| == 1 + |code| ==> RemainingLength(low + 128 * tail) == [128 + low] + code
  {
    CodeStep(low, tail);
  }

  /** The writer's code is one of the codes for its length, and no other code is as short. */
  lemma {:induction false} LengthCodeIsShortest(e: seq<byte>)
    requires IsLengthCode(e)
    ensures |RemainingLength(CodeValue(e))| <= |e|
    ensures |RemainingLength(CodeValue(e))| == |e| ==> RemainingLength(CodeValue(e)) == e
    decreases |e|
  {
    if |e| > 1 {
      LengthCodeIsShortest(e[1..]);
      OneDigitMore(e[0] - 128, CodeValue(e[1..]), e[1..]);
      assert e == [e[0]] + e[1..];
    }
  }

  lemma {:induction false} LengthCodeHasItsValue(len: nat)
    ensures IsLengthCode(RemainingLength(len)) && CodeValue(RemainingLength(len)) == len
  {
    if len >= 128 {
      LengthCodeHasItsValue(len / 128);
      assert RemainingLength(len)[1..] == RemainingLength(len / 128);
    }
  }
}
