/** The string form of a 52-code state vector: the source's plain join, and a two-digit key. */
module Fingerprints {

  function DigitChar(d: int): char
    requires 0 <= d < 10
  {
    "0123456789"[d]
  }

  function DigitValue(ch: char): int
  {
    if '0' <= ch <= '9' then ch as int - '0' as int else 0
  }

  lemma DigitRoundTrip(d: int)
    requires 0 <= d < 10
    ensures DigitValue(DigitChar(d)) == d
  {
    assert "0123456789"[d] as int == '0' as int + d by {
      assert "0123456789" == ['0', '1', '2', '3', '4', '5', '6', '7', '8', '9'];
    }
  }

  /** Python's `str(x)` for a non-negative integer. */
  function Decimal(x: nat): (s: string)
    ensures |s| > 0
    decreases x
  {
    if x < 10 then [DigitChar(x)] else Decimal(x / 10) + [DigitChar(x % 10)]
  }

  /** `''.join(str(x) for x in state)`, the string the source pushes on its states stack. */
  function JoinAsWritten(v: seq<nat>): string
    decreases |v|
  {
    if |v| == 0 then "" else Decimal(v[0]) + JoinAsWritten(v[1..])
  }

  lemma JoinAppend(a: seq<nat>, b: seq<nat>)
    ensures JoinAsWritten(a + b) == JoinAsWritten(a) + JoinAsWritten(b)
    decreases |a|
  {
    if |a| > 0 {
      assert (a + b)[0] == a[0];
      assert (a + b)[1..] == a[1..] + b;
      JoinAppend(a[1..], b);
    } else {
      assert a + b == b;
    }
  }

  /** The join loses the boundaries between codes: "1" then "12" and "11" then "2" both give "112",
      whatever the remaining codes are. */
  lemma JoinCollides(rest: seq<nat>)
    ensures [1, 12] + rest != [11, 2] + rest
    ensures JoinAsWritten([1, 12] + rest) == JoinAsWritten([11, 2] + rest)
  {
    JoinAppend([1, 12], rest);
    JoinAppend([11, 2], rest);
    assert JoinAsWritten([1, 12]) == "112" by {
      assert [1, 12][1..] == [12];
    }
    assert JoinAsWritten([11, 2]) == "112" by {
      assert [11, 2][1..] == [2];
    }
    assert ([1, 12] + rest)[0] != ([11, 2] + rest)[0];
  }

  /** `str(x)` of a code below 100 is one digit below 10 and two digits from 10 on. */
  lemma DecimalSmall(x: nat)
    requires x < 100
    ensures x < 10 ==> Decimal(x) == [DigitChar(x)]
    ensures 10 <= x ==> Decimal(x) == [DigitChar(x / 10), DigitChar(x % 10)]
  {
  }

  /** The join only loses boundaries between codes of different widths: two vectors of codes
      below 100 that agree, position by position, on which codes have one digit share a joined
      string only when they are equal. */
  lemma {:induction false} JoinAligned(v1: seq<nat>, v2: seq<nat>)
    requires |v1| == |v2|
    requires forall i :: 0 <= i < |v1| ==> v1[i] < 100 && v2[i] < 100 && (v1[i] < 10 <==> v2[i] < 10)
    ensures JoinAsWritten(v1) == JoinAsWritten(v2) <==> v1 == v2
    decreases |v1|
  {
    if |v1| > 0 && JoinAsWritten(v1) == JoinAsWritten(v2) {
      var d1, d2 := Decimal(v1[0]), Decimal(v2[0]);
      DecimalSmall(v1[0]);
      DecimalSmall(v2[0]);
      assert |d1| == |d2|;
      assert JoinAsWritten(v1) == d1 + JoinAsWritten(v1[1..]);
      assert JoinAsWritten(v2) == d2 + JoinAsWritten(v2[1..]);
      assert d1 == JoinAsWritten(v1)[..|d1|] && d2 == JoinAsWritten(v2)[..|d2|];
      assert JoinAsWritten(v1[1..]) == JoinAsWritten(v1)[|d1|..];
      assert JoinAsWritten(v2[1..]) == JoinAsWritten(v2)[|d2|..];
      if v1[0] < 10 {
        DigitRoundTrip(v1[0]);
        DigitRoundTrip(v2[0]);
        assert d1[0] == d2[0];
      } else {
        DigitRoundTrip(v1[0] / 10);
        DigitRoundTrip(v2[0] / 10);
        DigitRoundTrip(v1[0] % 10);
        DigitRoundTrip(v2[0] % 10);
        assert d1[0] == d2[0] && d1[1] == d2[1];
      }
      JoinAligned(v1[1..], v2[1..]);
      assert v1 == [v1[0]] + v1[1..] && v2 == [v2[0]] + v2[1..];
    }
  }

  predicate TwoDigitCodes(v: seq<int>)
  {
    forall i :: 0 <= i < |v| ==> 0 <= v[i] < 100
  }

  /** The state key with every code written as exactly two digits. */
  function StateKey(v: seq<int>): (s: string)
    requires TwoDigitCodes(v)
    ensures |s| == 2 * |v|
    decreases |v|
  {
    if |v| == 0 then "" else [DigitChar(v[0] / 10), DigitChar(v[0] % 10)] + StateKey(v[1..])
  }

  function DecodeKey(s: string): (v: seq<int>)
    decreases |s|
  {
    if |s| < 2 then [] else [10 * DigitValue(s[0]) + DigitValue(s[1])] + DecodeKey(s[2..])
  }

  lemma DecodeHead(x: int, tail: string)
    requires 0 <= x < 100
    ensures DecodeKey([DigitChar(x / 10), DigitChar(x % 10)] + tail) == [x] + DecodeKey(tail)
  {
    var s := [DigitChar(x / 10), DigitChar(x % 10)] + tail;
    DigitRoundTrip(x / 10);
    DigitRoundTrip(x % 10);
    assert s[2..] == tail;
  }

  /** Decoding a state key gives back the code vector. */
  lemma {:induction false} KeyRoundTrip(v: seq<int>)
    requires TwoDigitCodes(v)
    ensures DecodeKey(StateKey(v)) == v
    decreases |v|
  {
    if |v| > 0 {
      DecodeHead(v[0], StateKey(v[1..]));
      KeyRoundTrip(v[1..]);
      assert v == [v[0]] + v[1..];
    }
  }

  /** Distinct vectors have distinct keys. */
  lemma KeyInjective(v1: seq<int>, v2: seq<int>)
    requires TwoDigitCodes(v1) && TwoDigitCodes(v2)
    ensures StateKey(v1) == StateKey(v2) <==> v1 == v2
  {
    if StateKey(v1) == StateKey(v2) {
      KeyRoundTrip(v1);
      KeyRoundTrip(v2);
    }
  }
}
