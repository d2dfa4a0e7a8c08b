/** Variable-length integers: seven bits a byte, low bits first, the high bit says that more
    follow. At most nine bytes, so 63 bits. */
module Varint {
  import opened Words

  type Byte = n: nat | n < 256 witness 0

  const LIMIT: int := 0x8000_0000_0000_0000

  /** The encoding, of any length. */
  function Encode(n: nat): (s: seq<Byte>)
    ensures |s| > 0
  {
    if n < 128 then [n] else [n % 128 + 128] + Encode(n / 128)
  }

  datatype Decoding = Decoding(count: int, value: nat, rest: seq<Byte>)

  /** What decode does with the bytes still in the stream, from byte i on: at the end of the
      stream a read leaves the last byte in place. */
  function Decode(s: seq<Byte>, i: nat, last: Byte): (d: Decoding)
    requires i <= 9
    ensures d.count == -1 || i < d.count <= 9
    decreases 9 - i, |s|
  {
    if i == 9 then Decoding(-1, 0, s)
    else
      var b := if |s| == 0 then last else s[0];
      var rest := if |s| == 0 then [] else s[1..];
      if b >= 128 then
        var d := Decode(rest, i + 1, b);
        Decoding(d.count, (b - 128) + 128 * d.value, d.rest)
      else Decoding(i + 1, b, rest)
  }

  /** Numbers below 2^(7k) take at most k bytes, and no others do. */
  lemma {:induction false} EncodedLength(n: nat, k: nat)
    requires k > 0
    ensures |Encode(n)| <= k <==> n < Pow2(7 * k)
    decreases k
  {
    assert Pow2(7) == 128;
    Pow2Add(7 * (k - 1), 7);
    if n >= 128 {
      if k > 1 {
        EncodedLength(n / 128, k - 1);
        DivLess(n, Pow2(7 * (k - 1)));
      }
    } else if k > 1 {
      Pow2Monotone(7, 7 * k);
    }
  }

  lemma DivLess(n: nat, m: nat)
    ensures n / 128 < m <==> n < m * 128
  {
  }

  /** Exactly the numbers below 2^63 fit into nine bytes. */
  lemma {:induction false} FitsNine(n: nat)
    ensures |Encode(n)| <= 9 <==> n < LIMIT
  {
    EncodedLength(n, 9);
    Pow2Values();
  }

  /** Decoding inverts encoding and leaves what follows unread. */
  lemma {:induction false} DecodeInverts(n: nat, suffix: seq<Byte>, i: nat, last: Byte)
    requires i + |Encode(n)| <= 9
    ensures Decode(Encode(n) + suffix, i, last) == Decoding(i + |Encode(n)|, n, suffix)
    decreases n
  {
    var s := Encode(n) + suffix;
    if n < 128 {
      assert s[1..] == suffix;
    } else {
      DecodeInverts(n / 128, suffix, i + 1, n % 128 + 128);
      assert s[1..] == Encode(n / 128) + suffix;
    }
  }

  /** No shorter byte string decodes to n. */
  lemma {:induction false} MinimalLength(s: seq<Byte>, i: nat, last: Byte)
    requires i <= 9 && Decode(s, i, last).count > 0 && |s| >= Decode(s, i, last).count - i
    ensures |Encode(Decode(s, i, last).value)| <= Decode(s, i, last).count - i
    decreases 9 - i
  {
    var b := s[0];
    if b >= 128 {
      MinimalLength(s[1..], i + 1, b);
      var v := Decode(s[1..], i + 1, b).value;
      assert (b % 128 + 128 * v) / 128 == v;
    }
  }

  /** varint::encode on a signed 64-bit number. */
  method EncodeInto(num: int, buf: array<Byte>) returns (count: int)
    requires -LIMIT <= num < LIMIT && buf.Length == 9
    modifies buf
    ensures count == if num < 0 then -1 else |Encode(num)|
    ensures num >= 0 ==> 0 < count <= 9 && buf[..count] == Encode(num)
  {
    if num >= 0 {
      FitsNine(num);
    }
    var n := num;
    for i := 0 to 9
      invariant num < 0 ==> n < 0
      invariant num >= 0 ==> n >= 0 && Encode(num) == buf[..i] + Encode(n) && |Encode(num)| == i + |Encode(n)|
    {
      ghost var before := buf[..i];
      var low := n % 128;
      buf[i] := low;
      n := n / 128;
      if n == 0 {
        assert buf[..i + 1] == before + [low];
        return i + 1;
      }
      buf[i] := low + 128;
      assert buf[..i + 1] == before + [low + 128];
    }
    count := -1;
  }

  /** A byte source with a read position. */
  class InStream {
    const data: seq<Byte>
    var pos: nat

    constructor (data: seq<Byte>)
      ensures this.data == data && pos == 0
    {
      this.data, pos := data, 0;
    }

    ghost predicate Valid()
      reads this
    {
      pos <= |data|
    }

    ghost function Rest(): seq<Byte>
      requires Valid()
      reads this
    {
      data[pos..]
    }

    /** read(&b, 1): at the end of the stream the variable keeps its value. */
    method ReadByte(last: Byte) returns (b: Byte)
      requires Valid()
      modifies this
      ensures Valid()
      ensures if old(Rest()) == [] then b == last && Rest() == []
        else b == old(Rest())[0] && Rest() == old(Rest())[1..]
    {
      b := last;
      if pos < |data| {
        b := data[pos];
        pos := pos + 1;
      }
    }

    /** varint::decode from a stream. */
    method DecodeNext() returns (count: int, result: nat)
      requires Valid()
      modifies this
      ensures Valid()
      ensures Decoding(count, result, Rest()) == Decode(old(Rest()), 0, 0)
    {
      count, result := DecodeFrom(0, 0);
    }

    /** Its loop, from byte `first` on. */
    method DecodeFrom(first: nat, initial: Byte) returns (count: int, result: nat)
      requires Valid() && first <= 9
      modifies this
      ensures Valid()
      ensures Decoding(count, result, Rest()) == Decode(old(Rest()), first, initial)
    {
      ghost var goal := Decode(Rest(), first, initial);
      var posV: Byte := initial;
      result := 0;
      for i := first to 9
        invariant Valid() && result < Scale(1, i - first)
        invariant goal == OnTop(result, i - first, Decode(Rest(), i, posV))
      {
        Turn(Rest(), i, posV, result, i - first);
        posV := ReadByte(posV);
        result := Place(result, posV % 128, i - first);
        if posV < 128 {
          return i + 1, result;
        }
      }
      ScaleZero(9 - first);
      count := -1;
    }

    /** result |= low << (k * 7) */
    static function Place(result: nat, low: nat, k: nat): nat {
      Or(result, Scale(low, k))
    }

    /** What is decoded when the bytes after the first k yield `d` on top of `result`. */
    static function OnTop(result: nat, k: nat, d: Decoding): Decoding {
      Decoding(d.count, result + Scale(d.value, k), d.rest)
    }

    /** One turn of the loop. */
    static lemma Turn(s: seq<Byte>, i: nat, last: Byte, result: nat, k: nat)
      requires i < 9 && result < Scale(1, k)
      ensures var b := if |s| == 0 then last else s[0];
        var rest := if |s| == 0 then [] else s[1..];
        var r := Place(result, b % 128, k);
        && r < Scale(1, k + 1)
        && OnTop(result, k, Decode(s, i, last)) ==
           if b < 128 then Decoding(i + 1, r, rest) else OnTop(r, k + 1, Decode(rest, i + 1, b))
    {
      var b := if |s| == 0 then last else s[0];
      var rest := if |s| == 0 then [] else s[1..];
      PlaceAdds(result, b % 128, k);
      ScaleSplit(b % 128, Decode(rest, i + 1, b).value, k);
    }
  }

  /** v << (k * 7) */
  function Scale(v: nat, k: nat): nat {
    if k == 0 then v else 128 * Scale(v, k - 1)
  }

  lemma {:induction false} ScaleSplit(low: nat, v: nat, k: nat)
    ensures Scale(low + 128 * v, k) == Scale(low, k) + Scale(v, k + 1)
    decreases k
  {
    if k > 0 {
      ScaleSplit(low, v, k - 1);
    }
  }

  lemma {:induction false} ScaleZero(k: nat)
    ensures Scale(0, k) == 0
    decreases k
  {
    if k > 0 {
      ScaleZero(k - 1);
    }
  }

  lemma {:induction false} ScaleBound(low: nat, k: nat)
    requires low < 128
    ensures Scale(low, k) <= 127 * Scale(1, k)
    decreases k
  {
    if k > 0 {
      ScaleBound(low, k - 1);
    }
  }

  lemma {:induction false} ScaleIsShift(v: nat, k: nat)
    ensures Scale(v, k) == v * Pow2(7 * k)
    decreases k
  {
    if k > 0 {
      ScaleIsShift(v, k - 1);
      Pow2Add(7 * (k - 1), 7);
      assert Pow2(7) == 128;
      assert 128 * (v * Pow2(7 * (k - 1))) == v * (Pow2(7 * (k - 1)) * 128);
    } else {
      assert Pow2(0) == 1;
    }
  }

  /** Or-ing in the next seven bits adds them. */
  lemma PlaceAdds(result: nat, low: nat, k: nat)
    requires low < 128 && result < Scale(1, k)
    ensures InStream.Place(result, low, k) == result + Scale(low, k) < Scale(1, k + 1)
  {
    ScaleIsShift(1, k);
    ScaleIsShift(low, k);
    OrIsAdd(result, low, 7 * k);
    ScaleBound(low, k);
  }
}
