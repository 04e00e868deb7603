/** Bytes and their hexadecimal text form, as Node's `Buffer` produces and reads it:
    `buf.toString('hex')` and `hash.digest('hex')` write lower-case digits, and
    `Buffer.from(text, 'hex')` reads, for ASCII text, digit pairs of either case until
    the first pair that is not hexadecimal, ignoring an odd trailing digit. */
module Hex {
  import opened Wrappers

  newtype byte = x: int | 0 <= x < 256

  /** The value of one hexadecimal digit of either case. */
  function DigitValue(c: char): (r: Option<nat>)
    ensures r.Some? ==> r.value < 16
    ensures r.Some? <==> ('0' <= c <= '9' || 'a' <= c <= 'f' || 'A' <= c <= 'F')
  {
    if '0' <= c <= '9' then Some(c as int - '0' as int)
    else if 'a' <= c <= 'f' then Some(c as int - 'a' as int + 10)
    else if 'A' <= c <= 'F' then Some(c as int - 'A' as int + 10)
    else None
  }

  predicate IsLowerDigit(c: char) {
    '0' <= c <= '9' || 'a' <= c <= 'f'
  }

  predicate IsLowerHex(s: string) {
    forall i :: 0 <= i < |s| ==> IsLowerDigit(s[i])
  }

  /** The lower-case hexadecimal digit of value `n`. */
  function Digit(n: nat): (c: char)
    requires n < 16
    ensures IsLowerDigit(c) && DigitValue(c) == Some(n)
  {
    if n < 10 then ('0' as int + n) as char else ('a' as int + n - 10) as char
  }

  /** `Buffer.prototype.toString('hex')`: two lower-case digits per byte, high nibble first. */
  function Encode(b: seq<byte>): (r: string)
    ensures |r| == 2 * |b|
    ensures IsLowerHex(r)
  {
    if b == [] then []
    else [Digit(b[0] as int / 16), Digit(b[0] as int % 16)] + Encode(b[1..])
  }

  /** `Buffer.from(s, 'hex')` for ASCII text: decodes digit pairs from the front and stops
      at the first pair holding a non-hexadecimal character; a lone last character is
      ignored. */
  function Decode(s: string): (r: seq<byte>)
    ensures |r| <= |s| / 2
  {
    if |s| < 2 then []
    else match (DigitValue(s[0]), DigitValue(s[1]))
      case (Some(hi), Some(lo)) => [(hi * 16 + lo) as byte] + Decode(s[2..])
      case _ => []
  }

  /** How `Decode` continues after a valid digit pair. */
  lemma DecodeStep(s: string, hi: nat, lo: nat)
    requires |s| >= 2 && DigitValue(s[0]) == Some(hi) && DigitValue(s[1]) == Some(lo)
    ensures hi * 16 + lo < 256
    ensures Decode(s) == [(hi * 16 + lo) as byte] + Decode(s[2..])
  {
  }

  /** Byte `i` of `Decode(s)` is the value of the digit pair at `2 * i`. */
  lemma {:induction false} DecodePairs(s: string)
    ensures var r := Decode(s);
      forall i :: 0 <= i < |r| ==>
        && DigitValue(s[2 * i]).Some? && DigitValue(s[2 * i + 1]).Some?
        && r[i] as int == DigitValue(s[2 * i]).value * 16 + DigitValue(s[2 * i + 1]).value
  {
    if |s| >= 2 && DigitValue(s[0]).Some? && DigitValue(s[1]).Some? {
      var t := s[2..];
      var r, rt := Decode(s), Decode(t);
      DecodeStep(s, DigitValue(s[0]).value, DigitValue(s[1]).value);
      DecodePairs(t);
      forall i | 0 <= i < |r|
        ensures && DigitValue(s[2 * i]).Some? && DigitValue(s[2 * i + 1]).Some?
                && r[i] as int == DigitValue(s[2 * i]).value * 16 + DigitValue(s[2 * i + 1]).value
      {
        if i > 0 {
          var j := i - 1;
          assert r[i] == rt[j];
          assert s[2 * i] == t[2 * j] && s[2 * i + 1] == t[2 * j + 1];
        }
      }
    }
  }

  /** Decoding stops only at the end of the text or at a pair that is not hexadecimal. */
  lemma {:induction false} DecodeStops(s: string)
    ensures var n := |Decode(s)|;
      2 * n + 1 < |s| ==> DigitValue(s[2 * n]).None? || DigitValue(s[2 * n + 1]).None?
  {
    if |s| >= 2 && DigitValue(s[0]).Some? && DigitValue(s[1]).Some? {
      var t := s[2..];
      DecodeStep(s, DigitValue(s[0]).value, DigitValue(s[1]).value);
      DecodeStops(t);
      var n := |Decode(t)|;
      if 2 * n + 3 < |s| {
        assert s[2 * n + 2] == t[2 * n] && s[2 * n + 3] == t[2 * n + 1];
      }
    }
  }

  /** Reading back what `Encode` wrote gives the original bytes. */
  lemma {:induction false} DecodeEncode(b: seq<byte>)
    ensures Decode(Encode(b)) == b
  {
    if b != [] {
      var x := b[0] as int;
      var e := Encode(b);
      assert e[0] == Digit(x / 16) && e[1] == Digit(x % 16);
      assert e[2..] == Encode(b[1..]);
      DecodeEncode(b[1..]);
    }
  }

  lemma LowerDigitIndex(c: char)
    requires IsLowerDigit(c)
    ensures DigitValue(c).Some? && Digit(DigitValue(c).value) == c
  {
  }

  /** Byte `i` is written as characters `2 * i` and `2 * i + 1`, high nibble first. */
  lemma {:induction false} EncodeAt(b: seq<byte>, i: nat)
    requires i < |b|
    ensures Encode(b)[2 * i] == Digit(b[i] as int / 16)
    ensures Encode(b)[2 * i + 1] == Digit(b[i] as int % 16)
  {
    if i > 0 {
      EncodeAt(b[1..], i - 1);
      var e := Encode(b);
      assert e[2..] == Encode(b[1..]);
      assert e[2 * i] == e[2..][2 * (i - 1)] && e[2 * i + 1] == e[2..][2 * (i - 1) + 1];
    }
  }

  lemma Nibbles(hi: nat, lo: nat, x: byte)
    requires hi < 16 && lo < 16 && x as int == hi * 16 + lo
    ensures x as int / 16 == hi && x as int % 16 == lo
  {
  }

  lemma Halve(i: nat, n: nat)
    requires i < 2 * n
    ensures i / 2 < n && (i == 2 * (i / 2) || i == 2 * (i / 2) + 1)
  {
  }

  /** A byte read from a pair of lower-case digits is written back as that pair. */
  lemma EncodePairAt(r: seq<byte>, s: string, k: nat)
    requires k < |r| && 2 * k + 1 < |s|
    requires IsLowerDigit(s[2 * k]) && IsLowerDigit(s[2 * k + 1])
    requires DigitValue(s[2 * k]).Some? && DigitValue(s[2 * k + 1]).Some?
    requires r[k] as int == DigitValue(s[2 * k]).value * 16 + DigitValue(s[2 * k + 1]).value
    ensures Encode(r)[2 * k] == s[2 * k] && Encode(r)[2 * k + 1] == s[2 * k + 1]
  {
    var hi, lo := DigitValue(s[2 * k]).value, DigitValue(s[2 * k + 1]).value;
    EncodeAt(r, k);
    LowerDigitIndex(s[2 * k]);
    LowerDigitIndex(s[2 * k + 1]);
    Nibbles(hi, lo, r[k]);
  }

  /** Bytes whose pairs of lower-case digits make up `s` are written as `s`. */
  lemma EncodePairs(r: seq<byte>, s: string)
    requires |s| == 2 * |r| && IsLowerHex(s)
    requires forall k :: 0 <= k < |r| ==>
      && DigitValue(s[2 * k]).Some? && DigitValue(s[2 * k + 1]).Some?
      && r[k] as int == DigitValue(s[2 * k]).value * 16 + DigitValue(s[2 * k + 1]).value
    ensures Encode(r) == s
  {
    var e := Encode(r);
    forall i | 0 <= i < |s| ensures e[i] == s[i] {
      var k := i / 2;
      Halve(i, |r|);
      EncodePairAt(r, s, k);
    }
  }

  /** Lower-case text of even length is decoded to the end. */
  lemma DecodeLowerLength(s: string)
    requires |s| % 2 == 0 && IsLowerHex(s)
    ensures 2 * |Decode(s)| == |s|
  {
    var r := Decode(s);
    DecodeStops(s);
    if 2 * |r| + 1 < |s| {
      assert false;
    }
    var m := |s| / 2;
    assert |s| == 2 * m && |r| <= m;
  }

  /** On lower-case text of even length the two are inverse the other way too:
      `Encode` writes back exactly the text `Decode` read. */
  lemma EncodeDecode(s: string)
    requires |s| % 2 == 0 && IsLowerHex(s)
    ensures Encode(Decode(s)) == s
  {
    DecodeLowerLength(s);
    DecodePairs(s);
    EncodePairs(Decode(s), s);
  }

  /** Distinct byte strings have distinct hexadecimal forms. */
  lemma EncodeInjective(a: seq<byte>, b: seq<byte>)
    ensures Encode(a) == Encode(b) <==> a == b
  {
    if Encode(a) == Encode(b) {
      DecodeEncode(a);
      DecodeEncode(b);
    }
  }
}
