/** Variable byte integers: seven bits a byte, low bits first. */
module Varint {
  import opened Basics

  /** The first value that needs a fifth byte. */
  const LIMIT := 0x1000_0000

  function Encode(v: nat): (s: seq<Byte>)
    ensures |s| >= 1
  {
    if v < 0x80 then [v] else [v % 0x80 + 0x80] + Encode(v / 0x80)
  }

  /** One round of the writers' division loop. */
  lemma EncodeStep(v: nat)
    ensures Encode(v) == if v / 0x80 > 0 then [v % 0x80 + 0x80] + Encode(v / 0x80) else [v % 0x80]
  {}

  /** `packet__varint_bytes`, also the thresholds that `property__get_length` repeats. */
  function Bytes(word: int): nat {
    if word < 0x80 then 1
    else if word < 0x4000 then 2
    else if word < 0x20_0000 then 3
    else if word < LIMIT then 4
    else 5
  }

  /** The value at the start of `s` and the number of bytes it takes, in at most `k` bytes.
      `first` is false behind a continuation byte, where a zero byte would be overlong. */
  function Parse(s: seq<Byte>, k: nat, first: bool): Option<(nat, nat)>
    decreases k
  {
    if k == 0 || s == [] then None
    else if s[0] < 0x80 then (if !first && s[0] == 0 then None else Some((s[0], 1)))
    else match Parse(s[1..], k - 1, false)
      case None => None
      case Some(p) => Some((s[0] - 0x80 + 0x80 * p.0, p.1 + 1))
  }

  /** What the reader accepts: at most four bytes, none of them overlong. */
  function Decode(s: seq<Byte>): Option<(nat, nat)> {
    Parse(s, 4, true)
  }

  /** 128 to the power `k`. */
  function Power(k: nat): (p: nat)
    ensures p >= 1
  {
    if k == 0 then 1 else 0x80 * Power(k - 1)
  }

  lemma PowerFour()
    ensures Power(1) == 0x80 && Power(2) == 0x4000 && Power(3) == 0x20_0000 && Power(4) == LIMIT
  {
    assert Power(0) == 1;
  }

  lemma {:induction false} ParseEncode(v: nat, k: nat, first: bool, rest: seq<Byte>)
    requires first || v > 0
    ensures v < Power(k) && k > 0 ==> Parse(Encode(v) + rest, k, first) == Some((v, |Encode(v)|))
    ensures v >= Power(k) || k == 0 ==> Parse(Encode(v) + rest, k, first) == None
    decreases v
  {
    var s := Encode(v) + rest;
    if v < 0x80 {
      assert s[0] == v;
    } else {
      assert s[0] == v % 0x80 + 0x80 && s[1..] == Encode(v / 0x80) + rest;
      if k > 0 {
        ParseEncode(v / 0x80, k - 1, false, rest);
        assert v == v / 0x80 * 0x80 + v % 0x80;
      }
    }
  }

  lemma {:induction false} EncodeParse(s: seq<Byte>, k: nat, first: bool)
    requires Parse(s, k, first).Some?
    ensures var p := Parse(s, k, first).value;
            p.0 < Power(k) && 1 <= p.1 <= k && p.1 <= |s| && s[..p.1] == Encode(p.0) && (!first ==> p.0 > 0)
    decreases k
  {
    if s[0] >= 0x80 {
      EncodeParse(s[1..], k - 1, false);
      var p, q := Parse(s, k, first).value, Parse(s[1..], k - 1, false).value;
      assert s[..p.1] == [s[0]] + s[1..][..q.1];
      assert p.0 / 0x80 == q.0 && p.0 % 0x80 == s[0] - 0x80;
    } else {
      assert s[..1] == [s[0]];
    }
  }

  /** Every value below 2^28 is read back from its encoding, whatever follows, and no other. */
  lemma {:induction false} DecodeEncode(v: nat, rest: seq<Byte>)
    ensures Decode(Encode(v) + rest) == if v < LIMIT then Some((v, |Encode(v)|)) else None
  {
    PowerFour();
    ParseEncode(v, 4, true, rest);
  }

  /** Every byte string the reader accepts begins with the one encoding of the value it read. */
  lemma EncodeDecode(s: seq<Byte>)
    requires Decode(s).Some?
    ensures var p := Decode(s).value;
            p.0 < LIMIT && 1 <= p.1 <= 4 && p.1 <= |s| && s[..p.1] == Encode(p.0)
  {
    PowerFour();
    EncodeParse(s, 4, true);
  }

  lemma {:induction false} EncodeLength(v: nat, k: nat)
    requires k > 0
    ensures |Encode(v)| <= k <==> v < Power(k)
    decreases v
  {
    if v >= 0x80 && k > 1 {
      EncodeLength(v / 0x80, k - 1);
    } else {
      assert Power(k) >= Power(1) by { PowerGrows(k); }
    }
  }

  lemma {:induction false} PowerGrows(k: nat)
    requires k > 0
    ensures Power(k) >= 0x80 && (k == 1 ==> Power(k) == 0x80)
  {
    if k > 1 { PowerGrows(k - 1); } else { assert Power(0) == 1; }
  }

  /** `packet__varint_bytes` is the length of the encoding exactly while that has at most five bytes. */
  lemma {:induction false} BytesIsLength(v: nat)
    ensures Bytes(v) == |Encode(v)| <==> v < 0x80 * LIMIT
    ensures v < LIMIT <==> |Encode(v)| <= 4
  {
    PowerFour();
    assert Power(5) == 0x80 * Power(4);
    EncodeLength(v, 5);
    EncodeLength(v, 1);
    EncodeLength(v, 2);
    EncodeLength(v, 3);
    EncodeLength(v, 4);
  }

  /** What the bytes are worth by section 1.5.5: seven bits each, the least significant first. */
  function Worth(s: seq<Byte>): nat {
    if s == [] then 0 else s[0] % 0x80 + 0x80 * Worth(s[1..])
  }

  /** The encoding is worth the value; every byte but the last announces another one, and the last is not
      a superfluous zero. */
  lemma {:induction false} EncodedWorth(v: nat)
    ensures var s := Encode(v);
            Worth(s) == v && s[|s| - 1] < 0x80 && (|s| > 1 ==> s[|s| - 1] != 0) &&
            forall i :: 0 <= i < |s| - 1 ==> s[i] >= 0x80
  {
    var s := Encode(v);
    if v < 0x80 {
      assert s[1..] == [];
    } else {
      EncodedWorth(v / 0x80);
      var t := Encode(v / 0x80);
      assert s[1..] == t && s[0] % 0x80 == v % 0x80;
      assert forall i :: 0 < i < |s| ==> s[i] == t[i - 1];
    }
  }
}
