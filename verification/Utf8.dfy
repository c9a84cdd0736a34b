/** `mosquitto_validate_utf8` accepts exactly the encodings of section 1.5.4. */
module Utf8 {
  import opened Basics

  const MAX_LENGTH := 65536

  /** Code points that are no control characters, surrogates or non-characters. */
  predicate Allowed(cp: int) {
    && 0x20 <= cp <= 0x10FFFF
    && !(0x7F <= cp <= 0x9F)
    && !(0xD800 <= cp <= 0xDFFF)
    && !(0xFDD0 <= cp <= 0xFDEF)
    && cp % 0x10000 != 0xFFFE && cp % 0x10000 != 0xFFFF
  }

  /** The shortest-form encoding of section 3 of RFC 3629. */
  function Encode(cp: int): (s: seq<Byte>)
    requires 0 <= cp <= 0x10FFFF
    ensures 1 <= |s| <= 4
  {
    if cp < 0x80 then [cp]
    else if cp < 0x800 then [0xC0 + cp / 0x40, 0x80 + cp % 0x40]
    else if cp < 0x10000 then [0xE0 + cp / 0x1000, 0x80 + cp / 0x40 % 0x40, 0x80 + cp % 0x40]
    else [0xF0 + cp / 0x40000, 0x80 + cp / 0x1000 % 0x40, 0x80 + cp / 0x40 % 0x40, 0x80 + cp % 0x40]
  }

  type Text = cps: seq<int> | forall k :: 0 <= k < |cps| ==> Allowed(cps[k])

  function EncodeAll(cps: Text): seq<Byte> {
    if cps == [] then [] else Encode(cps[0]) + EncodeAll(cps[1..])
  }

  predicate Continuation(b: Byte) {
    0x80 <= b <= 0xBF
  }

  /** The number of bytes that a lead byte announces, 0 for a byte that cannot lead. */
  function Width(lead: Byte): nat {
    if lead <= 0x7F then 1
    else if 0xC2 <= lead <= 0xDF then 2
    else if 0xE0 <= lead <= 0xEF then 3
    else if 0xF0 <= lead <= 0xF4 then 4
    else 0
  }

  function LeadBits(lead: Byte): nat {
    if lead <= 0x7F then lead
    else if lead <= 0xDF then lead % 0x20
    else if lead <= 0xEF then lead % 0x10
    else lead % 8
  }

  /** The six bits that a continuation byte carries. */
  function Bits(b: Byte): (bits: nat)
    ensures bits < 0x40
  {
    b % 0x40
  }

  /** Six more bits for every continuation byte. */
  function Gather(bits: nat, tail: seq<Byte>): nat
    decreases |tail|
  {
    if tail == [] then bits else Gather(bits * 0x40 + Bits(tail[0]), tail[1..])
  }

  /** The allowed code point at the start of `s`, if there is one in shortest form. */
  function First(s: seq<Byte>): Option<int> {
    if s == [] then None
    else
      var n := Width(s[0]);
      if n == 0 || n > |s| || !(forall k :: 1 <= k < n ==> Continuation(s[k])) then None
      else
        var cp := Gather(LeadBits(s[0]), s[1..n]);
        if Allowed(cp) && Encode(cp) == s[..n] then Some(cp) else None
  }

  predicate Accepts(s: seq<Byte>) {
    s == [] || (First(s).Some? && Accepts(s[Width(s[0])..]))
  }

  // ---------- Accepted strings are the encodings of allowed text ----------

  lemma Gathered(bits: nat, tail: seq<Byte>)
    ensures |tail| == 1 ==> Gather(bits, tail) == bits * 0x40 + Bits(tail[0])
    ensures |tail| == 2 ==> Gather(bits, tail) == bits * 0x1000 + Bits(tail[0]) * 0x40 + Bits(tail[1])
    ensures |tail| == 3 ==>
              Gather(bits, tail) == bits * 0x40000 + Bits(tail[0]) * 0x1000 + Bits(tail[1]) * 0x40 + Bits(tail[2])
  {
    if tail != [] {
      var b1 := bits * 0x40 + Bits(tail[0]);
      assert Gather(bits, tail) == Gather(b1, tail[1..]);
      if |tail| > 1 {
        var b2 := b1 * 0x40 + Bits(tail[1]);
        assert Gather(b1, tail[1..]) == Gather(b2, tail[1..][1..]);
        assert tail[1..][1..] == tail[2..];
        if |tail| == 3 {
          assert Gather(b2, tail[2..]) == Gather(b2 * 0x40 + Bits(tail[2]), tail[2..][1..]);
        }
      }
    }
  }

  /** An encoding announces its own length, and its bits are those of the code point. */
  lemma GatherEncoding(cp: int)
    requires 0 <= cp <= 0x10FFFF
    ensures var e := Encode(cp);
            Width(e[0]) == |e| && (forall k :: 1 <= k < |e| ==> Continuation(e[k])) &&
            Gather(LeadBits(e[0]), e[1..]) == cp
  {
    if cp >= 0x10000 { GatherEncoding4(cp); }
    else if cp >= 0x800 { GatherEncoding3(cp); }
    else if cp >= 0x80 { GatherEncoding2(cp); }
  }

  lemma GatherEncoding2(cp: int)
    requires 0x80 <= cp < 0x800
    ensures var e := Encode(cp);
            Width(e[0]) == 2 && Continuation(e[1]) && Gather(LeadBits(e[0]), e[1..]) == cp
  {
    var e := Encode(cp);
    Gathered(LeadBits(e[0]), e[1..]);
    assert LeadBits(e[0]) == cp / 0x40 && Bits(e[1]) == cp % 0x40;
  }

  lemma GatherEncoding3(cp: int)
    requires 0x800 <= cp < 0x10000
    ensures var e := Encode(cp);
            Width(e[0]) == 3 && Continuation(e[1]) && Continuation(e[2]) && Gather(LeadBits(e[0]), e[1..]) == cp
  {
    var e := Encode(cp);
    Gathered(LeadBits(e[0]), e[1..]);
    var q := cp / 0x40;
    assert cp / 0x1000 == q / 0x40;
    assert LeadBits(e[0]) == q / 0x40 && Bits(e[1]) == q % 0x40 && Bits(e[2]) == cp % 0x40;
  }

  lemma GatherEncoding4(cp: int)
    requires 0x10000 <= cp <= 0x10FFFF
    ensures var e := Encode(cp);
            Width(e[0]) == 4 && Continuation(e[1]) && Continuation(e[2]) && Continuation(e[3]) &&
            Gather(LeadBits(e[0]), e[1..]) == cp
  {
    var e := Encode(cp);
    Gathered(LeadBits(e[0]), e[1..]);
    var q, r := cp / 0x40, cp / 0x40 / 0x40;
    assert cp / 0x1000 == r && cp / 0x40000 == r / 0x40;
    assert LeadBits(e[0]) == r / 0x40 && Bits(e[1]) == r % 0x40 && Bits(e[2]) == q % 0x40 && Bits(e[3]) == cp % 0x40;
  }

  /** The decoder reads an encoding back, whatever follows it. */
  lemma FirstOfEncoding(cp: int, rest: seq<Byte>)
    requires Allowed(cp)
    ensures First(Encode(cp) + rest) == Some(cp)
    ensures Width((Encode(cp) + rest)[0]) == |Encode(cp)|
  {
    var e := Encode(cp);
    var s := e + rest;
    GatherEncoding(cp);
    assert s[..|e|] == e && s[1..|e|] == e[1..];
    assert forall k :: 0 <= k < |e| ==> s[k] == e[k];
  }

  lemma {:induction false} EncodingsAccepted(cps: Text)
    ensures Accepts(EncodeAll(cps))
  {
    if cps != [] {
      var rest := EncodeAll(cps[1..]);
      FirstOfEncoding(cps[0], rest);
      assert (Encode(cps[0]) + rest)[|Encode(cps[0])|..] == rest;
      EncodingsAccepted(cps[1..]);
    }
  }

  function Decode(s: seq<Byte>): (cps: Text)
    requires Accepts(s)
    ensures EncodeAll(cps) == s
  {
    if s == [] then []
    else
      var cp := First(s).value;
      var cps: Text := [cp] + Decode(s[Width(s[0])..]);
      assert cps[1..] == Decode(s[Width(s[0])..]);
      cps
  }

  /** The accepted byte strings are exactly the encodings of allowed text. */
  lemma AcceptedIsEncoded(s: seq<Byte>)
    ensures Accepts(s) <==> exists cps: Text :: EncodeAll(cps) == s
  {
    if Accepts(s) {
      assert EncodeAll(Decode(s)) == s;
    }
    forall cps: Text | EncodeAll(cps) == s ensures Accepts(s) {
      EncodingsAccepted(cps);
    }
  }

  // ---------- The validator ----------

  /** Two bytes led by 0xC2 or more are always the shortest form, three bytes exactly from
      0x800 on, four bytes exactly from 0x10000 on. */
  lemma ShortestForm(s: seq<Byte>)
    requires s != [] && Width(s[0]) > 0 && |s| == Width(s[0])
    requires forall k :: 1 <= k < |s| ==> Continuation(s[k])
    ensures var cp := Gather(LeadBits(s[0]), s[1..]);
            (0 <= cp <= 0x10FFFF && Encode(cp) == s) <==>
            (|s| == 3 ==> cp >= 0x800) && (|s| == 4 ==> 0x10000 <= cp <= 0x10FFFF)
  {
    if |s| == 2 {
      ShortestForm2(s);
    } else if |s| == 3 {
      ShortestForm3(s);
    } else if |s| == 4 {
      ShortestForm4(s);
    }
  }

  lemma ShortestForm2(s: seq<Byte>)
    requires |s| == 2 && Width(s[0]) == 2 && Continuation(s[1])
    ensures var cp := Gather(LeadBits(s[0]), s[1..]);
            0 <= cp <= 0x10FFFF && Encode(cp) == s
  {
    Gathered(LeadBits(s[0]), s[1..]);
    var a: int, b: int := s[0] - 0xC0, s[1] - 0x80;
    assert LeadBits(s[0]) == a && Bits(s[1]) == b;
    Shortest2(a, b);
  }

  lemma ShortestForm3(s: seq<Byte>)
    requires |s| == 3 && Width(s[0]) == 3 && Continuation(s[1]) && Continuation(s[2])
    ensures var cp := Gather(LeadBits(s[0]), s[1..]);
            cp <= 0x10FFFF && (Encode(cp) == s <==> cp >= 0x800)
  {
    hide Encode, Gather;
    Gathered(LeadBits(s[0]), s[1..]);
    var a: int, b: int, c: int := s[0] - 0xE0, s[1] - 0x80, s[2] - 0x80;
    assert LeadBits(s[0]) == a && Bits(s[1]) == b && Bits(s[2]) == c;
    Shortest3(a, b, c);
  }

  lemma ShortestForm4(s: seq<Byte>)
    requires |s| == 4 && Width(s[0]) == 4 && Continuation(s[1]) && Continuation(s[2]) && Continuation(s[3])
    ensures var cp := Gather(LeadBits(s[0]), s[1..]);
            (cp <= 0x10FFFF && Encode(cp) == s) <==> 0x10000 <= cp <= 0x10FFFF
  {
    hide Encode, Gather;
    Gathered(LeadBits(s[0]), s[1..]);
    var a: int, b: int, c: int, d: int := s[0] - 0xF0, s[1] - 0x80, s[2] - 0x80, s[3] - 0x80;
    assert LeadBits(s[0]) == a && Bits(s[1]) == b && Bits(s[2]) == c && Bits(s[3]) == d;
    Shortest4(a, b, c, d);
  }

  lemma Shortest2(a: int, b: int)
    requires 2 <= a < 0x20 && 0 <= b < 0x40
    ensures Encode(a * 0x40 + b) == [0xC0 + a, 0x80 + b]
  {}

  lemma Shortest3(a: int, b: int, c: int)
    requires 0 <= a < 0x10 && 0 <= b < 0x40 && 0 <= c < 0x40
    ensures var cp := a * 0x1000 + b * 0x40 + c;
            cp < 0x10000 && if cp >= 0x800 then Encode(cp) == [0xE0 + a, 0x80 + b, 0x80 + c] else |Encode(cp)| < 3
  {
    var cp := a * 0x1000 + b * 0x40 + c;
    assert cp / 0x40 == a * 0x40 + b && cp / 0x1000 == a && cp % 0x40 == c;
  }

  lemma {:induction false} Shortest4(a: int, b: int, c: int, d: int)
    requires 0 <= a < 5 && 0 <= b < 0x40 && 0 <= c < 0x40 && 0 <= d < 0x40
    ensures var cp := a * 0x40000 + b * 0x1000 + c * 0x40 + d;
            (0x10000 <= cp <= 0x10FFFF ==> Encode(cp) == [0xF0 + a, 0x80 + b, 0x80 + c, 0x80 + d]) &&
            (cp < 0x10000 ==> |Encode(cp)| < 4)
  {
    var cp := a * 0x40000 + b * 0x1000 + c * 0x40 + d;
    assert cp / 0x40 == a * 0x1000 + b * 0x40 + c && cp % 0x40 == d;
    assert cp / 0x1000 == a * 0x40 + b && cp / 0x40000 == a;
    assert cp / 0x40 % 0x40 == c && cp / 0x1000 % 0x40 == b;
  }

  lemma {:induction false} GatherSnoc(bits: nat, tail: seq<Byte>, b: Byte)
    ensures Gather(bits, tail + [b]) == Gather(bits, tail) * 0x40 + Bits(b)
    decreases |tail|
  {
    if tail == [] {
      assert [] + [b] == [b] && [b][1..] == [];
    } else {
      assert (tail + [b])[1..] == tail[1..] + [b];
      GatherSnoc(bits * 0x40 + Bits(tail[0]), tail[1..], b);
    }
  }

  lemma GatherMore(bits: nat, s: seq<Byte>, n: nat)
    requires 1 <= n < |s|
    ensures Gather(bits, s[1..n + 1]) == Gather(bits, s[1..n]) * 0x40 + Bits(s[n])
  {
    assert s[1..n + 1] == s[1..n] + [s[n]];
    GatherSnoc(bits, s[1..n], s[n]);
  }

  /** What the checks after the gathering of one code point decide. */
  lemma FirstDecided(s: seq<Byte>, cp: nat)
    requires s != [] && 0 < Width(s[0]) <= |s|
    requires forall k :: 1 <= k < Width(s[0]) ==> Continuation(s[k])
    requires cp == Gather(LeadBits(s[0]), s[1..Width(s[0])])
    ensures First(s).Some? <==>
            (Width(s[0]) == 3 ==> cp >= 0x800) && (Width(s[0]) == 4 ==> 0x10000 <= cp <= 0x10FFFF) && Allowed(cp)
  {
    var n := Width(s[0]);
    var e := s[..n];
    assert e[0] == s[0] && e[1..] == s[1..n] && forall k :: 0 <= k < n ==> e[k] == s[k];
    ShortestForm(e);
  }

  /** A bad lead byte, a short string or a missing continuation byte leaves nothing to decode. */
  lemma FirstFails(s: seq<Byte>)
    requires s != []
    requires Width(s[0]) == 0 || Width(s[0]) > |s| || exists k :: 1 <= k < Width(s[0]) && !Continuation(s[k])
    ensures First(s).None?
  {}

  lemma NulIsRefused(s: seq<Byte>)
    requires s != [] && s[0] == 0
    ensures First(s).None?
  {
    assert s[1..1] == [];
    FirstDecided(s, 0);
  }

  lemma GatherNothing(bits: nat, s: seq<Byte>)
    requires s != []
    ensures Gather(bits, s[1..1]) == bits
  {}

  /** Three bytes cannot encode more than sixteen bits. */
  lemma ThreeBytesBound(s: seq<Byte>, cp: nat)
    requires s != [] && 0 < Width(s[0]) <= |s|
    requires cp == Gather(LeadBits(s[0]), s[1..Width(s[0])])
    ensures Width(s[0]) <= 3 ==> cp <= 0x10FFFF
  {
    Gathered(LeadBits(s[0]), s[1..Width(s[0])]);
  }

  /** `mosquitto_validate_utf8`. The caller supplies a NUL at index `len`, and nothing behind
      that index is read. */
  method ValidateUtf8(str: Option<seq<Byte>>, len: int) returns (rc: Rc)
    requires str.Some? && 0 <= len <= 65536 ==> len < |str.value| && str.value[len] == 0
    ensures str.None? || len < 0 || len > 65536 ==> rc == Inval
    ensures str.Some? && 0 <= len <= 65536 ==>
              rc == if Accepts(str.value[..len]) then Success else MalformedUtf8
  {
    hide First, Gather, Encode;
    if str.None? { return Inval; }
    if len < 0 || len > MAX_LENGTH { return Inval; }
    var ustr := str.value;
    ghost var text := ustr[..len];
    assert text[0..] == text;
    var i := 0;
    while i < len
      invariant 0 <= i <= len
      invariant Accepts(text) == Accepts(text[i..])
    {
      ghost var rest := text[i..];
      ghost var start := i;
      assert rest[0] == ustr[i];
      if Width(rest[0]) == 0 || Width(rest[0]) > |rest| { FirstFails(rest); }
      var codelen: int, codepoint: int := 0, 0;
      if ustr[i] == 0 {
        NulIsRefused(rest);
        return MalformedUtf8;
      } else if ustr[i] <= 0x7F {
        codelen, codepoint := 1, ustr[i];
      } else if 0xC0 <= ustr[i] <= 0xDF {
        if ustr[i] == 0xC0 || ustr[i] == 0xC1 { return MalformedUtf8; }
        codelen, codepoint := 2, ustr[i] % 0x20;
      } else if 0xE0 <= ustr[i] <= 0xEF {
        codelen, codepoint := 3, ustr[i] % 0x10;
      } else if 0xF0 <= ustr[i] <= 0xF7 {
        if ustr[i] > 0xF4 { return MalformedUtf8; }
        codelen, codepoint := 4, ustr[i] % 8;
      } else {
        return MalformedUtf8;
      }
      assert codelen == Width(rest[0]) && codepoint == LeadBits(rest[0]);
      if i == len - codelen + 1 { return MalformedUtf8; }
      GatherNothing(codepoint, rest);
      for j := 0 to codelen - 1
        invariant i == start + j && i < len
        invariant forall k :: 1 <= k <= j ==> Continuation(rest[k])
        invariant codepoint == Gather(LeadBits(rest[0]), rest[1..j + 1])
      {
        i := i + 1;
        if !(0x80 <= ustr[i] <= 0xBF) {
          if i < len {
            assert rest[j + 1] == text[start + (j + 1)] == ustr[i];
          }
          FirstFails(rest);
          return MalformedUtf8;
        }
        assert i < len && rest[j + 1] == text[start + (j + 1)] == ustr[i];
        GatherMore(LeadBits(rest[0]), rest, j + 1);
        codepoint := codepoint * 0x40 + Bits(ustr[i]);
      }
      FirstDecided(rest, codepoint);
      ThreeBytesBound(rest, codepoint);
      if 0xD800 <= codepoint <= 0xDFFF { return MalformedUtf8; }
      if codelen == 3 && codepoint < 0x800 {
        return MalformedUtf8;
      } else if codelen == 4 && (codepoint < 0x10000 || codepoint > 0x10FFFF) {
        return MalformedUtf8;
      }
      if 0xFDD0 <= codepoint <= 0xFDEF { return MalformedUtf8; }
      if codepoint % 0x10000 == 0xFFFE || codepoint % 0x10000 == 0xFFFF { return MalformedUtf8; }
      if codepoint <= 0x1F || 0x7F <= codepoint <= 0x9F { return MalformedUtf8; }
      i := i + 1;
      assert rest[codelen..] == text[i..];
    }
    return Success;
  }
}
