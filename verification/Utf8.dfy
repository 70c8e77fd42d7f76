/** The two UTF-8 encoders: from code points, in the runtime, and from UTF-16, at the boundary to
  * JavaScript. Code points are 32 bits wide, bytes 8 and UTF-16 units 16. The decoder is the
  * grammar of section 4 of RFC 3629. */
module Utf8 {
  import opened Buffers
  import opened Options

  // ------------------------------------------------------------------------------------------
  // The encoding of a sequence of code points
  // ------------------------------------------------------------------------------------------

  predicate Encodable(c: bv32) {
    c < 0x110000
  }

  /** A Unicode scalar value: no half of a surrogate pair. */
  predicate Scalar(c: bv32) {
    c < 0xD800 || 0xDFFF < c < 0x110000
  }

  predicate AllEncodable(cs: seq<bv32>) {
    forall k :: 0 <= k < |cs| ==> Encodable(cs[k])
  }

  predicate AllScalar(cs: seq<bv32>) {
    forall k :: 0 <= k < |cs| ==> Scalar(cs[k])
  }

  function Low8(c: bv32): bv8 {
    (c & 0xFF) as bv8
  }

  function Width(c: bv32): nat {
    if c < 0x80 then 1 else if c < 0x800 then 2 else if c < 0x10000 then 3 else 4
  }

  // The first byte and those that continue it, by their place from the end

  function First(c: bv32): bv8 {
    if c < 0x80 then Low8(c)
    else if c < 0x800 then Low8(192 + c / 64)
    else if c < 0x10000 then Low8(224 + c / 4096)
    else Low8(240 + c / 262144)
  }

  function Third(c: bv32): bv8 {
    Low8(128 + c / 4096 % 64)
  }

  function Second(c: bv32): bv8 {
    Low8(128 + c / 64 % 64)
  }

  function Final(c: bv32): bv8 {
    Low8(128 + c % 64)
  }

  function Encode(c: bv32): (bytes: seq<bv8>)
    ensures |bytes| == Width(c)
  {
    if c < 0x80 then [First(c)]
    else if c < 0x800 then [First(c), Final(c)]
    else if c < 0x10000 then [First(c), Second(c), Final(c)]
    else [First(c), Third(c), Second(c), Final(c)]
  }

  function EncodeAll(cs: seq<bv32>): seq<bv8> {
    if cs == [] then [] else Encode(cs[0]) + EncodeAll(cs[1..])
  }

  lemma {:induction false} EncodeSnoc(cs: seq<bv32>, c: bv32)
    ensures EncodeAll(cs + [c]) == EncodeAll(cs) + Encode(c)
  {
    if cs == [] {
      assert [c][1..] == [];
      assert Encode(c) + EncodeAll([]) == Encode(c);
    } else {
      assert (cs + [c])[1..] == cs[1..] + [c];
      EncodeSnoc(cs[1..], c);
      assert (Encode(cs[0]) + EncodeAll(cs[1..])) + Encode(c) == Encode(cs[0]) + (EncodeAll(cs[1..]) + Encode(c));
    }
  }

  // ------------------------------------------------------------------------------------------
  // The reference decoder
  // ------------------------------------------------------------------------------------------

  predicate Tail(b: bv8) {
    0x80 <= b <= 0xBF
  }

  function Bits(b: bv8, mask: bv8): bv32 {
    (b & mask) as bv32
  }

  predicate Starts1(b0: bv8) {
    b0 < 0x80
  }

  predicate Starts2(b0: bv8) {
    0xC2 <= b0 <= 0xDF
  }

  predicate Starts3(b0: bv8, b1: bv8) {
    0xE0 <= b0 <= 0xEF && (b0 == 0xE0 ==> b1 >= 0xA0) && (b0 == 0xED ==> b1 <= 0x9F)
  }

  predicate Starts4(b0: bv8, b1: bv8) {
    0xF0 <= b0 <= 0xF4 && (b0 == 0xF0 ==> b1 >= 0x90) && (b0 == 0xF4 ==> b1 <= 0x8F)
  }

  function Join1(b0: bv8): bv32 {
    b0 as bv32
  }

  function Join2(b0: bv8, b1: bv8): bv32 {
    Bits(b0, 0x1F) * 64 + Bits(b1, 0x3F)
  }

  function Join3(b0: bv8, b1: bv8, b2: bv8): bv32 {
    Bits(b0, 0x0F) * 4096 + Bits(b1, 0x3F) * 64 + Bits(b2, 0x3F)
  }

  function Join4(b0: bv8, b1: bv8, b2: bv8, b3: bv8): bv32 {
    Bits(b0, 0x07) * 262144 + Bits(b1, 0x3F) * 4096 + Bits(b2, 0x3F) * 64 + Bits(b3, 0x3F)
  }

  /** The code point that starts `b`, and the number of bytes it takes. */
  function DecodeOne(b: seq<bv8>): Option<(bv32, nat)> {
    if |b| >= 1 && Starts1(b[0]) then Some((Join1(b[0]), 1))
    else if |b| >= 2 && Starts2(b[0]) && Tail(b[1]) then Some((Join2(b[0], b[1]), 2))
    else if |b| >= 3 && Starts3(b[0], b[1]) && Tail(b[1]) && Tail(b[2]) then Some((Join3(b[0], b[1], b[2]), 3))
    else if |b| >= 4 && Starts4(b[0], b[1]) && Tail(b[1]) && Tail(b[2]) && Tail(b[3]) then
      Some((Join4(b[0], b[1], b[2], b[3]), 4))
    else None
  }

  function DecodeAll(b: seq<bv8>): Option<seq<bv32>>
    decreases |b|
  {
    if b == [] then Some([])
    else
      match DecodeOne(b)
      case None => None
      case Some((c, n)) =>
        match DecodeAll(b[n..])
        case None => None
        case Some(cs) => Some([c] + cs)
  }

  // The arithmetic of each width, without sequences

  lemma Arith1(c: bv32)
    requires c < 0x80
    ensures Starts1(First(c)) && Join1(First(c)) == c && Scalar(c)
  {
  }

  lemma Arith2(c: bv32)
    requires 0x80 <= c < 0x800
    ensures !Starts1(First(c)) && Starts2(First(c)) && Tail(Final(c)) && Join2(First(c), Final(c)) == c && Scalar(c)
  {
  }

  lemma Lead3(c: bv32, b0: bv8)
    requires 0x800 <= c < 0x10000 && b0 == Low8(224 + c / 4096)
    ensures 0xE0 <= b0 <= 0xEF
  {
  }

  lemma TailByte(c: bv32, b: bv8)
    requires b == Low8(128 + c % 64) || b == Low8(128 + c / 64 % 64) || b == Low8(128 + c / 4096 % 64)
    ensures Tail(b)
  {
  }

  lemma Scalar3(c: bv32, b0: bv8, b1: bv8)
    requires 0x800 <= c < 0x10000 && b0 == Low8(224 + c / 4096) && b1 == Low8(128 + c / 64 % 64)
    ensures Starts3(b0, b1) <==> Scalar(c)
  {
  }

  lemma Joined3(c: bv32, b0: bv8, b1: bv8, b2: bv8)
    requires 0x800 <= c < 0x10000
    requires b0 == Low8(224 + c / 4096) && b1 == Low8(128 + c / 64 % 64) && b2 == Low8(128 + c % 64)
    ensures Join3(b0, b1, b2) == c
  {
  }

  lemma Arith3(c: bv32)
    requires 0x800 <= c < 0x10000
    ensures !Starts1(First(c)) && !Starts2(First(c)) && !Starts4(First(c), Second(c))
    ensures Tail(Second(c)) && Tail(Final(c)) && (Starts3(First(c), Second(c)) <==> Scalar(c))
    ensures Join3(First(c), Second(c), Final(c)) == c
  {
    hide Low8, Scalar, Join3, Tail, Starts3;
    Lead3(c, First(c));
    TailByte(c, Second(c));
    TailByte(c, Final(c));
    Scalar3(c, First(c), Second(c));
    Joined3(c, First(c), Second(c), Final(c));
  }

  lemma Lead4(c: bv32, b0: bv8, b1: bv8)
    requires 0x10000 <= c < 0x110000 && b0 == Low8(240 + c / 262144) && b1 == Low8(128 + c / 4096 % 64)
    ensures 0xF0 <= b0 && Starts4(b0, b1) && Scalar(c)
  {
  }

  lemma Joined4(c: bv32, b0: bv8, b1: bv8, b2: bv8, b3: bv8)
    requires 0x10000 <= c < 0x110000 && b0 == Low8(240 + c / 262144)
    requires b1 == Low8(128 + c / 4096 % 64) && b2 == Low8(128 + c / 64 % 64) && b3 == Low8(128 + c % 64)
    ensures Join4(b0, b1, b2, b3) == c
  {
  }

  lemma Arith4(c: bv32)
    requires 0x10000 <= c < 0x110000
    ensures !Starts1(First(c)) && !Starts2(First(c)) && !Starts3(First(c), Third(c)) && Starts4(First(c), Third(c))
    ensures Tail(Third(c)) && Tail(Second(c)) && Tail(Final(c)) && Scalar(c)
    ensures Join4(First(c), Third(c), Second(c), Final(c)) == c
  {
    hide Low8, Scalar, Join4, Tail;
    Lead4(c, First(c), Third(c));
    TailByte(c, Third(c));
    TailByte(c, Second(c));
    TailByte(c, Final(c));
    Joined4(c, First(c), Third(c), Second(c), Final(c));
  }

  /** A scalar value is decoded from its bytes, whatever follows; half a surrogate is refused. */
  lemma DecodesEncoded(c: bv32, rest: seq<bv8>)
    requires Encodable(c)
    ensures DecodeOne(Encode(c) + rest) == if Scalar(c) then Some((c, Width(c))) else None
  {
    hide Scalar, First, Third, Second, Final, Tail, Starts1, Starts2, Starts3, Starts4, Join1, Join2, Join3, Join4;
    if c < 0x80 { Arith1(c); }
    else if c < 0x800 { Arith2(c); }
    else if c < 0x10000 { Arith3(c); }
    else { Arith4(c); }
  }

  lemma Back1(c: bv32, b0: bv8)
    requires Starts1(b0) && c == Join1(b0)
    ensures c < 0x80 && b0 == First(c) && Scalar(c)
  {
  }

  lemma Back2(c: bv32, b0: bv8, b1: bv8)
    requires Starts2(b0) && Tail(b1) && c == Join2(b0, b1)
    ensures 0x80 <= c < 0x800 && b0 == First(c) && b1 == Final(c) && Scalar(c)
  {
  }

  lemma Back3(c: bv32, b0: bv8, b1: bv8, b2: bv8)
    requires Starts3(b0, b1) && Tail(b1) && Tail(b2) && c == Join3(b0, b1, b2)
    ensures 0x800 <= c < 0x10000 && Scalar(c) && b0 == First(c) && b1 == Second(c) && b2 == Final(c)
  {
  }

  lemma Back4(c: bv32, b0: bv8, b1: bv8, b2: bv8, b3: bv8)
    requires Starts4(b0, b1) && Tail(b1) && Tail(b2) && Tail(b3) && c == Join4(b0, b1, b2, b3)
    ensures 0x10000 <= c < 0x110000 && Scalar(c)
    ensures b0 == First(c) && b1 == Third(c) && b2 == Second(c) && b3 == Final(c)
  {
  }

  /** The decoder accepts only what the encoder writes for a scalar value. */
  lemma EncodesDecoded(b: seq<bv8>)
    requires DecodeOne(b).Some?
    ensures var (c, n) := DecodeOne(b).value; Scalar(c) && n == Width(c) <= |b| && b[..n] == Encode(c)
  {
    hide Scalar, First, Third, Second, Final, Tail, Starts1, Starts2, Starts3, Starts4, Join1, Join2, Join3, Join4;
    var (c, n) := DecodeOne(b).value;
    if n == 1 { Back1(c, b[0]); }
    else if n == 2 { Back2(c, b[0], b[1]); }
    else if n == 3 { Back3(c, b[0], b[1], b[2]); }
    else { Back4(c, b[0], b[1], b[2], b[3]); }
  }

  /** The decoder inverts the encoder exactly on scalar values: with half a surrogate anywhere
    * the bytes are refused. */
  lemma {:induction false} DecodeInvertsEncode(cs: seq<bv32>)
    requires AllEncodable(cs)
    ensures DecodeAll(EncodeAll(cs)) == if AllScalar(cs) then Some(cs) else None
  {
    hide DecodeOne, Encode;
    if cs != [] {
      var b, rest := EncodeAll(cs), EncodeAll(cs[1..]);
      DecodesEncoded(cs[0], rest);
      DecodeInvertsEncode(cs[1..]);
      assert AllScalar(cs) <==> Scalar(cs[0]) && AllScalar(cs[1..]);
      assert [cs[0]] + cs[1..] == cs;
      if Scalar(cs[0]) {
        assert b[Width(cs[0])..] == rest;
      }
    }
  }

  /** Well-formed bytes are the encoding of what they decode to. */
  lemma {:induction false} EncodeInvertsDecode(b: seq<bv8>)
    requires DecodeAll(b).Some?
    ensures AllScalar(DecodeAll(b).value) && EncodeAll(DecodeAll(b).value) == b
    decreases |b|
  {
    hide DecodeOne, Encode;
    if b != [] {
      EncodesDecoded(b);
      var (c, n) := DecodeOne(b).value;
      EncodeInvertsDecode(b[n..]);
      assert DecodeAll(b).value[1..] == DecodeAll(b[n..]).value;
      assert b[..n] + b[n..] == b;
    }
  }

  // ------------------------------------------------------------------------------------------
  // String::fromChars of the runtime
  // ------------------------------------------------------------------------------------------

  lemma {:induction false} EncodePrefix(cs: seq<bv32>, k: nat)
    requires k < |cs|
    ensures EncodeAll(cs[..k + 1]) == EncodeAll(cs[..k]) + Encode(cs[k])
    ensures |EncodeAll(cs[..k + 1])| <= |EncodeAll(cs)|
    decreases |cs| - k
  {
    assert cs[..k + 1] == cs[..k] + [cs[k]];
    EncodeSnoc(cs[..k], cs[k]);
    if k + 1 < |cs| {
      EncodePrefix(cs, k + 1);
    } else {
      assert cs[..k + 1] == cs;
    }
  }

  lemma BytesOf(c: bv32)
    ensures c < 0x80 ==> First(c) == Low8(c)
    ensures 0x80 <= c < 0x800 ==> First(c) == Low8(192 + c / 64)
    ensures 0x800 <= c < 0x10000 ==> First(c) == Low8(224 + c / 4096)
    ensures 0x10000 <= c ==> First(c) == Low8(240 + c / 262144)
    ensures Third(c) == Low8(128 + c / 4096 % 64) && Second(c) == Low8(128 + c / 64 % 64)
    ensures Final(c) == Low8(128 + c % 64)
  {
    hide Low8;
  }

  /** Writes one code point at `j`. */
  method WriteCode(result: array<bv8>, j: nat, code: bv32) returns (j': nat)
    requires Encodable(code) && j + Width(code) <= result.Length
    modifies result
    ensures j' == j + Width(code) && result[..j] == old(result[..j]) && result[j..j'] == Encode(code)
    ensures result[j'..] == old(result[j'..])
  {
    hide Low8, First, Third, Second, Final;
    BytesOf(code);
    j' := j;
    if code < 0x80 {
      result[j'] := Low8(code);
      j' := j' + 1;
    } else if code < 0x800 {
      result[j'] := Low8(192 + code / 64);
      j' := j' + 1;
      result[j'] := Low8(128 + code % 64);
      j' := j' + 1;
    } else if code < 0x10000 {
      result[j'] := Low8(224 + code / 4096);
      j' := j' + 1;
      result[j'] := Low8(128 + code / 64 % 64);
      j' := j' + 1;
      result[j'] := Low8(128 + code % 64);
      j' := j' + 1;
    } else {
      result[j'] := Low8(240 + code / 262144);
      j' := j' + 1;
      result[j'] := Low8(128 + code / 4096 % 64);
      j' := j' + 1;
      result[j'] := Low8(128 + code / 64 % 64);
      j' := j' + 1;
      result[j'] := Low8(128 + code % 64);
      j' := j' + 1;
    }
  }

  lemma StillEncodable(cs: seq<bv32>, k: nat)
    requires k < |cs|
    ensures AllEncodable(cs[..k + 1]) <==> AllEncodable(cs[..k]) && Encodable(cs[k])
    ensures AllEncodable(cs) ==> Encodable(cs[k])
  {
    assert cs[..k + 1] == cs[..k] + [cs[k]];
    assert AllEncodable(cs[..k + 1]) ==> Encodable(cs[..k + 1][k]);
    assert AllEncodable(cs[..k + 1]) ==> AllEncodable(cs[..k]) by {
      assert forall m :: 0 <= m < k ==> cs[..k][m] == cs[..k + 1][m];
    }
  }

  /** The size of the encoding; a code beyond Unicode is refused. */
  method EncodedSize(src: array<bv32>) returns (r: Option<nat>)
    ensures r == if AllEncodable(src[..]) then Some(|EncodeAll(src[..])|) else None
  {
    hide Encode, AllEncodable, EncodeAll;
    ghost var cs := src[..];
    var size, i := 0, 0;
    assert AllEncodable([]) && EncodeAll([]) == [] by { NothingEncoded(); }
    assert cs[..0] == [];
    while i < src.Length
      invariant 0 <= i <= |cs| == src.Length && cs == src[..]
      invariant AllEncodable(cs[..i]) && size == |EncodeAll(cs[..i])|
    {
      var code := src[i];
      EncodePrefix(cs, i);
      StillEncodable(cs, i);
      if code < 0x80 {
        size := size + 1;
      } else if code < 0x800 {
        size := size + 2;
      } else if code < 0x10000 {
        size := size + 3;
      } else if code < 0x110000 {
        size := size + 4;
      } else {
        return None;
      }
      i := i + 1;
    }
    assert cs[..i] == cs;
    return Some(size);
  }

  lemma NothingEncoded()
    ensures AllEncodable([]) && EncodeAll([]) == []
  {
  }

  /** One loop finds the size, a second one writes. */
  method FromChars(src: array<bv32>) returns (r: Option<array<bv8>>)
    ensures r.Some? <==> AllEncodable(src[..])
    ensures r.Some? ==> r.value[..] == EncodeAll(src[..])
  {
    hide Encode, AllEncodable, EncodeAll, Encodable;
    ghost var cs := src[..];
    var size := EncodedSize(src);
    if size.None? {
      return None;
    }
    var result := new bv8[size.value];
    var i, j := 0, 0;
    assert EncodeAll([]) == [] by { NothingEncoded(); }
    assert cs[..0] == [];
    while i < src.Length
      invariant 0 <= i <= |cs| == src.Length && cs == src[..] && AllEncodable(cs)
      invariant 0 <= j <= result.Length == |EncodeAll(cs)| && result[..j] == EncodeAll(cs[..i])
    {
      EncodePrefix(cs, i);
      StillEncodable(cs, i);
      var j' := WriteCode(result, j, src[i]);
      assert result[..j'] == result[..j] + result[j..j'];
      j, i := j', i + 1;
    }
    assert cs[..i] == cs;
    return Some(result);
  }

  // ------------------------------------------------------------------------------------------
  // UTF-16
  // ------------------------------------------------------------------------------------------

  predicate HighHalf(u: bv16) {
    0xD800 <= u <= 0xDBFF
  }

  predicate LowHalf(u: bv16) {
    0xDC00 <= u <= 0xDFFF
  }

  function Wide(u: bv16): bv32 {
    u as bv32
  }

  function Pair(hi: bv16, lo: bv16): bv32 {
    0x10000 + ((Wide(hi) & 0x03FF) << 10) + (Wide(lo) & 0x03FF)
  }

  function High(c: bv32): bv16 {
    ((0xD800 + (c - 0x10000) / 0x400) & 0xFFFF) as bv16
  }

  function Low(c: bv32): bv16 {
    ((0xDC00 + (c - 0x10000) % 0x400) & 0xFFFF) as bv16
  }

  function Narrow(c: bv32): bv16 {
    (c & 0xFFFF) as bv16
  }

  /** UTF-16, section 2.1 of RFC 2781. */
  function Units(c: bv32): seq<bv16> {
    if c < 0x10000 then [Narrow(c)] else [High(c), Low(c)]
  }

  function UnitsAll(cs: seq<bv32>): seq<bv16> {
    if cs == [] then [] else Units(cs[0]) + UnitsAll(cs[1..])
  }

  datatype Points = Points(codes: seq<bv32>) | Incomplete | OutOfRange(second: bv16, index: nat)

  function Before(c: bv32, rest: Points): Points {
    if rest.Points? then Points([c] + rest.codes) else rest
  }

  /** The code points of the units from `ci` on. A high half must be followed by a low one; a low
    * half on its own passes. */
  function PointsFrom(s: seq<bv16>, ci: nat): Points
    requires ci <= |s|
    decreases |s| - ci
  {
    if ci == |s| then Points([])
    else if !HighHalf(s[ci]) then Before(Wide(s[ci]), PointsFrom(s, ci + 1))
    else if ci + 1 == |s| then Incomplete
    else if !LowHalf(s[ci + 1]) then OutOfRange(s[ci + 1], ci + 1)
    else Before(Pair(s[ci], s[ci + 1]), PointsFrom(s, ci + 2))
  }

  /** A high half that no low half follows. */
  predicate Alone(s: seq<bv16>, k: nat)
    requires k < |s|
  {
    HighHalf(s[k]) && (k + 1 < |s| ==> !LowHalf(s[k + 1]))
  }

  lemma HalvesDiffer(u: bv16)
    ensures !(HighHalf(u) && LowHalf(u))
  {
  }

  /** A string is accepted exactly when no high half stands alone. */
  lemma {:induction false} AcceptedExactly(s: seq<bv16>, ci: nat)
    requires ci <= |s|
    ensures PointsFrom(s, ci).Points? <==> forall k :: ci <= k < |s| ==> !Alone(s, k)
    decreases |s| - ci
  {
    hide HighHalf, LowHalf, Pair, Wide;
    if ci < |s| {
      if !HighHalf(s[ci]) {
        AcceptedExactly(s, ci + 1);
      } else if !Alone(s, ci) && ci + 1 < |s| {
        HalvesDiffer(s[ci + 1]);
        assert !Alone(s, ci + 1);
        AcceptedExactly(s, ci + 2);
      }
    }
  }

  /** Otherwise the first one that does is reported. */
  lemma {:induction false} RefusedAt(s: seq<bv16>, ci: nat, k: nat)
    requires ci <= k < |s| && Alone(s, k) && forall j :: ci <= j < k ==> !Alone(s, j)
    ensures PointsFrom(s, ci) == if k + 1 == |s| then Incomplete else OutOfRange(s[k + 1], k + 1)
    decreases |s| - ci
  {
    hide HighHalf, LowHalf, Pair, Wide;
    if !HighHalf(s[ci]) {
      RefusedAt(s, ci + 1, k);
    } else if ci < k {
      assert !Alone(s, ci);
      HalvesDiffer(s[ci + 1]);
      RefusedAt(s, ci + 2, k);
    }
  }

  // The arithmetic of surrogate pairs

  lemma PairArith(hi: bv16, lo: bv16)
    requires HighHalf(hi) && LowHalf(lo)
    ensures 0x10000 <= Pair(hi, lo) < 0x110000 && High(Pair(hi, lo)) == hi && Low(Pair(hi, lo)) == lo
  {
  }

  lemma SplitHalves(c: bv32, hi: bv16, lo: bv16)
    requires 0x10000 <= c < 0x110000 && hi == High(c) && lo == Low(c)
    ensures HighHalf(hi) && LowHalf(lo) && Pair(hi, lo) == c
  {
  }

  lemma SplitArith(c: bv32)
    requires 0x10000 <= c < 0x110000
    ensures HighHalf(High(c)) && LowHalf(Low(c)) && Pair(High(c), Low(c)) == c
  {
    hide High, Low, Pair, HighHalf, LowHalf;
    SplitHalves(c, High(c), Low(c));
  }

  lemma UnitArith(u: bv16)
    ensures Wide(u) < 0x10000 && Narrow(Wide(u)) == u && (Scalar(Wide(u)) <==> !HighHalf(u) && !LowHalf(u))
  {
  }

  lemma NarrowArith(c: bv32)
    requires c < 0x10000
    ensures Wide(Narrow(c)) == c
  {
  }

  lemma Together(a: seq<bv16>, b: seq<bv16>, ci: nat)
    requires ci <= |b|
    requires PointsFrom(b, ci).Points?
    ensures |a + b| == |a| + |b| && PointsFrom(a + b, |a| + ci) == PointsFrom(b, ci)
    decreases |b| - ci
  {
    hide HighHalf, LowHalf, Pair, Wide;
    if ci < |b| {
      if HighHalf(b[ci]) { Together(a, b, ci + 2); } else { Together(a, b, ci + 1); }
    }
  }

  lemma OneUnit(u: bv16)
    ensures Units(Wide(u)) == [u] && Encodable(Wide(u))
  {
    hide Wide, Narrow, High, Low;
    UnitArith(u);
  }

  lemma TwoUnits(hi: bv16, lo: bv16)
    requires HighHalf(hi) && LowHalf(lo)
    ensures Units(Pair(hi, lo)) == [hi, lo] && Encodable(Pair(hi, lo))
  {
    hide HighHalf, LowHalf, Pair, High, Low;
    PairArith(hi, lo);
  }

  lemma UnitsBefore(c: bv32, cs: seq<bv32>)
    ensures UnitsAll([c] + cs) == Units(c) + UnitsAll(cs)
    ensures Encodable(c) && AllEncodable(cs) ==> AllEncodable([c] + cs)
  {
    hide Units, Encodable;
    assert ([c] + cs)[1..] == cs;
  }

  /** Whatever is accepted stands for exactly the units given: nothing is lost. */
  lemma {:induction false} PointsLossless(s: seq<bv16>, ci: nat)
    requires ci <= |s| && PointsFrom(s, ci).Points?
    ensures UnitsAll(PointsFrom(s, ci).codes) == s[ci..] && AllEncodable(PointsFrom(s, ci).codes)
    decreases |s| - ci
  {
    hide HighHalf, LowHalf, Pair, Wide, Units, Encodable;
    if ci < |s| {
      if !HighHalf(s[ci]) {
        PointsLossless(s, ci + 1);
        OneUnit(s[ci]);
        UnitsBefore(Wide(s[ci]), PointsFrom(s, ci + 1).codes);
        assert s[ci..] == [s[ci]] + s[ci + 1..];
      } else {
        PointsLossless(s, ci + 2);
        TwoUnits(s[ci], s[ci + 1]);
        UnitsBefore(Pair(s[ci], s[ci + 1]), PointsFrom(s, ci + 2).codes);
        assert s[ci..] == [s[ci], s[ci + 1]] + s[ci + 2..];
      }
    }
  }

  /** The code points of well-formed UTF-16 are those it was made from. */
  lemma {:induction false} PointsOfUnits(cs: seq<bv32>)
    requires AllScalar(cs)
    ensures PointsFrom(UnitsAll(cs), 0) == Points(cs)
  {
    hide HighHalf, LowHalf, Pair, Wide, High, Low, Narrow;
    if cs != [] {
      var rest := UnitsAll(cs[1..]);
      PointsOfUnits(cs[1..]);
      Together(Units(cs[0]), rest, 0);
      assert Scalar(cs[0]);
      assert [cs[0]] + cs[1..] == cs;
      if cs[0] < 0x10000 {
        NarrowArith(cs[0]);
        UnitArith(Narrow(cs[0]));
      } else {
        SplitArith(cs[0]);
      }
    }
  }

  lemma {:induction false} FitsBuffer(cs: seq<bv32>)
    ensures |EncodeAll(cs)| <= 3 * |UnitsAll(cs)|
  {
    if cs != [] {
      FitsBuffer(cs[1..]);
    }
  }

  // ------------------------------------------------------------------------------------------
  // exportString of the JavaScript side
  // ------------------------------------------------------------------------------------------

  function Lead(c: bv32, shift: nat, mark: bv32): bv8
    requires shift < 32
  {
    Low8((c >> shift) | mark)
  }

  function Group(c: bv32, shift: nat): bv8
    requires shift < 32
  {
    Low8(((c >> shift) & 63) | 128)
  }

  /** Shifts and masks are the divisions and remainders of the runtime. */
  lemma ShiftArith(c: bv32)
    requires 0x80 <= c < 0x110000
    ensures c < 0x800 ==> Lead(c, 6, 192) == First(c)
    ensures 0x800 <= c < 0x10000 ==> Lead(c, 12, 224) == First(c)
    ensures 0x10000 <= c ==> Lead(c, 18, 240) == First(c)
    ensures Group(c, 12) == Third(c) && Group(c, 6) == Second(c) && Group(c, 0) == Final(c)
  {
  }

  /** Writes one code point at `at`. */
  method PutCode(data: array<bv8>, at: nat, c: bv32) returns (n: nat)
    requires Encodable(c) && at + Width(c) <= data.Length
    modifies data
    ensures n == Width(c) && data[..] == Written(old(data[..]), at, Encode(c))
  {
    hide Low8, Lead, Group, First, Second, Third, Final;
    n := 0;
    if c < 128 {
      data[at] := Low8(c);
      assert First(c) == Low8(c) by { FirstSmall(c); }
      return 1;
    }
    ShiftArith(c);
    if c < 2048 {
      data[at] := Lead(c, 6, 192);
      n := n + 1;
    } else {
      if c >= 0x10000 {
        data[at] := Lead(c, 18, 240);
        n := n + 1;
        data[at + n] := Group(c, 12);
        n := n + 1;
      } else {
        data[at] := Lead(c, 12, 224);
        n := n + 1;
      }
      data[at + n] := Group(c, 6);
      n := n + 1;
    }
    data[at + n] := Group(c, 0);
    n := n + 1;
  }

  lemma FirstSmall(c: bv32)
    requires c < 0x80
    ensures First(c) == Low8(c)
  {
  }

  datatype Export = Exported(size: nat) | IncompletePair | SecondOutOfRange(second: bv16, index: nat)

  function Joined(done: seq<bv32>, rest: Points): Points {
    if rest.Points? then Points(done + rest.codes) else rest
  }

  lemma JoinedStep(done: seq<bv32>, c: bv32, rest: Points)
    ensures Joined(done, Before(c, rest)) == Joined(done + [c], rest)
  {
    if rest.Points? {
      assert done + ([c] + rest.codes) == (done + [c]) + rest.codes;
    }
  }

  /** The code points of the first units are encodable and fit in three bytes a unit. */
  ghost predicate Progress(s: seq<bv16>, ci: nat, done: seq<bv32>)
    requires ci <= |s|
  {
    AllEncodable(done) && |EncodeAll(done)| <= 3 * ci && PointsFrom(s, 0) == Joined(done, PointsFrom(s, ci))
  }

  lemma ProgressStep(s: seq<bv16>, ci: nat, done: seq<bv32>)
    requires ci < |s| && Progress(s, ci, done)
    ensures !HighHalf(s[ci]) ==> Encodable(Wide(s[ci])) && Progress(s, ci + 1, done + [Wide(s[ci])])
    ensures !HighHalf(s[ci]) ==> |EncodeAll(done)| + Width(Wide(s[ci])) <= 3 * (ci + 1)
    ensures HighHalf(s[ci]) && ci + 1 == |s| ==> PointsFrom(s, 0) == Incomplete
    ensures HighHalf(s[ci]) && ci + 1 < |s| && !LowHalf(s[ci + 1]) ==> PointsFrom(s, 0) == OutOfRange(s[ci + 1], ci + 1)
  {
    hide HighHalf, LowHalf, Wide, Pair;
    UnitArith(s[ci]);
    if !HighHalf(s[ci]) {
      EncodeSnoc(done, Wide(s[ci]));
      JoinedStep(done, Wide(s[ci]), PointsFrom(s, ci + 1));
    }
  }

  lemma ProgressPair(s: seq<bv16>, ci: nat, done: seq<bv32>)
    requires ci + 1 < |s| && Progress(s, ci, done) && HighHalf(s[ci]) && LowHalf(s[ci + 1])
    ensures Encodable(Pair(s[ci], s[ci + 1])) && Pair(s[ci], s[ci + 1]) >= 0x10000
    ensures Progress(s, ci + 2, done + [Pair(s[ci], s[ci + 1])])
    ensures |EncodeAll(done)| + Width(Pair(s[ci], s[ci + 1])) <= 3 * (ci + 2)
  {
    hide HighHalf, LowHalf, Wide, Pair;
    PairArith(s[ci], s[ci + 1]);
    EncodeSnoc(done, Pair(s[ci], s[ci + 1]));
    JoinedStep(done, Pair(s[ci], s[ci + 1]), PointsFrom(s, ci + 2));
  }

  /** Writes at `addr` into memory, where four bytes a unit were allocated. When the string is
    * refused, what was written so far lies within that room. */
  method ExportString(s: seq<bv16>, data: array<bv8>, addr: nat) returns (r: Export, ghost written: seq<bv8>)
    requires addr + 4 * |s| <= data.Length
    modifies data
    ensures |written| <= 3 * |s| && data[..] == Written(old(data[..]), addr, written)
    ensures match PointsFrom(s, 0)
      case Points(cs) => r == Exported(|EncodeAll(cs)|) && written == EncodeAll(cs)
      case Incomplete => r == IncompletePair
      case OutOfRange(second, index) => r == SecondOutOfRange(second, index)
  {
    hide HighHalf, LowHalf, Wide, Pair, Encodable, Encode, Progress, PointsFrom, EncodeAll, Written;
    var i, ci := 0, 0;
    ghost var done: seq<bv32> := [];
    ProgressStart(s);
    WrittenNothing(data[..], addr);
    while ci != |s|
      invariant 0 <= ci <= |s| && Progress(s, ci, done) && i == |EncodeAll(done)| <= 3 * ci
      invariant data[..] == Written(old(data[..]), addr, EncodeAll(done))
      decreases |s| - ci
    {
      var c := Wide(s[ci]);
      ProgressStep(s, ci, done);
      WideHalves(s[ci]);
      if c > 0xd7ff && c < 0xdc00 {
        ci := ci + 1;
        if ci >= |s| {
          return IncompletePair, EncodeAll(done);
        }
        var c2 := s[ci];
        NotLow(c2);
        if c2 < 0xdc00 || c2 > 0xdfff {
          return SecondOutOfRange(c2, ci), EncodeAll(done);
        }
        ProgressPair(s, ci - 1, done);
        c := Pair(s[ci - 1], c2);
      }
      var n := PutCode(data, addr + i, c);
      WrittenOn(old(data[..]), addr, EncodeAll(done), Encode(c));
      EncodeSnoc(done, c);
      done := done + [c];
      i, ci := i + n, ci + 1;
    }
    ProgressEnd(s, done);
    return Exported(i), EncodeAll(done);
  }

  lemma ProgressStart(s: seq<bv16>)
    ensures Progress(s, 0, []) && EncodeAll([]) == []
  {
    if PointsFrom(s, 0).Points? {
      assert [] + PointsFrom(s, 0).codes == PointsFrom(s, 0).codes;
    }
  }

  lemma ProgressEnd(s: seq<bv16>, done: seq<bv32>)
    requires Progress(s, |s|, done)
    ensures PointsFrom(s, 0) == Points(done) && |EncodeAll(done)| <= 3 * |s|
  {
    assert done + [] == done;
  }

  lemma WideHalves(u: bv16)
    ensures 0xd7ff < Wide(u) < 0xdc00 <==> HighHalf(u)
  {
  }

  lemma NotLow(u: bv16)
    ensures LowHalf(u) <==> !(u < 0xdc00 || u > 0xdfff)
  {
  }

  // ------------------------------------------------------------------------------------------
  // The two encoders agree
  // ------------------------------------------------------------------------------------------

  /** What JavaScript exports for well-formed UTF-16 is what the runtime writes for its code
    * points, and a strict decoder reads both back. */
  lemma EncodersAgree(cs: seq<bv32>)
    requires AllScalar(cs)
    ensures PointsFrom(UnitsAll(cs), 0) == Points(cs)
    ensures AllEncodable(cs) && DecodeAll(EncodeAll(cs)) == Some(cs)
    ensures |EncodeAll(cs)| <= 4 * |UnitsAll(cs)|
  {
    PointsOfUnits(cs);
    assert AllEncodable(cs) by {
      forall k | 0 <= k < |cs| ensures Encodable(cs[k]) { assert Scalar(cs[k]); }
    }
    DecodeInvertsEncode(cs);
    FitsBuffer(cs);
  }

  /** Every low half follows a high one. */
  predicate LowsPaired(s: seq<bv16>) {
    forall k :: 0 <= k < |s| && LowHalf(s[k]) ==> k > 0 && HighHalf(s[k - 1])
  }

  /** An accepted string is exported as valid UTF-8 exactly when every low half follows a high one. */
  lemma ExportValid(s: seq<bv16>)
    requires PointsFrom(s, 0).Points?
    ensures DecodeAll(EncodeAll(PointsFrom(s, 0).codes)).Some? <==> LowsPaired(s)
  {
    hide Encode, EncodeAll, DecodeAll, PointsFrom, HighHalf, LowHalf;
    PointsLossless(s, 0);
    DecodeInvertsEncode(PointsFrom(s, 0).codes);
    ScalarsPaired(s, 0);
  }

  /** From a place where a code point starts. */
  predicate PairedFrom(s: seq<bv16>, ci: nat) {
    forall k :: ci <= k < |s| && LowHalf(s[k]) ==> k > ci && HighHalf(s[k - 1])
  }

  lemma {:induction false} ScalarsPaired(s: seq<bv16>, ci: nat)
    requires ci <= |s| && PointsFrom(s, ci).Points?
    ensures AllScalar(PointsFrom(s, ci).codes) <==> PairedFrom(s, ci)
    decreases |s| - ci
  {
    hide Scalar, HighHalf, LowHalf, Pair, Wide;
    if ci < |s| {
      var cs := PointsFrom(s, ci).codes;
      UnitArith(s[ci]);
      NotBoth(s[ci]);
      FirstScalar(cs);
      if !HighHalf(s[ci]) {
        ScalarsPaired(s, ci + 1);
        assert cs[1..] == PointsFrom(s, ci + 1).codes;
        PairedStep(s, ci, ci + 1);
      } else {
        PairArith(s[ci], s[ci + 1]);
        PairIsScalar(s[ci], s[ci + 1]);
        NotBoth(s[ci + 1]);
        ScalarsPaired(s, ci + 2);
        assert cs[1..] == PointsFrom(s, ci + 2).codes;
        PairedStep(s, ci, ci + 2);
      }
    }
  }

  lemma FirstScalar(cs: seq<bv32>)
    requires cs != []
    ensures AllScalar(cs) <==> Scalar(cs[0]) && AllScalar(cs[1..])
  {
    assert cs == [cs[0]] + cs[1..];
  }

  lemma NotBoth(u: bv16)
    ensures !(HighHalf(u) && LowHalf(u))
  {
  }

  lemma PairIsScalar(hi: bv16, lo: bv16)
    requires HighHalf(hi) && LowHalf(lo)
    ensures Scalar(Pair(hi, lo))
  {
    PairArith(hi, lo);
  }

  /** One or two units further. */
  lemma PairedStep(s: seq<bv16>, ci: nat, next: nat)
    requires ci < next <= |s| && !HighHalf(s[next - 1])
    requires next == ci + 1 || (next == ci + 2 && HighHalf(s[ci]) && LowHalf(s[ci + 1]))
    requires !(HighHalf(s[ci]) && LowHalf(s[ci]))
    ensures PairedFrom(s, ci) <==> PairedFrom(s, next) && (next == ci + 1 ==> !LowHalf(s[ci]))
  {
    if PairedFrom(s, ci) {
      forall k | next <= k < |s| && LowHalf(s[k]) ensures k > next && HighHalf(s[k - 1]) {
      }
    }
  }
}
