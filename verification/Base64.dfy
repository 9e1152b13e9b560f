/** Base64 as `src/crypto/traffic_crypto.c` writes and reads it (RFC 4648, section 4), plain and obfuscated. */
module Base64 {
  import opened Bytes
  import opened Modular

  const PAD: uint8 := 61

  /** The alphabet: A-Z, a-z, 0-9, + and /. */
  function Symbol(v: nat): (c: uint8)
    requires v < 64
    ensures c != PAD && c != 0
  {
    if v < 26 then (65 + v) as uint8
    else if v < 52 then (71 + v) as uint8
    else if v < 62 then (v - 4) as uint8
    else if v == 62 then 43 else 47
  }

  /** The inverse table: -1 outside the alphabet. */
  function Value(c: uint8): (v: int)
    ensures -1 <= v < 64
  {
    if 65 <= c <= 90 then c as int - 65
    else if 97 <= c <= 122 then c as int - 71
    else if 48 <= c <= 57 then c as int + 4
    else if c == 43 then 62 else if c == 47 then 63 else -1
  }

  lemma ValueOfSymbol(v: nat)
    requires v < 64
    ensures Value(Symbol(v)) == v
  {
  }

  /** The 24 bits of up to three bytes. */
  function Bits(src: bytes): (v: nat)
    requires src != []
    ensures v < 0x100_0000
  {
    src[0] as nat * 0x1_0000 + (if |src| > 1 then src[1] as nat * 0x100 else 0) + if |src| > 2 then src[2] as nat else 0
  }

  /** Four symbols for the first three bytes, padded if there are fewer. */
  function Quad(src: bytes): (q: bytes)
    requires src != []
    ensures |q| == 4
  {
    var v := Bits(src);
    [Symbol(v / 0x4_0000), Symbol(v / 0x1000 % 64),
     if |src| > 1 then Symbol(v / 64 % 64) else PAD, if |src| > 2 then Symbol(v % 64) else PAD]
  }

  function Rest(src: bytes): bytes { if |src| > 3 then src[3..] else [] }

  function Encoded(src: bytes): bytes
    decreases |src|
  {
    if src == [] then [] else Quad(src) + Encoded(Rest(src))
  }

  lemma {:induction false} EncodedLength(src: bytes)
    ensures |Encoded(src)| == 4 * ((|src| + 2) / 3)
    decreases |src|
  {
    hide Quad;
    if src != [] {
      EncodedLength(Rest(src));
      ThirdMore(|src|);
    }
  }

  lemma ThirdMore(n: nat)
    requires n > 0
    ensures (n + 2) / 3 == 1 + ((if n > 3 then n - 3 else 0) + 2) / 3
  {
  }

  /** trf_base64_encode: the text and a terminating zero. */
  method Encode(src: array<uint8>, len: nat, out: array<uint8>)
    requires len <= src.Length && src != out && out.Length > |Encoded(src[..len])|
    modifies out
    ensures var e := Encoded(src[..len]); out[..|e|] == e && out[|e|] == 0
  {
    hide Quad, Encoded, From;
    var i, j := 0, 0;
    ghost var s := src[..len];
    FromStart(s);
    while i < len
      invariant i <= len + 2 && src[..len] == s
      invariant j <= out.Length && out[..j] + Encoded(From(s, i)) == Encoded(s) && |Encoded(s)| < out.Length
      decreases len - i
    {
      ghost var before := out[..j];
      var quad := Quad(From(src[..len], i));
      EncodedNext(s, i);
      Put(out, j, quad);
      assert out[..j + 4] == before + quad;
      i, j := i + 3, j + 4;
    }
    EncodedEnd(s, i);
    out[j] := 0;
  }

  function From(s: bytes, i: nat): (r: bytes)
    ensures i < |s| ==> r != []
  {
    if i < |s| then s[i..] else []
  }

  lemma FromStart(s: bytes)
    ensures From(s, 0) == s
  {
  }

  lemma EncodedNext(s: bytes, i: nat)
    requires i < |s|
    ensures Encoded(From(s, i)) == Quad(From(s, i)) + Encoded(From(s, i + 3))
  {
    assert Rest(From(s, i)) == From(s, i + 3);
    hide Quad;
  }

  lemma EncodedEnd(s: bytes, i: nat)
    requires i >= |s|
    ensures Encoded(From(s, i)) == []
  {
  }

  method Put(out: array<uint8>, n: nat, b: bytes)
    requires n + |b| <= out.Length
    modifies out
    ensures out[..n] == old(out[..n]) && out[n..n + |b|] == b
  {
    forall k | 0 <= k < |b| {
      out[n + k] := b[k];
    }
  }

  /** Four symbols of the alphabet, with `=` only in the last two places. */
  predicate GoodQuad(q: bytes) {
    |q| == 4 && Value(q[0]) >= 0 && Value(q[1]) >= 0 && (q[2] == PAD || Value(q[2]) >= 0) && (q[3] == PAD || Value(q[3]) >= 0)
  }

  /** The input the decoder is for. */
  predicate Wellformed(text: bytes)
    decreases |text|
  {
    text == [] || (|text| >= 4 && GoodQuad(text[..4]) && Wellformed(text[4..]))
  }

  function Unquad(q: bytes): (r: bytes)
    requires GoodQuad(q)
    ensures |r| <= 3
  {
    var v := Value(q[0]) * 0x4_0000 + Value(q[1]) * 0x1000;
    var w := if q[2] != PAD then v + Value(q[2]) * 64 else v;
    var x := if q[3] != PAD then w + Value(q[3]) else w;
    [(v / 0x1_0000) as uint8]
    + (if q[2] != PAD then [(w / 0x100 % 0x100) as uint8] else [])
    + (if q[3] != PAD then [(x % 0x100) as uint8] else [])
  }

  function Decoded(text: bytes): bytes
    requires Wellformed(text)
    decreases |text|
  {
    if text == [] then [] else Unquad(text[..4]) + Decoded(text[4..])
  }

  /** trf_base64_decode of a text of `len` symbols. */
  method Decode(text: array<uint8>, len: nat, out: array<uint8>) returns (n: nat)
    requires len <= text.Length && Wellformed(text[..len]) && text != out && out.Length >= |Decoded(text[..len])|
    modifies out
    ensures n == |Decoded(text[..len])| && out[..n] == Decoded(text[..len])
  {
    hide Unquad, GoodQuad, Decoded, Wellformed;
    n := 0;
    ghost var t := text[..len];
    assert t[0..] == t;
    var i := 0;
    while i < len
      invariant i <= len && n <= out.Length && text[..len] == t && Wellformed(t[i..])
      invariant out[..n] + Decoded(t[i..]) == Decoded(t)
      decreases len - i
    {
      DecodedHere(t, i);
      assert t[i..i + 4] == text[i..i + 4];
      var b := Unquad(text[i..i + 4]);
      ghost var before, rest := out[..n], Decoded(t[i + 4..]);
      assert before + (b + rest) == before + b + rest;
      Put(out, n, b);
      assert out[..n + |b|] == before + b;
      n := n + |b|;
      i := i + 4;
    }
    DecodedEnd(t);
  }

  /** One round of the loop. */
  lemma DecodedHere(t: bytes, i: nat)
    requires i < |t| && Wellformed(t[i..])
    ensures i + 4 <= |t| && GoodQuad(t[i..i + 4]) && Wellformed(t[i + 4..])
    ensures Decoded(t[i..]) == Unquad(t[i..i + 4]) + Decoded(t[i + 4..])
  {
    hide Unquad, GoodQuad;
    assert t[i..][..4] == t[i..i + 4] && t[i..][4..] == t[i + 4..];
  }

  lemma DecodedEnd(t: bytes)
    ensures Decoded(t[|t|..]) == []
  {
  }

  /* Round trip */

  /** The four sextets of 24 bits, and what is left of the upper bytes without the lower sextets. */
  lemma Sextets(v: nat)
    ensures v / 0x4_0000 * 0x4_0000 + v / 0x1000 % 64 * 0x1000 == v - v % 0x1000
    ensures v - v % 0x1000 + v / 64 % 64 * 64 == v - v % 64
    ensures (v - v % 0x1000) / 0x1_0000 == v / 0x1_0000
    ensures (v - v % 64) / 0x100 == v / 0x100
  {
    UpperSextets(v);
    LowerSextets(v);
    UpperByte(v);
    MiddleByte(v);
  }

  lemma UpperSextets(v: nat)
    ensures v / 0x4_0000 * 0x4_0000 + v / 0x1000 % 64 * 0x1000 == v - v % 0x1000
  {
    var w, s := DivParts(v, 0x1000);
    var q, b := DivParts(w, 64);
    DivUnique(v, 0x4_0000, q, b * 0x1000 + s);
  }

  lemma LowerSextets(v: nat)
    ensures v - v % 0x1000 + v / 64 % 64 * 64 == v - v % 64
  {
    var w, s := DivParts(v, 64);
    var q, b := DivParts(w, 64);
    DivUnique(v, 0x1000, q, b * 64 + s);
  }

  lemma UpperByte(v: nat)
    ensures (v - v % 0x1000) / 0x1_0000 == v / 0x1_0000
  {
    var w, s := DivParts(v, 0x1000);
    var q, b := DivParts(w, 16);
    DivUnique(v, 0x1_0000, q, b * 0x1000 + s);
    DivUnique(v - s, 0x1_0000, q, b * 0x1000);
  }

  lemma MiddleByte(v: nat)
    ensures (v - v % 64) / 0x100 == v / 0x100
  {
    var w, s := DivParts(v, 64);
    var q, b := DivParts(w, 4);
    DivUnique(v, 0x100, q, b * 64 + s);
    DivUnique(v - s, 0x100, q, b * 64);
  }

  lemma Bytewise(a: nat, b: nat, c: nat)
    requires a < 0x100 && b < 0x100 && c < 0x100
    ensures var v := a * 0x1_0000 + b * 0x100 + c;
            v / 0x1_0000 == a && v / 0x100 % 0x100 == b && v % 0x100 == c
  {
    var v := a * 0x1_0000 + b * 0x100 + c;
    DivUnique(v, 0x1_0000, a, b * 0x100 + c);
    DivUnique(v, 0x100, a * 0x100 + b, c);
    DivUnique(a * 0x100 + b, 0x100, a, b);
  }

  /** What the decoder reads back from a quad. */
  lemma QuadValues(src: bytes)
    requires src != []
    ensures var q, v := Quad(src), Bits(src);
            Value(q[0]) == v / 0x4_0000 && Value(q[1]) == v / 0x1000 % 64 && GoodQuad(q)
            && (if |src| > 1 then q[2] != PAD && Value(q[2]) == v / 64 % 64 else q[2] == PAD)
            && (if |src| > 2 then q[3] != PAD && Value(q[3]) == v % 64 else q[3] == PAD)
  {
    hide Symbol, Value, Bits;
    var v := Bits(src);
    ValueOfSymbol(v / 0x4_0000);
    ValueOfSymbol(v / 0x1000 % 64);
    ValueOfSymbol(v / 64 % 64);
    ValueOfSymbol(v % 64);
  }

  lemma BitsBytes(src: bytes)
    requires src != []
    ensures var v := Bits(src);
            v / 0x1_0000 == src[0] as nat && (|src| > 1 ==> v / 0x100 % 0x100 == src[1] as nat)
            && (|src| > 2 ==> v % 0x100 == src[2] as nat) && (|src| == 1 ==> v % 0x1000 == 0) && (|src| == 2 ==> v % 64 == 0)
  {
    var b, c := if |src| > 1 then src[1] as nat else 0, if |src| > 2 then src[2] as nat else 0;
    Bytewise(src[0] as nat, b, c);
    Aligned(src[0] as nat, b);
  }

  lemma Aligned(a: nat, b: nat)
    ensures a * 0x1_0000 % 0x1000 == 0 && (a * 0x1_0000 + b * 0x100) % 64 == 0
  {
    Multiple(16 * a, 0x1000);
    Multiple(1024 * a + 4 * b, 64);
  }

  lemma Multiple(q: nat, m: nat)
    requires m > 0
    ensures q * m % m == 0
  {
    DivUnique(q * m, m, q, 0);
  }

  lemma QuadBack(src: bytes)
    requires src != []
    ensures GoodQuad(Quad(src)) && Unquad(Quad(src)) == src[..if |src| > 3 then 3 else |src|]
  {
    hide Symbol, Value, Bits, Quad, GoodQuad;
    QuadValues(src);
    BitsBytes(src);
    Sextets(Bits(src));
    assert Unquad(Quad(src))[0] == src[0];
  }

  lemma {:induction false} EncodedWellformed(src: bytes)
    ensures Wellformed(Encoded(src))
    decreases |src|
  {
    if src != [] {
      EncodedWellformed(Rest(src));
      QuadBack(src);
      hide Quad, GoodQuad;
      assert Encoded(src)[..4] == Quad(src) && Encoded(src)[4..] == Encoded(Rest(src));
    }
  }

  lemma {:induction false} DecodedEncoded(src: bytes)
    ensures Wellformed(Encoded(src)) && Decoded(Encoded(src)) == src
    decreases |src|
  {
    EncodedWellformed(src);
    if src != [] {
      DecodedEncoded(Rest(src));
      QuadBack(src);
      hide Quad, GoodQuad, Unquad;
      assert Encoded(src)[..4] == Quad(src) && Encoded(src)[4..] == Encoded(Rest(src));
    }
  }

  /** The decoder takes the text up to the first zero: there is none in it. */
  lemma {:induction false} EncodedNoZero(src: bytes)
    ensures 0 !in Encoded(src)
    decreases |src|
  {
    if src != [] {
      EncodedNoZero(Rest(src));
      QuadNoZero(src);
      hide Quad;
    }
  }

  lemma QuadNoZero(src: bytes)
    requires src != []
    ensures 0 !in Quad(src)
  {
    hide Symbol, Bits;
  }

  /** Decoding undoes encoding, for every byte string; the text has four symbols for every three bytes begun. */
  lemma RoundTrip(src: bytes)
    ensures Wellformed(Encoded(src)) && Decoded(Encoded(src)) == src
    ensures |Encoded(src)| == 4 * ((|src| + 2) / 3) && 0 !in Encoded(src)
  {
    DecodedEncoded(src);
    EncodedLength(src);
    EncodedNoZero(src);
  }

  /* The text, symbol by symbol */

  /** Table 1 of RFC 4648: A to Z, a to z, 0 to 9, plus, slash. */
  function Letter(v: nat): char
    requires v < 64
  {
    if v < 26 then ('A' as int + v) as char
    else if v < 52 then ('a' as int + (v - 26)) as char
    else if v < 62 then ('0' as int + (v - 52)) as char
    else if v == 62 then '+' else '/'
  }

  lemma SymbolIs(v: nat)
    requires v < 64
    ensures Symbol(v) as int == Letter(v) as int
  {
  }

  /** Exactly the letters have values: each its own place in the table. */
  lemma ValueIs(c: uint8, v: nat)
    requires v < 64
    ensures Value(c) == v <==> c as int == Letter(v) as int
    ensures Value(c) >= 0 ==> c as int == Letter(Value(c)) as int
  {
  }

  /** The 24 bits of the `g`th group of three bytes, with zeros for those that are not there. */
  function Group(src: bytes, g: nat): nat
    requires 3 * g < |src|
  {
    var n := |src| - 3 * g;
    src[3 * g] as nat * 0x1_0000 + (if n > 1 then src[3 * g + 1] as nat * 0x100 else 0) + if n > 2 then src[3 * g + 2] as nat else 0
  }

  lemma GroupSmall(src: bytes, g: nat)
    requires 3 * g < |src|
    ensures Group(src, g) < 0x100_0000
  {
  }

  /** Symbol `r` of a group stands for its six bits from the top, or is `=` if the bytes they come from are not there. */
  function TextAt(src: bytes, g: nat, r: nat): char
    requires 3 * g < |src| && r < 4
  {
    GroupSmall(src, g);
    var v, n := Group(src, g), |src| - 3 * g;
    if r == 0 then Letter(v / 0x4_0000)
    else if r == 1 then Letter(v / 0x1000 % 64)
    else if r == 2 then (if n > 1 then Letter(v / 64 % 64) else '=')
    else if n > 2 then Letter(v % 64) else '='
  }

  /** The text is that of the standard. */
  lemma {:induction false} EncodedAt(src: bytes, g: nat, r: nat)
    requires 3 * g < |src| && r < 4
    ensures 4 * g + r < |Encoded(src)| && Encoded(src)[4 * g + r] as int == TextAt(src, g, r) as int
    decreases g
  {
    hide Quad, TextAt;
    if g == 0 {
      QuadAt(src, r);
    } else {
      EncodedAt(Rest(src), g - 1, r);
      TextOfRest(src, g, r);
    }
  }

  lemma TextOfRest(src: bytes, g: nat, r: nat)
    requires g > 0 && 3 * g < |src| && r < 4
    ensures |Rest(src)| == |src| - 3 && TextAt(Rest(src), g - 1, r) == TextAt(src, g, r)
  {
    hide Letter;
    assert Group(Rest(src), g - 1) == Group(src, g);
    hide Group;
  }

  lemma QuadAt(src: bytes, r: nat)
    requires src != [] && r < 4
    ensures Quad(src)[r] as int == TextAt(src, 0, r) as int
  {
    hide Symbol, Letter;
    var v := Bits(src);
    SymbolIs(v / 0x4_0000);
    SymbolIs(v / 0x1000 % 64);
    SymbolIs(v / 64 % 64);
    SymbolIs(v % 64);
  }

  /* The obfuscated pair */

  /** Each byte combined with the seed, which is repeated. */
  function Masked(src: bytes, seed: bytes): (r: bytes)
    requires seed != []
    ensures |r| == |src|
  {
    seq(|src|, i requires 0 <= i < |src| => Xor(src[i], seed[i % |seed|]))
  }

  lemma MaskedTwice(src: bytes, seed: bytes)
    requires seed != []
    ensures Masked(Masked(src, seed), seed) == src
  {
    hide Xor;
    forall i | 0 <= i < |src| ensures Masked(Masked(src, seed), seed)[i] == src[i] {
      XorInvolution(src[i], seed[i % |seed|]);
    }
  }

  /** The masking loop of both obfuscated functions. */
  method MaskInPlace(a: array<uint8>, n: nat, seed: bytes)
    requires n <= a.Length && seed != []
    modifies a
    ensures a[..n] == Masked(old(a[..n]), seed) && a[n..] == old(a[n..])
  {
    hide Xor;
    for i := 0 to n
      invariant forall k :: 0 <= k < i ==> a[k] == Xor(old(a[k]), seed[k % |seed|])
      invariant forall k :: i <= k < a.Length ==> a[k] == old(a[k])
    {
      a[i] := Xor(a[i], seed[i % |seed|]);
    }
  }

  /** trf_base64_encode_obfuscated */
  method EncodeObfuscated(src: array<uint8>, len: nat, seed: bytes, out: array<uint8>)
    requires len <= src.Length && src != out && seed != [] && out.Length > |Encoded(Masked(src[..len], seed))|
    modifies out
    ensures var e := Encoded(Masked(old(src[..len]), seed)); out[..|e|] == e && out[|e|] == 0
  {
    hide Masked, Encoded;
    ghost var s := src[..len];
    var tmp := new uint8[len];
    forall k | 0 <= k < len {
      tmp[k] := src[k];
    }
    assert tmp[..len] == s;
    MaskInPlace(tmp, len, seed);
    ghost var m := tmp[..len];
    assert m == Masked(s, seed);
    Encode(tmp, len, out);
    assert tmp[..len] == m;
  }

  /** trf_base64_decode_obfuscated */
  method DecodeObfuscated(text: array<uint8>, len: nat, seed: bytes, out: array<uint8>) returns (n: nat)
    requires len <= text.Length && Wellformed(text[..len]) && text != out && out.Length >= |Decoded(text[..len])| && seed != []
    modifies out
    ensures n == |Decoded(text[..len])| && out[..n] == Masked(Decoded(text[..len]), seed)
  {
    hide Masked, Decoded, Wellformed;
    n := Decode(text, len, out);
    MaskInPlace(out, n, seed);
  }

  /** The obfuscated pair is inverse for any seed that is not empty. */
  lemma ObfuscatedRoundTrip(src: bytes, seed: bytes)
    requires seed != []
    ensures Wellformed(Encoded(Masked(src, seed))) && Masked(Decoded(Encoded(Masked(src, seed))), seed) == src
  {
    hide Masked, Encoded, Decoded, Wellformed;
    RoundTrip(Masked(src, seed));
    MaskedTwice(src, seed);
  }
}
