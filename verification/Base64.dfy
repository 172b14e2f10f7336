/** Standard base64 (section 4 of RFC 4648) and the 76-column framing of the favicon hash. */
module Base64 {
  import opened Wrappers
  import opened Words

  /** The alphabet of the standard encoding, by value. */
  function Symbol(v: nat): char {
    if v < 26 then 'A' + v as char
    else if v < 52 then 'a' + (v - 26) as char
    else if v < 62 then '0' + (v - 52) as char
    else if v == 62 then '+'
    else '/'
  }

  /** The four symbols of a chunk of one to three bytes. */
  function Quad(chunk: seq<u8>): string
    requires 1 <= |chunk| <= 3
  {
    var b0 := chunk[0];
    var b1 := if |chunk| > 1 then chunk[1] else 0;
    var b2 := if |chunk| > 2 then chunk[2] else 0;
    var n := Or(Or(Shl(b0, 16), Shl(b1, 8)), b2);
    [Symbol(And(Shr(n, 18), 63)),
     Symbol(And(Shr(n, 12), 63)),
     if |chunk| > 1 then Symbol(And(Shr(n, 6), 63)) else '=',
     if |chunk| > 2 then Symbol(And(n, 63)) else '=']
  }

  /** `data.chunks(3)` encoded one after the other. */
  function Encode(data: seq<u8>): string {
    if data == [] then ""
    else
      var k := Min(3, |data|);
      Quad(data[..k]) + Encode(data[k..])
  }

  method Base64Std(data: seq<u8>) returns (out: string)
    ensures out == Encode(data)
  {
    hide Quad;
    out := "";
    var i := 0;
    assert data[0..] == data;
    while i < |data|
      invariant 0 <= i <= |data|
      invariant out + Encode(data[i..]) == Encode(data)
    {
      var k := Min(3, |data| - i);
      assert data[i..][..k] == data[i..i + k] && data[i..][k..] == data[i + k..];
      out := out + Quad(data[i..i + k]);
      i := i + k;
    }
  }

  // ---- A decoder to the letter of the standard ----

  function Value(c: char): Option<nat> {
    if 'A' <= c <= 'Z' then Some((c - 'A') as nat)
    else if 'a' <= c <= 'z' then Some((c - 'a') as nat + 26)
    else if '0' <= c <= '9' then Some((c - '0') as nat + 52)
    else if c == '+' then Some(62)
    else if c == '/' then Some(63)
    else None
  }

  /** The bytes of four symbols: three, or fewer in front of padding. */
  function DecodeQuad(q: string): Option<seq<u8>>
    requires |q| == 4
  {
    var v0, v1, v2, v3 := Value(q[0]), Value(q[1]), Value(q[2]), Value(q[3]);
    if v0.None? || v1.None? then None
    else if q[2] == '=' && q[3] == '=' then Bytes(v0.value, v1.value, 0, 0, 1)
    else if v2.None? then None
    else if q[3] == '=' then Bytes(v0.value, v1.value, v2.value, 0, 2)
    else if v3.None? then None
    else Bytes(v0.value, v1.value, v2.value, v3.value, 3)
  }

  /** The first `count` bytes of a 24-bit group. */
  function Bytes(v0: nat, v1: nat, v2: nat, v3: nat, count: nat): Option<seq<u8>>
    requires count <= 3
  {
    var n := v0 * 262144 + v1 * 4096 + v2 * 64 + v3;
    Some([n / 65536 % 256, n / 256 % 256, n % 256][..count])
  }

  function Decode(s: string): Option<seq<u8>> {
    if s == "" then Some([])
    else if |s| < 4 then None
    else
      match DecodeQuad(s[..4])
      case None => None
      case Some(bytes) =>
        if |bytes| < 3 && |s| > 4 then None
        else
          match Decode(s[4..])
          case None => None
          case Some(rest) => Some(bytes + rest)
  }

  // ---- Shifts and masks as arithmetic ----

  lemma AndStep(x: nat, m: nat)
    ensures And(x, 2 * m + 1) == 2 * And(x / 2, m) + x % 2
  {
  }

  lemma AndThreeSteps(x: nat, m: nat)
    ensures And(x, 8 * m + 7) == 8 * And(x / 8, m) + x % 8
  {
    hide And;
    AndStep(x, 4 * m + 3);
    AndStep(x / 2, 2 * m + 1);
    AndStep(x / 4, m);
  }

  lemma AndNothing(x: nat)
    ensures And(x, 0) == 0
  {
  }

  lemma And63(x: nat)
    ensures And(x, 63) == x % 64
  {
    hide And;
    AndThreeSteps(x, 7);
    AndThreeSteps(x / 8, 0);
    AndNothing(x / 64);
  }

  lemma Shr6(x: nat)
    ensures Shr(x, 6) == x / 64
  {
    assert Shr(x, 6) == Shr(x / 2, 5) == Shr(x / 4, 4) == Shr(x / 8, 3) == Shr(x / 16, 2) == Shr(x / 32, 1) == Shr(x / 64, 0);
  }

  lemma {:induction false} ShrShr(x: nat, j: nat, k: nat)
    ensures Shr(x, j + k) == Shr(Shr(x, j), k)
    decreases j
  {
    if j > 0 {
      ShrShr(x / 2, j - 1, k);
    }
  }

  lemma Shl8(x: nat)
    ensures Shl(x, 8) == 256 * x
  {
    assert Shl(x, 2) == 2 * Shl(x, 1) == 4 * x;
    assert Shl(x, 4) == 2 * Shl(x, 3) == 4 * Shl(x, 2);
    assert Shl(x, 6) == 2 * Shl(x, 5) == 4 * Shl(x, 4);
    assert Shl(x, 8) == 2 * Shl(x, 7) == 4 * Shl(x, 6);
  }

  lemma {:induction false} ShlShl(x: nat, j: nat, k: nat)
    ensures Shl(x, j + k) == Shl(Shl(x, j), k)
  {
    if k > 0 {
      ShlShl(x, j, k - 1);
    }
  }

  /** `(hi << k) | lo` is a sum when `lo` fits below. */
  lemma {:induction false} OrIsSum(hi: nat, lo: nat, k: nat)
    requires lo < Pow2(k)
    ensures Or(Shl(hi, k), lo) == Shl(hi, k) + lo
    decreases k
  {
    if k == 0 {
      OrZero(hi);
    } else {
      OrIsSum(hi, lo / 2, k - 1);
    }
  }

  lemma GroupIsSum(b0: u8, b1: u8, b2: u8)
    ensures Or(Or(Shl(b0, 16), Shl(b1, 8)), b2) == 65536 * b0 + 256 * b1 + b2
  {
    hide Or, Shl;
    assert Pow2(4) == 16;
    assert Pow2(8) == 256 by { Pow2Plus4(4); }
    ShlShl(b0, 8, 8);
    Shl8(b0);
    Shl8(b1);
    OrIsSum(b0, b1, 8);
    ShlOr(Shl(b0, 8), b1, 8);
    assert Or(Shl(b0, 16), Shl(b1, 8)) == Shl(256 * b0 + b1, 8);
    Shl8(256 * b0 + b1);
    OrIsSum(256 * b0 + b1, b2, 8);
  }

  lemma {:induction false} ShlOr(a: nat, b: nat, k: nat)
    ensures Or(Shl(a, k), Shl(b, k)) == Shl(Or(a, b), k)
  {
    if k > 0 {
      ShlOr(a, b, k - 1);
    }
  }

  /** The four sextets of a 24-bit group. */
  lemma Sextets(n: nat)
    requires n < 16777216
    ensures And(Shr(n, 18), 63) == n / 262144
    ensures And(Shr(n, 12), 63) == n / 4096 % 64
    ensures And(Shr(n, 6), 63) == n / 64 % 64
    ensures And(n, 63) == n % 64
  {
    hide And, Shr;
    Shr6(n);
    ShrShr(n, 6, 6);
    Shr6(n / 64);
    ShrShr(n, 12, 6);
    Shr6(n / 4096);
    And63(n / 262144);
    And63(n / 4096);
    And63(n / 64);
    And63(n);
  }

  lemma ValueOfSymbol(v: nat)
    requires v < 64
    ensures Value(Symbol(v)) == Some(v) && Symbol(v) != '=' && Symbol(v) != '\n'
  {
  }

  /** The group of a chunk: missing bytes are zero. */
  function Group(chunk: seq<u8>): nat
    requires 1 <= |chunk| <= 3
  {
    var b0: nat := chunk[0];
    var b1: nat := if |chunk| > 1 then chunk[1] else 0;
    var b2: nat := if |chunk| > 2 then chunk[2] else 0;
    65536 * b0 + 256 * b1 + b2
  }

  lemma QuadSymbols(chunk: seq<u8>)
    requires 1 <= |chunk| <= 3
    ensures var n := Group(chunk);
            Quad(chunk) == [Symbol(n / 262144),
                            Symbol(n / 4096 % 64),
                            if |chunk| > 1 then Symbol(n / 64 % 64) else '=',
                            if |chunk| > 2 then Symbol(n % 64) else '=']
  {
    hide And, Or, Shr, Shl, Symbol;
    GroupIsSum(chunk[0], if |chunk| > 1 then chunk[1] else 0, if |chunk| > 2 then chunk[2] else 0);
    Sextets(Group(chunk));
  }

  /** A quad decodes to its chunk. */
  lemma QuadRoundTrip(chunk: seq<u8>)
    requires 1 <= |chunk| <= 3
    ensures DecodeQuad(Quad(chunk)) == Some(chunk)
  {
    hide Quad, Symbol, Value, Bytes;
    var n := Group(chunk);
    QuadSymbols(chunk);
    ValueOfSymbol(n / 262144);
    ValueOfSymbol(n / 4096 % 64);
    ValueOfSymbol(n / 64 % 64);
    ValueOfSymbol(n % 64);
    PaddingHasNoValue();
    var b1 := if |chunk| > 1 then chunk[1] else 0;
    var b2 := if |chunk| > 2 then chunk[2] else 0;
    GroupBytes(n, chunk[0], b1, b2);
    if |chunk| == 1 {
      assert chunk == [chunk[0]];
    } else if |chunk| == 2 {
      assert chunk == [chunk[0], b1];
    } else {
      assert chunk == [chunk[0], b1, b2];
    }
  }

  lemma PaddingHasNoValue()
    ensures Value('=') == None
  {
  }

  lemma Recompose(n: nat)
    requires n < 16777216
    ensures n / 262144 * 262144 + n / 4096 % 64 * 4096 + n / 64 % 64 * 64 + n % 64 == n
  {
    var q, r := n / 64, n / 4096;
    assert r == q / 64 && n / 262144 == r / 64;
    assert n == 64 * q + n % 64;
    assert q == 64 * r + q % 64;
    assert r == 64 * (r / 64) + r % 64;
  }

  /** Bits below a padding position are zero, so dropping their sextets loses nothing. */
  lemma PaddedSextetsAreZero(b0: nat, b1: nat)
    ensures (65536 * b0 + 256 * b1) % 64 == 0
    ensures 65536 * b0 / 64 % 64 == 0
  {
    assert 65536 * b0 + 256 * b1 == 64 * (1024 * b0 + 4 * b1);
    assert 65536 * b0 / 64 == 64 * (16 * b0);
  }

  lemma GroupBytes(n: nat, b0: nat, b1: nat, b2: nat)
    requires b0 < 256 && b1 < 256 && b2 < 256
    requires n == 65536 * b0 + 256 * b1 + b2
    ensures Bytes(n / 262144, n / 4096 % 64, n / 64 % 64, n % 64, 3) == Some([b0, b1, b2])
    ensures b2 == 0 ==> Bytes(n / 262144, n / 4096 % 64, n / 64 % 64, 0, 2) == Some([b0, b1])
    ensures b1 == 0 && b2 == 0 ==> Bytes(n / 262144, n / 4096 % 64, 0, 0, 1) == Some([b0])
  {
    Recompose(n);
    PaddedSextetsAreZero(b0, b1);
    GroupSplit(n, b0, b1, b2);
    assert [b0, b1, b2][..3] == [b0, b1, b2] && [b0, b1, b2][..2] == [b0, b1] && [b0, b1, b2][..1] == [b0];
  }

  lemma GroupSplit(n: nat, b0: nat, b1: nat, b2: nat)
    requires b0 < 256 && b1 < 256 && b2 < 256
    requires n == 65536 * b0 + 256 * b1 + b2
    ensures n / 65536 % 256 == b0 && n / 256 % 256 == b1 && n % 256 == b2
  {
  }

  /** Decoding an encoding gives the data back, for every byte string. */
  lemma {:induction false} EncodeRoundTrip(data: seq<u8>)
    ensures Decode(Encode(data)) == Some(data)
  {
    hide Quad, DecodeQuad;
    if data != [] {
      var k := Min(3, |data|);
      var rest := data[k..];
      EncodeRoundTrip(rest);
      QuadRoundTrip(data[..k]);
      QuadLength(data[..k]);
      EncodedLength(rest);
      var s := Quad(data[..k]) + Encode(rest);
      assert s[..4] == Quad(data[..k]) && s[4..] == Encode(rest);
      assert data == data[..k] + rest;
    }
  }

  lemma QuadLength(chunk: seq<u8>)
    requires 1 <= |chunk| <= 3
    ensures |Quad(chunk)| == 4
  {
    hide And, Or, Shr, Shl;
  }

  /** Four symbols for each three bytes begun, which the reserved capacity always holds. */
  lemma {:induction false} EncodedLength(data: seq<u8>)
    ensures |Encode(data)| == 4 * ((|data| + 2) / 3) <= 2 * |data| + 4
  {
    hide Quad;
    if data != [] {
      var k := Min(3, |data|);
      EncodedLength(data[k..]);
      QuadLength(data[..k]);
    }
  }

  // ---- The 76-column framing ----

  function Frame(s: string): string {
    if s == "" then ""
    else
      var k := Min(76, |s|);
      s[..k] + "\n" + Frame(s[k..])
  }

  method FrameLines(s: string) returns (framed: string)
    ensures framed == Frame(s)
  {
    hide Frame;
    framed := "";
    var i := 0;
    assert s[0..] == s;
    while i < |s|
      invariant 0 <= i <= |s|
      invariant framed + Frame(s[i..]) == Frame(s)
    {
      var k := Min(76, |s| - i);
      FrameStep(s[i..]);
      assert s[i..][..k] == s[i..i + k] && s[i..][k..] == s[i + k..];
      framed := framed + (s[i..i + k] + "\n");
      i := i + k;
    }
    FrameStep(s[i..]);
  }

  lemma FrameStep(s: string)
    ensures var k := Min(76, |s|);
            Frame(s) == if s == "" then "" else (s[..k] + "\n") + Frame(s[k..])
  {
  }

  function WithoutNewlines(s: string): string {
    if s == "" then "" else (if s[0] == '\n' then "" else [s[0]]) + WithoutNewlines(s[1..])
  }

  lemma WithoutNewlinesStep(c: char, rest: string)
    ensures WithoutNewlines([c] + rest) == (if c == '\n' then "" else [c]) + WithoutNewlines(rest)
  {
    assert ([c] + rest)[1..] == rest;
  }

  lemma {:induction false} WithoutNewlinesSplits(a: string, b: string)
    ensures WithoutNewlines(a + b) == WithoutNewlines(a) + WithoutNewlines(b)
  {
    hide WithoutNewlines;
    if a == "" {
      NoNewlines(a);
      assert a + b == b;
    } else {
      WithoutNewlinesStep(a[0], a[1..]);
      WithoutNewlinesStep(a[0], a[1..] + b);
      WithoutNewlinesSplits(a[1..], b);
      assert a == [a[0]] + a[1..] && a + b == [a[0]] + (a[1..] + b);
    }
  }

  lemma {:induction false} NoNewlines(s: string)
    requires '\n' !in s
    ensures WithoutNewlines(s) == s
  {
    if s != "" {
      assert s[0] in s;
      NoNewlines(s[1..]);
    }
  }

  /** Deleting the newlines of a framing gives the text back, and there is one for each 76 characters
      begun. */
  lemma {:induction false} FrameRoundTrip(s: string)
    requires '\n' !in s
    ensures WithoutNewlines(Frame(s)) == s
    ensures multiset(Frame(s))['\n'] == (|s| + 75) / 76
  {
    hide WithoutNewlines, Frame;
    FrameStep(s);
    if s == "" {
      NoNewlines("");
    } else {
      var k := Min(76, |s|);
      var line, rest := s[..k], s[k..];
      FrameRoundTrip(rest);
      LineAddsOneNewline(line, Frame(rest));
      assert s == line + rest;
    }
  }

  /** The newlines close the 76-character lines, and the last one. */
  lemma {:induction false} NewlineColumns(s: string, i: nat)
    requires '\n' !in s
    requires i < |Frame(s)|
    ensures |Frame(s)| == |s| + (|s| + 75) / 76
    ensures Frame(s)[i] == '\n' <==> i % 77 == 76 || i == |Frame(s)| - 1
  {
    hide Frame;
    FramedLength(s);
    FrameStep(s);
    if s != "" {
      var k := Min(76, |s|);
      var line, rest := s[..k], s[k..];
      if i < k {
        assert Frame(s)[i] == s[i];
        assert s[i] in s;
      } else if i > k {
        FramedLength(rest);
        assert k == 76;
        assert Frame(s)[i] == Frame(rest)[i - 77];
        NewlineColumns(rest, i - 77);
      }
    } else {
      assert false;
    }
  }

  lemma {:induction false} FramedLength(s: string)
    ensures |Frame(s)| == |s| + (|s| + 75) / 76
  {
    if s != "" {
      FramedLength(s[Min(76, |s|)..]);
    }
  }

  lemma LineAddsOneNewline(line: string, after: string)
    requires '\n' !in line
    ensures WithoutNewlines((line + "\n") + after) == line + WithoutNewlines(after)
    ensures multiset((line + "\n") + after)['\n'] == 1 + multiset(after)['\n']
  {
    hide WithoutNewlines;
    WithoutNewlinesSplits(line + "\n", after);
    WithoutNewlinesSplits(line, "\n");
    NoNewlines(line);
    OneNewline();
    assert multiset((line + "\n") + after) == multiset(line) + multiset{'\n'} + multiset(after);
  }

  lemma OneNewline()
    ensures WithoutNewlines("\n") == ""
  {
  }

  lemma {:induction false} EncodedHasNoNewline(data: seq<u8>)
    ensures '\n' !in Encode(data)
  {
    hide Quad;
    if data != [] {
      var k := Min(3, |data|);
      EncodedHasNoNewline(data[k..]);
      QuadHasNoNewline(data[..k]);
    }
  }

  lemma QuadHasNoNewline(chunk: seq<u8>)
    requires 1 <= |chunk| <= 3
    ensures '\n' !in Quad(chunk)
  {
    hide And, Or, Shr, Shl, Symbol;
    forall v: nat
      ensures Symbol(v) != '\n'
    {
      SymbolIsNotNewline(v);
    }
  }

  lemma SymbolIsNotNewline(v: nat)
    ensures Symbol(v) != '\n'
  {
  }

  /** Nothing is lost before hashing: different icons are framed differently. */
  lemma FramingInjective(a: seq<u8>, b: seq<u8>)
    requires Frame(Encode(a)) == Frame(Encode(b))
    ensures a == b
  {
    hide Encode, Frame, Decode;
    EncodedHasNoNewline(a);
    EncodedHasNoNewline(b);
    FrameRoundTrip(Encode(a));
    FrameRoundTrip(Encode(b));
    EncodeRoundTrip(a);
    EncodeRoundTrip(b);
  }
}
