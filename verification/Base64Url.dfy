/** The unpadded base64url encoder of refresh tokens, against the decoder of section 5 of RFC 4648. */
module Base64Url {
  import opened Outcomes

  type Byte = n: int | 0 <= n < 256

  /** The character for six bits: the alphabet A-Z, a-z, 0-9, hyphen, underscore in this order. */
  function Symbol(n: nat): char
    requires n < 64
  {
    if n < 26 then ('A' as int + n) as char
    else if n < 52 then ('a' as int + n - 26) as char
    else if n < 62 then ('0' as int + n - 52) as char
    else if n == 62 then '-' else '_'
  }

  /** The 24 bits of up to three bytes, missing ones zero. */
  function Word(b: seq<Byte>): nat
    requires 1 <= |b| <= 3
  {
    (b[0] as int) * 0x10000 + (if |b| > 1 then (b[1] as int) * 0x100 else 0) + (if |b| > 2 then b[2] as int else 0)
  }

  /** Six of the 24 bits, the `k`-th from the left: a shift by `18 - 6 * k` and a mask of `0x3f`. */
  function Sextet(n: nat, k: nat): (r: nat)
    requires k < 4
    ensures r < 64
  {
    (if k == 0 then n / 0x40000 else if k == 1 then n / 0x1000 else if k == 2 then n / 0x40 else n) % 64
  }

  // ---------------------------------------------------------------- what is written

  function EncodeGroup(b: seq<Byte>): string
    requires 1 <= |b| <= 3
  {
    var n := Word(b);
    [Symbol(Sextet(n, 0)), Symbol(Sextet(n, 1))]
    + (if |b| > 1 then [Symbol(Sextet(n, 2))] else [])
    + (if |b| > 2 then [Symbol(Sextet(n, 3))] else [])
  }

  function Encode(bytes: seq<Byte>): string {
    if bytes == [] then []
    else if |bytes| <= 3 then EncodeGroup(bytes)
    else EncodeGroup(bytes[..3]) + Encode(bytes[3..])
  }

  /** The next three bytes, or the one or two that are left. */
  function Group(bytes: seq<Byte>, i: nat): (b: seq<Byte>)
    requires i < |bytes|
    ensures 1 <= |b| <= 3
  {
    bytes[i..if i + 3 < |bytes| then i + 3 else |bytes|]
  }

  lemma EncodeFrom(bytes: seq<Byte>, i: nat)
    requires i < |bytes|
    ensures Encode(bytes[i..]) == EncodeGroup(Group(bytes, i)) + if i + 3 < |bytes| then Encode(bytes[i + 3..]) else []
  {
    if |bytes| - i <= 3 {
      assert bytes[i..] == Group(bytes, i);
    } else {
      assert bytes[i..][..3] == Group(bytes, i) && bytes[i..][3..] == bytes[i + 3..];
    }
  }

  lemma WordOfGroup(bytes: seq<Byte>, i: nat)
    requires i < |bytes|
    ensures Word(Group(bytes, i))
         == (bytes[i] as int) * 0x10000
            + ((if i + 1 < |bytes| then bytes[i + 1] else 0) as int) * 0x100
            + (if i + 2 < |bytes| then bytes[i + 2] else 0) as int
  {
  }

  lemma GroupText(b: seq<Byte>, n: nat, text: string)
    requires 1 <= |b| <= 3 && n == Word(b) && |text| == |b| + 1
    requires forall k :: 0 <= k < |text| ==> text[k] == Symbol(Sextet(n, k))
    ensures text == EncodeGroup(b)
  {
  }

  /** The first `count` symbols of a word. */
  ghost function Symbols(n: nat, count: nat): (text: string)
    requires count <= 4
    ensures |text| == count && forall k :: 0 <= k < count ==> text[k] == Symbol(Sextet(n, k))
  {
    [Symbol(Sextet(n, 0)), Symbol(Sextet(n, 1)), Symbol(Sextet(n, 2)), Symbol(Sextet(n, 3))][..count]
  }

  /** One round of the loop writes the next group. */
  lemma GroupWritten(bytes: seq<Byte>, i: nat, n: nat, before: string, text: string)
    requires i < |bytes| && Encode(bytes) == before + Encode(bytes[i..])
    requires n == Word(Group(bytes, i)) && |text| == |Group(bytes, i)| + 1
    requires forall k :: 0 <= k < |text| ==> text[k] == Symbol(Sextet(n, k))
    ensures Encode(bytes) == before + text + if i + 3 < |bytes| then Encode(bytes[i + 3..]) else []
  {
    EncodeFrom(bytes, i);
    GroupText(Group(bytes, i), n, text);
  }

  method Base64UrlNoPad(bytes: seq<Byte>) returns (out: string)
    ensures out == Encode(bytes)
  {
    out := [];
    var i := 0;
    assert bytes[0..] == bytes;
    while i < |bytes|
      invariant 0 <= i
      invariant Encode(bytes) == out + if i < |bytes| then Encode(bytes[i..]) else []
    {
      ghost var before := out;
      var b0 := bytes[i];
      var b1 := if i + 1 < |bytes| then bytes[i + 1] else 0;
      var b2 := if i + 2 < |bytes| then bytes[i + 2] else 0;
      var n: nat := (b0 as int) * 0x10000 + (b1 as int) * 0x100 + b2 as int;
      WordOfGroup(bytes, i);
      out := out + [Symbol(Sextet(n, 0))];
      out := out + [Symbol(Sextet(n, 1))];
      if i + 1 < |bytes| {
        out := out + [Symbol(Sextet(n, 2))];
      }
      if i + 2 < |bytes| {
        out := out + [Symbol(Sextet(n, 3))];
      }
      var count := if i + 2 < |bytes| then 4 else if i + 1 < |bytes| then 3 else 2;
      assert out == before + Symbols(n, count);
      GroupWritten(bytes, i, n, before, Symbols(n, count));
      i := i + 3;
    }
  }

  // ---------------------------------------------------------------- the decoder

  function ValueOf(c: char): (r: Option<nat>)
    ensures r.Some? ==> r.value < 64
  {
    if 'A' <= c <= 'Z' then Some(c as int - 'A' as int)
    else if 'a' <= c <= 'z' then Some(c as int - 'a' as int + 26)
    else if '0' <= c <= '9' then Some(c as int - '0' as int + 52)
    else if c == '-' then Some(62)
    else if c == '_' then Some(63)
    else None
  }

  predicate Sextets(s: string) {
    forall i :: 0 <= i < |s| ==> ValueOf(s[i]).Some?
  }

  /** The six bits of a character; one outside the alphabet counts as zero. */
  function Bits(s: string, i: nat): nat {
    if i < |s| && ValueOf(s[i]).Some? then ValueOf(s[i]).value else 0
  }

  /** Whole bytes of a group of characters; the bits left over in a short last group must be zero. */
  function DecodeGroup(s: string): Option<seq<Byte>>
    requires 1 <= |s| <= 4 && Sextets(s)
  {
    var b0, b1 := Bits(s, 0) * 4 + Bits(s, 1) / 16, Bits(s, 1) % 16 * 16 + Bits(s, 2) / 4;
    var b2 := Bits(s, 2) % 4 * 64 + Bits(s, 3);
    if |s| == 1 then None
    else if |s| == 2 then if b1 != 0 then None else Some([b0])
    else if |s| == 3 then if b2 != 0 then None else Some([b0, b1])
    else Some([b0, b1, b2])
  }

  function Decode(s: string): Option<seq<Byte>> {
    if s == [] then Some([])
    else if !Sextets(s) then None
    else if |s| <= 4 then DecodeGroup(s)
    else
      match DecodeGroup(s[..4])
      case None => None
      case Some(group) =>
        match Decode(s[4..])
        case None => None
        case Some(rest) => Some(group + rest)
  }

  // ---------------------------------------------------------------- round trips

  lemma SymbolValue(n: nat)
    requires n < 64
    ensures ValueOf(Symbol(n)) == Some(n)
  {
  }

  lemma ValueSymbol(c: char)
    requires ValueOf(c).Some?
    ensures ValueOf(c).value < 64 && Symbol(ValueOf(c).value) == c
  {
    SymbolValue(ValueOf(c).value);
  }

  lemma GroupSextets(b: seq<Byte>)
    requires 1 <= |b| <= 3
    ensures Sextets(EncodeGroup(b)) && |EncodeGroup(b)| == |b| + 1
  {
    forall i | 0 <= i < |EncodeGroup(b)| ensures ValueOf(EncodeGroup(b)[i]).Some? {
      var n := Word(b);
      SymbolValue(Sextet(n, 0));
      SymbolValue(Sextet(n, 1));
      SymbolValue(Sextet(n, 2));
      SymbolValue(Sextet(n, 3));
    }
  }

  lemma WordSplits(b0: nat, b1: nat, b2: nat)
    requires b0 < 256 && b1 < 256 && b2 < 256
    ensures b0 / 4 < 64 && b0 % 4 * 16 + b1 / 16 < 64 && b1 % 16 * 4 + b2 / 64 < 64
    ensures b0 * 0x10000 + b1 * 0x100 + b2
         == b0 / 4 * 0x40000 + (b0 % 4 * 16 + b1 / 16) * 0x1000 + (b1 % 16 * 4 + b2 / 64) * 0x40 + b2 % 64
  {
  }

  lemma GroupBits(b: seq<Byte>, v0: nat, v1: nat, v2: nat, v3: nat)
    requires 1 <= |b| <= 3 && v0 < 64 && v1 < 64 && v2 < 64 && v3 < 64
    requires Word(b) == v0 * 0x40000 + v1 * 0x1000 + v2 * 0x40 + v3
    ensures var s := EncodeGroup(b);
      && Bits(s, 0) == v0 && Bits(s, 1) == v1 && (|b| > 1 ==> Bits(s, 2) == v2) && (|b| > 2 ==> Bits(s, 3) == v3)
  {
    var n := Word(b);
    SextetsOf(n, v0, v1, v2, v3);
    SymbolValue(v0);
    SymbolValue(v1);
    SymbolValue(v2);
    SymbolValue(v3);
    assert EncodeGroup(b)[0] == Symbol(Sextet(n, 0)) && EncodeGroup(b)[1] == Symbol(Sextet(n, 1));
    assert |b| > 1 ==> EncodeGroup(b)[2] == Symbol(Sextet(n, 2));
    assert |b| > 2 ==> EncodeGroup(b)[3] == Symbol(Sextet(n, 3));
  }

  lemma BytesUnpack(b0: nat, b1: nat, b2: nat)
    requires b0 < 256 && b1 < 256 && b2 < 256
    ensures b0 / 4 * 4 + (b0 % 4 * 16 + b1 / 16) / 16 == b0
    ensures (b0 % 4 * 16 + b1 / 16) % 16 * 16 + (b1 % 16 * 4 + b2 / 64) / 4 == b1
    ensures (b1 % 16 * 4 + b2 / 64) % 4 * 64 + b2 % 64 == b2
  {
  }

  lemma BitsDecode(s: string, b: seq<Byte>)
    requires 1 <= |b| <= 3 && |s| == |b| + 1 && Sextets(s)
    requires Bits(s, 0) * 4 + Bits(s, 1) / 16 == b[0] as int
    requires Bits(s, 1) % 16 * 16 + Bits(s, 2) / 4 == if |b| > 1 then b[1] as int else 0
    requires |b| > 1 ==> Bits(s, 2) % 4 * 64 + Bits(s, 3) == if |b| > 2 then b[2] as int else 0
    ensures DecodeGroup(s) == Some(b)
  {
    assert DecodeGroup(s).Some?;
    assert DecodeGroup(s).value == b;
  }

  lemma GroupDecodes(b: seq<Byte>)
    requires 1 <= |b| <= 3
    ensures Sextets(EncodeGroup(b)) && DecodeGroup(EncodeGroup(b)) == Some(b)
  {
    GroupSextets(b);
    var b0: nat := b[0];
    var b1: nat := if |b| > 1 then b[1] else 0;
    var b2: nat := if |b| > 2 then b[2] else 0;
    BytesUnpack(b0, b1, b2);
    WordSplits(b0, b1, b2);
    GroupBits(b, b0 / 4, b0 % 4 * 16 + b1 / 16, b1 % 16 * 4 + b2 / 64, b2 % 64);
    BitsDecode(EncodeGroup(b), b);
  }

  /** Decoding gives the bytes back, from exactly `(4n + 2) / 3` characters. */
  lemma {:induction false} EncodeDecodes(bytes: seq<Byte>)
    ensures Sextets(Encode(bytes)) && Decode(Encode(bytes)) == Some(bytes)
    ensures |Encode(bytes)| == (4 * |bytes| + 2) / 3
    decreases |bytes|
  {
    if bytes == [] {
    } else if |bytes| <= 3 {
      GroupDecodes(bytes);
    } else {
      GroupDecodes(bytes[..3]);
      GroupSextets(bytes[..3]);
      EncodeDecodes(bytes[3..]);
      var s := Encode(bytes);
      assert s[..4] == EncodeGroup(bytes[..3]) && s[4..] == Encode(bytes[3..]);
      assert bytes[..3] + bytes[3..] == bytes;
    }
  }

  lemma EncodeInjective(a: seq<Byte>, b: seq<Byte>)
    requires Encode(a) == Encode(b)
    ensures a == b
  {
    EncodeDecodes(a);
    EncodeDecodes(b);
  }

  lemma SextetsOf(n: nat, v0: nat, v1: nat, v2: nat, v3: nat)
    requires v0 < 64 && v1 < 64 && v2 < 64 && v3 < 64
    requires n == v0 * 0x40000 + v1 * 0x1000 + v2 * 0x40 + v3
    ensures Sextet(n, 0) == v0 && Sextet(n, 1) == v1 && Sextet(n, 2) == v2 && Sextet(n, 3) == v3
  {
    assert n / 0x40000 == v0;
    assert n / 0x1000 == v0 * 64 + v1;
    assert n / 0x40 == v0 * 0x1000 + v1 * 64 + v2;
  }

  /** Four sextets packed into three bytes come apart again. */
  lemma SextetsUnpack(v0: nat, v1: nat, v2: nat, v3: nat)
    requires v0 < 64 && v1 < 64 && v2 < 64 && v3 < 64
    ensures var n := (v0 * 4 + v1 / 16) * 0x10000 + (v1 % 16 * 16 + v2 / 4) * 0x100 + v2 % 4 * 64 + v3;
      Sextet(n, 0) == v0 && Sextet(n, 1) == v1 && Sextet(n, 2) == v2 && Sextet(n, 3) == v3
  {
    SextetsOf((v0 * 4 + v1 / 16) * 0x10000 + (v1 % 16 * 16 + v2 / 4) * 0x100 + v2 % 4 * 64 + v3, v0, v1, v2, v3);
  }

  lemma DecodedGroupEncodes(s: string)
    requires 1 <= |s| <= 4 && Sextets(s) && DecodeGroup(s).Some?
    ensures 1 <= |DecodeGroup(s).value| == |s| - 1 && EncodeGroup(DecodeGroup(s).value) == s
  {
    forall i | 0 <= i < |s| ensures Symbol(Bits(s, i)) == s[i] {
      ValueSymbol(s[i]);
    }
    SextetsUnpack(Bits(s, 0), Bits(s, 1), Bits(s, 2), Bits(s, 3));
    GroupText(DecodeGroup(s).value, Word(DecodeGroup(s).value), s);
  }

  /** Every text the decoder accepts is the encoding of what it decodes to: no token has two spellings. */
  lemma {:induction false} DecodeEncodes(s: string)
    requires Decode(s).Some?
    ensures Encode(Decode(s).value) == s
    decreases |s|
  {
    if s == [] {
    } else if |s| <= 4 {
      DecodedGroupEncodes(s);
    } else {
      DecodedGroupEncodes(s[..4]);
      DecodeEncodes(s[4..]);
      var group, rest := DecodeGroup(s[..4]).value, Decode(s[4..]).value;
      assert rest != [];
      assert (group + rest)[..3] == group && (group + rest)[3..] == rest;
      assert s[..4] + s[4..] == s;
    }
  }

  /** The alphabet of table 2 in section 5 of RFC 4648, by character number. */
  lemma AlphabetIs(n: nat)
    requires n < 64
    ensures Symbol(n) as int ==
      if n <= 25 then 65 + n
      else if n <= 51 then 71 + n
      else if n <= 61 then n - 4
      else if n == 62 then 45 else 95
  {
  }

  lemma FooIsEncoded()
    ensures EncodeGroup([0x66, 0x6F, 0x6F]) == "Zm9v"
  {
    assert Word([0x66, 0x6F, 0x6F]) == 0x666F6F;
  }

  lemma BarIsEncoded()
    ensures EncodeGroup([0x62, 0x61, 0x72]) == "YmFy"
  {
    assert Word([0x62, 0x61, 0x72]) == 0x626172;
  }

  /** The last test vector of section 10 of RFC 4648: "foobar" becomes "Zm9vYmFy". */
  lemma FoobarIsEncoded()
    ensures Encode([0x66, 0x6F, 0x6F, 0x62, 0x61, 0x72]) == "Zm9v" + "YmFy"
  {
    var all: seq<Byte> := [0x66, 0x6F, 0x6F, 0x62, 0x61, 0x72];
    var first: seq<Byte>, second: seq<Byte> := [0x66, 0x6F, 0x6F], [0x62, 0x61, 0x72];
    FooIsEncoded();
    BarIsEncoded();
    EncodeTwoGroups(first, second);
    assert all == first + second;
  }

  lemma EncodeTwoGroups(a: seq<Byte>, b: seq<Byte>)
    requires |a| == |b| == 3
    ensures Encode(a + b) == EncodeGroup(a) + EncodeGroup(b)
  {
    assert (a + b)[..3] == a && (a + b)[3..] == b;
  }
}
