/** The avatar address the layout and the sidebar build from an e-mail address: `btoa` (the
    base 64 encoding of section 4 of RFC 4648, over the Latin-1 code units of the string) of
    the lower-cased, trimmed address, with `+` and `/` replaced by `_` and the `=` padding
    removed. */
module Gravatar {
  import opened Wrappers
  import opened Text

  /** A Latin-1 code unit, the only kind `btoa` accepts. */
  type Byte = x: int | 0 <= x < 256

  /** The character of a 6-bit value in the alphabet of Table 1 of RFC 4648. */
  function Sextet(v: int): (c: char)
    requires 0 <= v < 64
    ensures c != '='
  {
    if v < 26 then ('A' as int + v) as char
    else if v < 52 then ('a' as int + (v - 26)) as char
    else if v < 62 then ('0' as int + (v - 52)) as char
    else if v == 62 then '+'
    else '/'
  }

  /** The value of an alphabet character, or -1 for any other character. */
  function SextetValue(c: char): int {
    if 'A' <= c <= 'Z' then c as int - 'A' as int
    else if 'a' <= c <= 'z' then c as int - 'a' as int + 26
    else if '0' <= c <= '9' then c as int - '0' as int + 52
    else if c == '+' then 62
    else if c == '/' then 63
    else -1
  }

  /** The alphabet character of a value determines the value. */
  lemma SextetRoundTrip(v: int)
    requires 0 <= v < 64
    ensures SextetValue(Sextet(v)) == v
  {
  }

  /** Three code units as four characters: their 24 bits in four 6-bit groups. */
  function Quad(a: Byte, b: Byte, c: Byte): (r: string)
    ensures |r| == 4 && '=' !in r
  {
    [Sextet(a / 4), Sextet(a % 4 * 16 + b / 16), Sextet(b % 16 * 4 + c / 64), Sextet(c % 64)]
  }

  /** A last group of two code units: three characters and one `=`. */
  function Pair(a: Byte, b: Byte): (r: string)
    ensures |r| == 4 && r[3] == '=' && '=' !in r[..3]
  {
    [Sextet(a / 4), Sextet(a % 4 * 16 + b / 16), Sextet(b % 16 * 4), '=']
  }

  /** A last group of one code unit: two characters and two `=`. */
  function Single(a: Byte): (r: string)
    ensures |r| == 4 && r[2] == '=' && r[3] == '=' && '=' !in r[..2]
  {
    [Sextet(a / 4), Sextet(a % 4 * 16), '=', '=']
  }

  /** `btoa` on code units: whole groups of three become four characters, and a last group of
      one or two is padded with `=` to four. */
  function Encode(b: seq<Byte>): string
    decreases |b|
  {
    if |b| == 0 then []
    else if |b| == 1 then Single(b[0])
    else if |b| == 2 then Pair(b[0], b[1])
    else Quad(b[0], b[1], b[2]) + Encode(b[3..])
  }

  /** Four characters for every started group of three code units. */
  lemma {:induction false} EncodeLength(b: seq<Byte>)
    ensures |Encode(b)| == 4 * ((|b| + 2) / 3)
    decreases |b|
  {
    if |b| >= 3 {
      EncodeLength(b[3..]);
      assert (|b| + 2) / 3 == (|b[3..]| + 2) / 3 + 1;
    }
  }

  /** Four sextets regrouped into three octets. */
  function Ungroup(v0: int, v1: int, v2: int, v3: int): (r: seq<int>)
    ensures |r| == 3
  {
    [v0 * 4 + v1 / 16, v1 % 16 * 16 + v2 / 4, v2 % 4 * 64 + v3]
  }

  /** The decoding of section 4 of RFC 4648 for the strings `Encode` produces: a group with
      one or two `=` yields its first one or two octets and ends the input. */
  function Decode(s: string): seq<int>
    decreases |s|
  {
    if |s| < 4 then []
    else
      var g := Ungroup(SextetValue(s[0]), SextetValue(s[1]), SextetValue(s[2]), SextetValue(s[3]));
      if s[2] == '=' then g[..1]
      else if s[3] == '=' then g[..2]
      else g + Decode(s[4..])
  }

  /** One group of three code units survives the bit regrouping. */
  lemma Group(a: Byte, b: Byte, c: Byte)
    ensures a / 4 * 4 + (a % 4 * 16 + b / 16) / 16 == a
    ensures (a % 4 * 16 + b / 16) % 16 * 16 + (b % 16 * 4 + c / 64) / 4 == b
    ensures (b % 16 * 4 + c / 64) % 4 * 64 + c % 64 == c
    ensures a % 4 * 16 / 16 == a % 4 && b % 16 * 4 / 4 == b % 16
  {
    assert b / 16 < 16 && c / 64 < 4;
    assert (a % 4 * 16 + b / 16) / 16 == a % 4 && (a % 4 * 16 + b / 16) % 16 == b / 16;
    assert (b % 16 * 4 + c / 64) / 4 == b % 16 && (b % 16 * 4 + c / 64) % 4 == c / 64;
  }

  lemma DecodeSingle(a: Byte)
    ensures Decode(Single(a)) == [a]
  {
    Group(a, 0, 0);
    SextetRoundTrip(a / 4);
    SextetRoundTrip(a % 4 * 16);
  }

  lemma DecodePair(a: Byte, b: Byte)
    ensures Decode(Pair(a, b)) == [a, b]
  {
    Group(a, b, 0);
    SextetRoundTrip(a / 4);
    SextetRoundTrip(a % 4 * 16 + b / 16);
    SextetRoundTrip(b % 16 * 4);
  }

  lemma DecodeQuad(a: Byte, b: Byte, c: Byte, rest: string)
    ensures Decode(Quad(a, b, c) + rest) == [a, b, c] + Decode(rest)
  {
    Group(a, b, c);
    SextetRoundTrip(a / 4);
    SextetRoundTrip(a % 4 * 16 + b / 16);
    SextetRoundTrip(b % 16 * 4 + c / 64);
    SextetRoundTrip(c % 64);
    assert (Quad(a, b, c) + rest)[4..] == rest;
  }

  /** Decoding the encoding gives back the code units: the encoding loses nothing. */
  lemma {:induction false} EncodeDecode(b: seq<Byte>)
    ensures Decode(Encode(b)) == b
    decreases |b|
  {
    if |b| == 1 {
      assert Encode(b) == Single(b[0]) && b == [b[0]];
      DecodeSingle(b[0]);
    } else if |b| == 2 {
      assert Encode(b) == Pair(b[0], b[1]) && b == [b[0], b[1]];
      DecodePair(b[0], b[1]);
    } else if |b| >= 3 {
      var rest := Encode(b[3..]);
      assert Encode(b) == Quad(b[0], b[1], b[2]) + rest;
      EncodeDecode(b[3..]);
      DecodeQuad(b[0], b[1], b[2], rest);
      assert b == [b[0], b[1], b[2]] + b[3..];
    }
  }

  /** The string's code units, or `None` when one is above 0xFF (`btoa` then throws). */
  function Latin1(s: string): (r: Option<seq<Byte>>)
    ensures r.Some? <==> forall i :: 0 <= i < |s| ==> s[i] as int < 256
    ensures r.Some? ==> |r.value| == |s| && forall i :: 0 <= i < |s| ==> r.value[i] == s[i] as int
  {
    if forall i :: 0 <= i < |s| ==> s[i] as int < 256 then
      Some(seq(|s|, i requires 0 <= i < |s| => s[i] as int))
    else None
  }

  /** `.replace(/[+/]/g, '_').replace(/=/g, '')`. */
  function Substitute(s: string): (r: string)
    ensures forall i :: 0 <= i < |r| ==> r[i] != '+' && r[i] != '/' && r[i] != '='
    ensures |r| <= |s|
  {
    if |s| == 0 then [] else SubstituteChar(s[0]) + Substitute(s[1..])
  }

  /** What one character becomes: `_` for `+` and `/`, nothing for `=`. */
  function SubstituteChar(c: char): (r: string)
    ensures |r| <= 1 && (r == [] <==> c == '=')
    ensures forall i :: 0 <= i < |r| ==> r[i] != '+' && r[i] != '/' && r[i] != '='
  {
    if c == '=' then [] else if c == '+' || c == '/' then "_" else [c]
  }

  lemma {:induction false} SubstituteConcat(a: string, b: string)
    ensures Substitute(a + b) == Substitute(a) + Substitute(b)
  {
    if |a| == 0 {
      assert a + b == b;
    } else {
      var h := SubstituteChar(a[0]);
      assert (a + b)[0] == a[0] && (a + b)[1..] == a[1..] + b;
      calc {
        Substitute(a + b);
        h + Substitute(a[1..] + b);
      == { SubstituteConcat(a[1..], b); }
        h + (Substitute(a[1..]) + Substitute(b));
        (h + Substitute(a[1..])) + Substitute(b);
        Substitute(a) + Substitute(b);
      }
    }
  }

  lemma SubstituteSingle(a: Byte)
    ensures |Substitute(Single(a))| == 2
  {
    var r := Single(a);
    assert r == r[..2] + ['='] + ['='];
    SubstituteConcat(r[..2] + ['='], ['=']);
    SubstituteConcat(r[..2], ['=']);
    SubstituteNoPadding(r[..2]);
  }

  lemma SubstitutePair(a: Byte, b: Byte)
    ensures |Substitute(Pair(a, b))| == 3
  {
    var r := Pair(a, b);
    assert r == r[..3] + ['='];
    SubstituteConcat(r[..3], ['=']);
    SubstituteNoPadding(r[..3]);
  }

  lemma {:induction false} SubstituteNoPadding(s: string)
    requires '=' !in s
    ensures |Substitute(s)| == |s|
  {
    if |s| > 0 {
      assert s[0] in s;
      assert forall c :: c in s[1..] ==> c in s;
      SubstituteNoPadding(s[1..]);
    }
  }

  /** The hash of code units is the unpadded encoding: `ceil(4n / 3)` characters, the `=`
      padding being the only characters dropped. */
  lemma {:induction false} UnpaddedLength(b: seq<Byte>)
    ensures |Substitute(Encode(b))| == (4 * |b| + 2) / 3
    decreases |b|
  {
    if |b| == 1 {
      SubstituteSingle(b[0]);
    } else if |b| == 2 {
      SubstitutePair(b[0], b[1]);
    } else if |b| >= 3 {
      UnpaddedLength(b[3..]);
      SubstituteConcat(Quad(b[0], b[1], b[2]), Encode(b[3..]));
      SubstituteNoPadding(Quad(b[0], b[1], b[2]));
    }
  }

  /** The avatar hash of an address, or `None` where `btoa` throws. */
  function GravatarHash(email: string): (r: Option<string>)
    ensures r.Some? ==> forall i :: 0 <= i < |r.value| ==>
      r.value[i] != '+' && r.value[i] != '/' && r.value[i] != '='
  {
    var b := Latin1(Trim(Lower(email)));
    if b.None? then None else Some(Substitute(Encode(b.value)))
  }

  /** The hash is the unpadded encoding: `ceil(4n / 3)` characters for `n` code units of the
      normalised address, and it exists exactly when every code unit is Latin-1. */
  lemma HashLength(email: string)
    ensures var t := Lower(Trim(email));
      GravatarHash(email).Some? <==> forall i :: 0 <= i < |t| ==> t[i] as int < 256
    ensures GravatarHash(email).Some? ==> |GravatarHash(email).value| == (4 * |Trim(email)| + 2) / 3
  {
    LowerTrimCommute(email);
    var b := Latin1(Trim(Lower(email)));
    if b.Some? {
      UnpaddedLength(b.value);
    }
  }

  /** `https://www.gravatar.com/avatar/${hash}?d=identicon&s=40`. */
  function GravatarUrl(email: string): (r: Option<string>)
    ensures r.Some? <==> GravatarHash(email).Some?
    ensures r.Some? ==> r.value == "https://www.gravatar.com/avatar/" + GravatarHash(email).value + "?d=identicon&s=40"
  {
    var h := GravatarHash(email);
    if h.None? then None else Some("https://www.gravatar.com/avatar/" + h.value + "?d=identicon&s=40")
  }

  /** Replacing both `+` and `/` by `_` loses information: two addresses whose encodings
      differ only there get the same hash. */
  lemma HashCollision()
    ensures GravatarHash("û") == GravatarHash("ÿ") == Some("_w")
  {
    HashOfOne('û', 0xFB);
    HashOfOne('ÿ', 0xFF);
  }

  lemma HashOfOne(c: char, v: Byte)
    requires c as int == v && !IsSpace(c) && !('A' <= c <= 'Z') && v / 4 >= 62 && v % 4 == 3
    ensures GravatarHash([c]) == Some("_w")
  {
    assert Lower([c]) == [c];
    assert Trim([c]) == [c] by {
      assert OccursAt([c], Trim([c]), 0) || OccursAt([c], Trim([c]), 1);
    }
    var l := Latin1([c]);
    assert l.Some? && |l.value| == 1 && l.value[0] == v;
    assert l.value == [v];
    var e := Single(v);
    assert e == [Sextet(v / 4), 'w', '=', '='];
    assert Sextet(v / 4) == '+' || Sextet(v / 4) == '/';
    assert Substitute(e) == "_w" by {
      assert e[1..] == "w==" && e[2..] == "==";
      assert Substitute(e[3..]) == [];
      assert Substitute(e[2..]) == [];
    }
  }
}
