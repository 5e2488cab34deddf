/** The base 64 encoding of section 4 of RFC 4648, over abstract symbols: the
    six-bit groups and the pad, before an alphabet is chosen. */
module Base64 {
  import opened Lines

  newtype Sextet = v: int | 0 <= v < 64
  datatype Symbol = Group(v: Sextet) | Pad

  function Encode(s: Bytes): seq<Symbol> {
    if s == [] then []
    else if |s| == 1 then Quad(s[0], 0, 0)[..2] + [Pad, Pad]
    else if |s| == 2 then Quad(s[0], s[1], 0)[..3] + [Pad]
    else Quad(s[0], s[1], s[2]) + Encode(s[3..])
  }

  function Quad(a: Byte, b: Byte, c: Byte): (q: seq<Symbol>)
    ensures |q| == 4
  {
    [Group((a / 4) as Sextet),
     Group(((a % 4) as int * 16 + (b / 16) as int) as Sextet),
     Group(((b % 16) as int * 4 + (c / 64) as int) as Sextet),
     Group((c % 64) as Sextet)]
  }

  function First(x: Sextet, y: Sextet): Byte { (x as int * 4 + y as int / 16) as Byte }

  function Second(y: Sextet, z: Sextet): Byte { ((y as int % 16) * 16 + z as int / 4) as Byte }

  function Third(z: Sextet, w: Sextet): Byte { ((z as int % 4) * 64 + w as int) as Byte }

  function Decode(s: seq<Symbol>): Bytes {
    if |s| < 4 || s[0].Pad? || s[1].Pad? then []
    else if s[2].Pad? then [First(s[0].v, s[1].v)]
    else if s[3].Pad? then [First(s[0].v, s[1].v), Second(s[1].v, s[2].v)]
    else [First(s[0].v, s[1].v), Second(s[1].v, s[2].v), Third(s[2].v, s[3].v)] + Decode(s[4..])
  }

  lemma {:induction false} QuadInverts(a: Byte, b: Byte, c: Byte)
    ensures var q := Quad(a, b, c);
      First(q[0].v, q[1].v) == a && Second(q[1].v, q[2].v) == b && Third(q[2].v, q[3].v) == c
  {
  }

  lemma {:induction false} DecodeInvertsEncode(s: Bytes)
    ensures Decode(Encode(s)) == s
    decreases |s|
  {
    if |s| == 1 {
      QuadInverts(s[0], 0, 0);
    } else if |s| == 2 {
      QuadInverts(s[0], s[1], 0);
    } else if |s| > 2 {
      QuadInverts(s[0], s[1], s[2]);
      DecodeInvertsEncode(s[3..]);
      assert Encode(s)[4..] == Encode(s[3..]);
      assert s == [s[0], s[1], s[2]] + s[3..];
    }
  }

  lemma {:induction false} EncodedLength(s: Bytes)
    ensures |Encode(s)| == 4 * ((|s| + 2) / 3)
    decreases |s|
  {
    if |s| > 2 {
      EncodedLength(s[3..]);
    }
  }
}
