/**
 Base64 with padding, over the two alphabets of RFC 4648: the standard one
 (section 4) and the URL-safe one (section 5).  They differ in the characters
 for the values 62 and 63 only.
 */
module Base64 {
  import opened Bytes

  datatype Alphabet = Std | Url

  function Char(a: Alphabet, v: int): (c: byte)
    requires 0 <= v < 64
    ensures c != '=' && c != '.'
    ensures c == '/' <==> a.Std? && v == 63
    ensures (c == '-' || c == '_') <==> a.Url? && v >= 62
  {
    if v < 26 then ('A' as int + v) as char
    else if v < 52 then ('a' as int + v - 26) as char
    else if v < 62 then ('0' as int + v - 52) as char
    else if v == 62 then (if a.Std? then '+' else '-')
    else (if a.Std? then '/' else '_')
  }

  /** The value of a character, or nothing if it is not in the alphabet. */
  function Value(a: Alphabet, c: byte): (v: Option<int>)
    ensures v.Some? ==> 0 <= v.value < 64 && Char(a, v.value) == c
  {
    if 'A' <= c <= 'Z' then Some(c as int - 'A' as int)
    else if 'a' <= c <= 'z' then Some(c as int - 'a' as int + 26)
    else if '0' <= c <= '9' then Some(c as int - '0' as int + 52)
    else if c == (if a.Std? then '+' else '-') then Some(62)
    else if c == (if a.Std? then '/' else '_') then Some(63)
    else None
  }

  function Quad(a: Alphabet, x: byte, y: byte, z: byte): (t: Bytes)
    ensures |t| == 4
  {
    [Char(a, x as int / 4),
     Char(a, x as int % 4 * 16 + y as int / 16),
     Char(a, y as int % 16 * 4 + z as int / 64),
     Char(a, z as int % 64)]
  }

  /** `base64.Encoding.EncodeToString`. */
  function Encode(a: Alphabet, b: Bytes): (t: Bytes)
    ensures |t| == (|b| + 2) / 3 * 4
  {
    if b == [] then []
    else if |b| == 1 then Quad(a, b[0], 0 as char, 0 as char)[..2] + "=="
    else if |b| == 2 then Quad(a, b[0], b[1], 0 as char)[..3] + "="
    else Quad(a, b[0], b[1], b[2]) + Encode(a, b[3..])
  }

  function First(v: int, w: int): byte requires 0 <= v < 64 && 0 <= w < 64 { (v * 4 + w / 16) as char }

  function Second(v: int, w: int): byte requires 0 <= v < 64 && 0 <= w < 64 { (v % 16 * 16 + w / 4) as char }

  function Third(v: int, w: int): byte requires 0 <= v < 64 && 0 <= w < 64 { (v % 4 * 64 + w) as char }

  /**
   `base64.Encoding.DecodeString` on text without line breaks: whole groups of
   four, padding only at the very end, and unused low bits ignored.
   */
  function Decode(a: Alphabet, t: Bytes): Option<Bytes> {
    if t == [] then Some([])
    else if |t| < 4 then None
    else
      var v0, v1 := Value(a, t[0]), Value(a, t[1]);
      if v0.None? || v1.None? then None
      else if t[2] == '=' then
        if |t| == 4 && t[3] == '=' then Some([First(v0.value, v1.value)]) else None
      else
        var v2 := Value(a, t[2]);
        if v2.None? then None
        else if t[3] == '=' then
          if |t| == 4 then Some([First(v0.value, v1.value), Second(v1.value, v2.value)]) else None
        else
          var v3 := Value(a, t[3]);
          if v3.None? then None
          else
            var rest := Decode(a, t[4..]);
            if rest.None? then None
            else Some([First(v0.value, v1.value), Second(v1.value, v2.value), Third(v2.value, v3.value)] + rest.value)
  }

  /** A text uses a character the standard alphabet does not have. */
  predicate UrlOnly(t: Bytes) {
    '-' in t || '_' in t
  }

  /** Reading back a character written with one alphabet, using another. */
  lemma CharValue(a: Alphabet, d: Alphabet, v: int)
    requires 0 <= v < 64
    ensures Value(d, Char(a, v)) == if a == d || v < 62 then Some(v) else None
  {
  }

  lemma BytesOfSextets(x: byte, y: byte, z: byte)
    ensures First(x as int / 4, x as int % 4 * 16 + y as int / 16) == x
    ensures Second(x as int % 4 * 16 + y as int / 16, y as int % 16 * 4 + z as int / 64) == y
    ensures Third(y as int % 16 * 4 + z as int / 64, z as int % 64) == z
  {
  }

  /** Whether four characters written with `a` are all readable with `d`. */
  lemma QuadValues(a: Alphabet, d: Alphabet, x: byte, y: byte, z: byte)
    requires a == d || a.Url?
    ensures var q := Quad(a, x, y, z);
            var ok := a == d || !UrlOnly(q);
            ok <==> forall i :: 0 <= i < 4 ==> Value(d, q[i]).Some?
    ensures var q := Quad(a, x, y, z);
            var v0, v1, v2, v3 := Value(d, q[0]), Value(d, q[1]), Value(d, q[2]), Value(d, q[3]);
            && (v0.Some? && v1.Some? ==> First(v0.value, v1.value) == x)
            && (v1.Some? && v2.Some? ==> Second(v1.value, v2.value) == y)
            && (v2.Some? && v3.Some? ==> Third(v2.value, v3.value) == z)
  {
    BytesOfSextets(x, y, z);
    CharValue(a, d, x as int / 4);
    CharValue(a, d, x as int % 4 * 16 + y as int / 16);
    CharValue(a, d, y as int % 16 * 4 + z as int / 64);
    CharValue(a, d, z as int % 64);
    var q := Quad(a, x, y, z);
    assert UrlOnly(q) <==> exists i :: 0 <= i < 4 && (q[i] == '-' || q[i] == '_');
  }

  /** One full group in front of any text. */
  lemma DecodeGroup(a: Alphabet, d: Alphabet, x: byte, y: byte, z: byte, rest: Bytes)
    requires a == d || a.Url?
    ensures Decode(d, Quad(a, x, y, z) + rest) ==
            var tail := Decode(d, rest);
            if (a == d || !UrlOnly(Quad(a, x, y, z))) && tail.Some? then Some([x, y, z] + tail.value) else None
  {
    QuadValues(a, d, x, y, z);
    var q := Quad(a, x, y, z);
    var t := q + rest;
    assert t[4..] == rest;
    assert t[0] == q[0] && t[1] == q[1] && t[2] == q[2] && t[3] == q[3];
  }

  /** A padded last group: the dropped characters encode zero bits, so they are never URL-only. */
  lemma DecodeOne(a: Alphabet, d: Alphabet, x: byte)
    requires a == d || a.Url?
    ensures RoundTrip(a, d, [x])
  {
    QuadValues(a, d, x, 0 as char, 0 as char);
    var q := Quad(a, x, 0 as char, 0 as char);
    var c0, c1 := q[0], q[1];
    assert q == [c0, c1, 'A', 'A'];
    assert UrlOnly(q) <==> UrlOnly([c0, c1, '=', '=']);
    assert Encode(a, [x]) == [c0, c1, '=', '='];
  }

  lemma DecodeTwo(a: Alphabet, d: Alphabet, x: byte, y: byte)
    requires a == d || a.Url?
    ensures RoundTrip(a, d, [x, y])
  {
    QuadValues(a, d, x, y, 0 as char);
    var q := Quad(a, x, y, 0 as char);
    var c0, c1, c2 := q[0], q[1], q[2];
    assert q == [c0, c1, c2, 'A'];
    assert UrlOnly(q) <==> UrlOnly([c0, c1, c2, '=']);
    assert Encode(a, [x, y]) == [c0, c1, c2, '='];
  }

  lemma UrlOnlyConcat(s: Bytes, t: Bytes)
    ensures UrlOnly(s + t) <==> UrlOnly(s) || UrlOnly(t)
  {
  }

  lemma SplitThree(b: Bytes)
    requires |b| >= 3
    ensures [b[0], b[1], b[2]] + b[3..] == b
  {
  }

  lemma DecodeMore(a: Alphabet, d: Alphabet, b: Bytes)
    requires a == d || a.Url?
    requires |b| >= 3
    requires RoundTrip(a, d, b[3..])
    ensures RoundTrip(a, d, b)
  {
    DecodeGroup(a, d, b[0], b[1], b[2], Encode(a, b[3..]));
    UrlOnlyConcat(Quad(a, b[0], b[1], b[2]), Encode(a, b[3..]));
    SplitThree(b);
  }

  /** What reading with `d` gives for the text that `a` writes for `b`. */
  predicate RoundTrip(a: Alphabet, d: Alphabet, b: Bytes) {
    Decode(d, Encode(a, b)) == if a == d || !UrlOnly(Encode(a, b)) then Some(b) else None
  }

  /**
   Decoding with the alphabet used for encoding always gives the bytes back.
   Decoding a URL-safe text with the standard alphabet gives them back exactly
   when the text has neither '-' nor '_', and is an error otherwise.
   */
  lemma {:induction false} DecodeEncode(a: Alphabet, d: Alphabet, b: Bytes)
    requires a == d || a.Url?
    ensures RoundTrip(a, d, b)
  {
    if |b| == 1 {
      DecodeOne(a, d, b[0]);
      assert b == [b[0]];
    } else if |b| == 2 {
      DecodeTwo(a, d, b[0], b[1]);
      assert b == [b[0], b[1]];
    } else if |b| >= 3 {
      DecodeEncode(a, d, b[3..]);
      DecodeMore(a, d, b);
    }
  }

  /** URL-safe text never holds a slash, so it can end a slash-separated key. */
  lemma {:induction false} NoSlash(b: Bytes)
    ensures '/' !in Encode(Url, b)
  {
    if |b| >= 3 {
      NoSlash(b[3..]);
    }
  }

  lemma EncodeInjective(a: Alphabet, b: Bytes, c: Bytes)
    requires Encode(a, b) == Encode(a, c)
    ensures b == c
  {
    DecodeEncode(a, a, b);
    DecodeEncode(a, a, c);
  }

  // ---------- The format ----------

  /** Padding: none, one or two characters at the end. */
  function Padding(t: Bytes): nat {
    if |t| < 2 || t[|t| - 1] != '=' then 0 else if t[|t| - 2] != '=' then 1 else 2
  }

  /** Whole groups, padded only at the end, that give `n` bytes: three a group less the padding. */
  predicate WholeGroups(t: Bytes, n: int) {
    && |t| % 4 == 0 && n == |t| / 4 * 3 - Padding(t)
    && forall i :: 0 <= i < |t| - Padding(t) ==> t[i] != '='
  }

  lemma {:induction false} DecodeShape(a: Alphabet, t: Bytes)
    requires Decode(a, t).Some?
    ensures WholeGroups(t, |Decode(a, t).value|)
  {
    if |t| > 4 {
      FirstGroup(a, t);
      DecodeShape(a, t[4..]);
      MoreGroups(t, |Decode(a, t[4..]).value|);
    } else if t != [] {
      LastGroup(a, t);
    }
  }

  /** All groups but the last are unpadded. */
  lemma FirstGroup(a: Alphabet, t: Bytes)
    requires |t| > 4 && Decode(a, t).Some?
    ensures Decode(a, t[4..]).Some? && |Decode(a, t).value| == |Decode(a, t[4..]).value| + 3
    ensures t[0] != '=' && t[1] != '=' && t[2] != '=' && t[3] != '='
  {
  }

  lemma LastGroup(a: Alphabet, t: Bytes)
    requires 0 < |t| <= 4 && Decode(a, t).Some?
    ensures WholeGroups(t, |Decode(a, t).value|)
  {
    assert Decode(a, []) == Some([]);
  }

  lemma MoreGroups(t: Bytes, n: int)
    requires |t| > 4 && t[0] != '=' && t[1] != '=' && t[2] != '=' && t[3] != '=' && WholeGroups(t[4..], n)
    ensures WholeGroups(t, n + 3)
  {
    forall i | 0 <= i < |t| - Padding(t) ensures t[i] != '=' {
      assert i >= 4 ==> t[i] == t[4..][i - 4];
    }
  }

  /** The characters of the values: capitals, small letters and digits, each in order, and the last two. */
  lemma AlphabetExact(a: Alphabet, v: int)
    requires 0 <= v < 61
    ensures Char(a, 0) == 'A' && Char(a, 25) == 'Z' && Char(a, 26) == 'a' && Char(a, 51) == 'z'
    ensures Char(a, 52) == '0' && Char(a, 61) == '9'
    ensures Char(Std, 62) == '+' && Char(Std, 63) == '/' && Char(Url, 62) == '-' && Char(Url, 63) == '_'
    ensures v != 25 && v != 51 ==> Char(a, v + 1) as int == Char(a, v) as int + 1
  {
  }

  /** Four characters carry the 24 bits of three bytes, high bits first. */
  lemma QuadBits(a: Alphabet, x: byte, y: byte, z: byte) returns (v0: int, v1: int, v2: int, v3: int)
    ensures 0 <= v0 < 64 && 0 <= v1 < 64 && 0 <= v2 < 64 && 0 <= v3 < 64
    ensures Quad(a, x, y, z) == [Char(a, v0), Char(a, v1), Char(a, v2), Char(a, v3)]
    ensures 65536 * (x as int) + 256 * (y as int) + z as int == 262144 * v0 + 4096 * v1 + 64 * v2 + v3
  {
    v0, v1 := x as int / 4, x as int % 4 * 16 + y as int / 16;
    v2, v3 := y as int % 16 * 4 + z as int / 64, z as int % 64;
  }

  /** Vectors of section 10 of RFC 4648. */
  lemma TestVectors()
    ensures Encode(Std, "f") == "Zg==" && Encode(Std, "fo") == "Zm8=" && Encode(Std, "foo") == "Zm9v"
    ensures Encode(Std, "foobar") == "Zm9vYmFy"
  {
    assert "foo"[3..] == [] && "foobar"[3..] == "bar" && "bar"[3..] == [];
    assert Encode(Std, "bar") == "YmFy";
  }
}
