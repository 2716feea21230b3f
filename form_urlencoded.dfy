/**
 * The application/x-www-form-urlencoded format of the WHATWG URL Standard,
 * section 5: the serializer (section 5.2) as the `form_urlencoded` crate
 * implements it, and the parser (section 5.1) as its partner. Strings are
 * serialized through their UTF-8 bytes, as Rust's `str::as_bytes` gives them.
 */
module FormUrlEncoded {

  newtype byte = x: int | 0 <= x < 256

  /** UTF-8 encoding of one Unicode scalar value (RFC 3629, section 3). */
  function Utf8(c: char): (bs: seq<byte>)
    ensures 1 <= |bs| <= 4
    ensures (c as int) < 0x80 ==> bs == [(c as int) as byte]
    ensures (c as int) >= 0x80 ==> forall i :: 0 <= i < |bs| ==> bs[i] >= 0x80
  {
    var n := c as int;
    if n < 0x80 then [n as byte]
    else if n < 0x800 then [(0xC0 + n / 0x40) as byte, (0x80 + n % 0x40) as byte]
    else if n < 0x1_0000 then
      [(0xE0 + n / 0x1000) as byte, (0x80 + (n / 0x40) % 0x40) as byte, (0x80 + n % 0x40) as byte]
    else
      [(0xF0 + n / 0x4_0000) as byte, (0x80 + (n / 0x1000) % 0x40) as byte,
       (0x80 + (n / 0x40) % 0x40) as byte, (0x80 + n % 0x40) as byte]
  }

  function Utf8Of(s: string): seq<byte>
  {
    if s == [] then [] else Utf8(s[0]) + Utf8Of(s[1..])
  }

  /** Bytes `byte_serialize` copies as they are: ASCII alphanumerics and `*-._`. */
  predicate Unreserved(b: byte)
  {
    b == 0x2A || b == 0x2D || b == 0x2E || 0x30 <= b <= 0x39 || 0x41 <= b <= 0x5A || b == 0x5F || 0x61 <= b <= 0x7A
  }

  /** An upper-case hex digit. */
  function HexDigit(d: int): (c: char)
    requires 0 <= d < 16
    ensures IsHex(c) && HexValue(c) == d
  {
    if d < 10 then ('0' as int + d) as char else ('A' as int + d - 10) as char
  }

  /** One byte of output: space as `+`, an unreserved byte as itself, any
      other byte as `%` and two upper-case hex digits. */
  function EncodeByte(b: byte): string
  {
    var n := b as int;
    if n == 0x20 then "+"
    else if Unreserved(b) then [n as char]
    else ['%', HexDigit(n / 16), HexDigit(n % 16)]
  }

  function EncodeBytes(bs: seq<byte>): string
  {
    if bs == [] then "" else EncodeByte(bs[0]) + EncodeBytes(bs[1..])
  }

  /** `form_urlencoded::byte_serialize(s.as_bytes())` */
  function Encode(s: string): (r: string)
    ensures forall c :: c in r ==> Emitted(c)
    ensures Decode(r) == Utf8Of(s)
  {
    EncodeBytesEmits(Utf8Of(s));
    DecodeEncodeBytes(Utf8Of(s));
    EncodeBytes(Utf8Of(s))
  }

  /** What one pair contributes: `name=value`, both byte-serialized. */
  function Segment(name: string, value: string): string
  {
    Encode(name) + "=" + Encode(value)
  }

  /** `Serializer::append_pair` on a serializer that started on an empty
      string: a `&` unless nothing was written yet, then the segment. */
  function AppendPair(out: string, name: string, value: string): (r: string)
    ensures |r| == |out| + (if |out| > 0 then 1 else 0) + |Segment(name, value)|
    ensures r[..|out|] == out
    ensures |out| > 0 ==> r[|out|] == '&'
    ensures r[|r| - |Segment(name, value)|..] == Segment(name, value)
  {
    (if |out| > 0 then out + "&" else out) + Segment(name, value)
  }

  /** `Serializer::new(String::new())`, one `append_pair` per pair in order,
      then `finish()`. */
  function Serialize(pairs: seq<(string, string)>): (r: string)
    ensures r == "" <==> pairs == []
    decreases |pairs|
  {
    if pairs == [] then ""
    else
      var n := |pairs| - 1;
      AppendPair(Serialize(pairs[..n]), pairs[n].0, pairs[n].1)
  }

  // ---------------------------------------------------------------------
  // The parser of section 5.1, stopping at the percent-decoded bytes (the
  // final "UTF-8 decode without BOM" is left to the reader).

  predicate IsHex(c: char)
  {
    '0' <= c <= '9' || 'A' <= c <= 'F' || 'a' <= c <= 'f'
  }

  function HexValue(c: char): (v: int)
    requires IsHex(c)
    ensures 0 <= v < 16
  {
    if '0' <= c <= '9' then c as int - '0' as int
    else if 'A' <= c <= 'F' then c as int - 'A' as int + 10
    else c as int - 'a' as int + 10
  }

  /** The bytes of one name or value: `+` becomes a space, `%` with two hex
      digits becomes that byte, and every other character its UTF-8 bytes. */
  function Decode(s: string): seq<byte>
    decreases |s|
  {
    if s == [] then []
    else if s[0] == '+' then [0x20] + Decode(s[1..])
    else if s[0] == '%' && |s| >= 3 && IsHex(s[1]) && IsHex(s[2]) then
      [(HexValue(s[1]) * 16 + HexValue(s[2])) as byte] + Decode(s[3..])
    else Utf8(s[0]) + Decode(s[1..])
  }

  /** Strictly splitting on a separator: the pieces between separators,
      `current` being the piece collected so far. */
  function SplitFrom(s: string, sep: char, current: string): (pieces: seq<string>)
    ensures |pieces| >= 1
  {
    if s == [] then [current]
    else if s[0] == sep then [current] + SplitFrom(s[1..], sep, "")
    else SplitFrom(s[1..], sep, current + [s[0]])
  }

  function SplitOn(s: string, sep: char): seq<string>
  {
    SplitFrom(s, sep, "")
  }

  /** A sequence split at its first `=`; with no `=`, the value is empty. */
  function SplitName(s: string): (string, string)
  {
    if s == [] then ("", "")
    else if s[0] == '=' then ("", s[1..])
    else
      var (name, value) := SplitName(s[1..]);
      ([s[0]] + name, value)
  }

  /** The name/value byte pairs of the given `&`-separated sequences, skipping
      the empty ones. */
  function ParseSequences(sequences: seq<string>): seq<(seq<byte>, seq<byte>)>
    decreases |sequences|
  {
    if sequences == [] then []
    else
      var n := |sequences| - 1;
      var last := sequences[n];
      ParseSequences(sequences[..n]) +
        (if last == "" then [] else [(Decode(SplitName(last).0), Decode(SplitName(last).1))])
  }

  /** The application/x-www-form-urlencoded parser, up to the bytes. */
  function Parse(s: string): seq<(seq<byte>, seq<byte>)>
  {
    ParseSequences(SplitOn(s, '&'))
  }

  /** Each pair as the UTF-8 bytes of its name and value. */
  function Utf8Pairs(pairs: seq<(string, string)>): (r: seq<(seq<byte>, seq<byte>)>)
    ensures |r| == |pairs|
    ensures forall i :: 0 <= i < |pairs| ==> r[i] == (Utf8Of(pairs[i].0), Utf8Of(pairs[i].1))
    decreases |pairs|
  {
    if pairs == [] then []
    else
      var n := |pairs| - 1;
      Utf8Pairs(pairs[..n]) + [(Utf8Of(pairs[n].0), Utf8Of(pairs[n].1))]
  }

  // ---------------------------------------------------------------------
  // What the serializer writes.

  /** The characters the serializer can write. */
  predicate Emitted(c: char)
  {
    ('0' <= c <= '9') || ('A' <= c <= 'Z') || ('a' <= c <= 'z')
      || c == '*' || c == '-' || c == '.' || c == '_' || c == '+' || c == '%'
  }

  /** The special-query percent-encode set of the URL Standard (section 1.3):
      what `Url::set_query` would escape in an `https` URL. */
  predicate InSpecialQuerySet(c: char)
  {
    (c as int) < 0x21 || (c as int) > 0x7E || c == '"' || c == '#' || c == '<' || c == '>' || c == '\''
  }

  lemma {:induction false} EncodeBytesEmits(bs: seq<byte>)
    ensures forall c :: c in EncodeBytes(bs) ==> Emitted(c)
  {
    if bs != [] {
      EncodeBytesEmits(bs[1..]);
      assert EncodeBytes(bs) == EncodeByte(bs[0]) + EncodeBytes(bs[1..]);
    }
  }

  /** Decoding undoes the byte serializer. */
  lemma {:induction false} DecodeEncodeBytes(bs: seq<byte>)
    ensures Decode(EncodeBytes(bs)) == bs
  {
    if bs != [] {
      var b, rest := bs[0], bs[1..];
      DecodeEncodeBytes(rest);
      DecodeFirstByte(b, EncodeBytes(rest));
      assert EncodeBytes(bs) == EncodeByte(b) + EncodeBytes(rest);
      assert bs == [b] + rest;
    }
  }

  lemma {:induction false} DecodeFirstByte(b: byte, t: string)
    ensures Decode(EncodeByte(b) + t) == [b] + Decode(t)
  {
    var n := b as int;
    var s := EncodeByte(b) + t;
    if n == 0x20 {
      assert s == ['+'] + t;
      assert s[1..] == t;
    } else if Unreserved(b) {
      var c := n as char;
      assert s == [c] + t;
      assert s[1..] == t;
      assert c != '+' && c != '%';
      assert Utf8(c) == [b];
    } else {
      var hi, lo := HexDigit(n / 16), HexDigit(n % 16);
      assert s == ['%', hi, lo] + t;
      assert s[1] == hi && s[2] == lo && s[3..] == t;
      assert HexValue(hi) * 16 + HexValue(lo) == n;
    }
  }

  /** Splitting distributes over a separator. */
  lemma {:induction false} SplitAppend(x: string, sep: char, y: string, current: string)
    ensures SplitFrom(x + [sep] + y, sep, current) == SplitFrom(x, sep, current) + SplitOn(y, sep)
  {
    var z := x + [sep] + y;
    if x == [] {
      assert z[0] == sep && z[1..] == y;
    } else {
      assert z[0] == x[0] && z[1..] == x[1..] + [sep] + y;
      if x[0] == sep {
        SplitAppend(x[1..], sep, y, "");
      } else {
        SplitAppend(x[1..], sep, y, current + [x[0]]);
      }
    }
  }

  lemma {:induction false} SplitWithout(x: string, sep: char, current: string)
    requires sep !in x
    ensures SplitFrom(x, sep, current) == [current + x]
  {
    if x == [] {
      assert current + x == current;
    } else {
      assert x[0] in x;
      SplitWithout(x[1..], sep, current + [x[0]]);
      assert current + [x[0]] + x[1..] == current + x;
    }
  }

  lemma {:induction false} SplitNameAt(a: string, b: string)
    requires '=' !in a
    ensures SplitName(a + "=" + b) == (a, b)
  {
    if a == [] {
      assert a + "=" + b == "=" + b;
    } else {
      SplitNameAt(a[1..], b);
      assert (a + "=" + b)[1..] == a[1..] + "=" + b;
      assert [a[0]] + a[1..] == a;
    }
  }

  /** The `&`-separated sequences the serializer writes, one per pair. */
  function Segments(pairs: seq<(string, string)>): (segs: seq<string>)
    ensures |segs| == |pairs|
    decreases |pairs|
  {
    if pairs == [] then []
    else
      var n := |pairs| - 1;
      Segments(pairs[..n]) + [Segment(pairs[n].0, pairs[n].1)]
  }

  /** One segment parses to its pair's bytes. */
  lemma ParseSegment(name: string, value: string)
    ensures var seg := Segment(name, value);
      && seg != ""
      && Decode(SplitName(seg).0) == Utf8Of(name)
      && Decode(SplitName(seg).1) == Utf8Of(value)
  {
    SegmentChars(name, value);
    SplitNameAt(Encode(name), Encode(value));
    DecodeEncodeBytes(Utf8Of(name));
    DecodeEncodeBytes(Utf8Of(value));
  }

  lemma {:induction false} SegmentsParse(pairs: seq<(string, string)>)
    ensures ParseSequences(Segments(pairs)) == Utf8Pairs(pairs)
    decreases |pairs|
  {
    if pairs != [] {
      var n := |pairs| - 1;
      var name, value := pairs[n].0, pairs[n].1;
      var seg := Segment(name, value);
      var segs := Segments(pairs);
      SegmentsParse(pairs[..n]);
      ParseSegment(name, value);
      assert segs[..n] == Segments(pairs[..n]) && segs[n] == seg;
    }
  }

  /** A segment holds exactly one `=` and no `&`. */
  lemma SegmentChars(name: string, value: string)
    ensures '&' !in Segment(name, value)
    ensures '=' !in Encode(name)
  {
    EncodeBytesEmits(Utf8Of(name));
    EncodeBytesEmits(Utf8Of(value));
  }

  /** The last `append_pair` adds `&` and its segment, unless it is the first. */
  lemma SerializeLast(pairs: seq<(string, string)>)
    requires pairs != []
    ensures var n := |pairs| - 1;
      var seg := Segment(pairs[n].0, pairs[n].1);
      Serialize(pairs) == if n == 0 then seg else Serialize(pairs[..n]) + "&" + seg
  {
  }

  /** Splitting the serialized text on `&` gives back the segments. */
  lemma {:induction false} SplitSerialize(pairs: seq<(string, string)>)
    requires pairs != []
    ensures SplitOn(Serialize(pairs), '&') == Segments(pairs)
    decreases |pairs|
  {
    var n := |pairs| - 1;
    var seg := Segment(pairs[n].0, pairs[n].1);
    SegmentChars(pairs[n].0, pairs[n].1);
    SplitWithout(seg, '&', "");
    assert "" + seg == seg;
    SerializeLast(pairs);
    assert Segments(pairs) == Segments(pairs[..n]) + [seg];
    if n == 0 {
      assert Segments(pairs[..n]) == [];
    } else {
      SplitSerialize(pairs[..n]);
      assert Serialize(pairs[..n]) + "&" + seg == Serialize(pairs[..n]) + ['&'] + seg;
      SplitAppend(Serialize(pairs[..n]), '&', seg, "");
    }
  }

  /** Round trip: parsing the serialized pairs gives back every pair, in
      order, as the UTF-8 bytes of its name and value. */
  lemma ParseSerialize(pairs: seq<(string, string)>)
    ensures Parse(Serialize(pairs)) == Utf8Pairs(pairs)
  {
    if pairs == [] {
      assert SplitOn("", '&') == [""];
    } else {
      SplitSerialize(pairs);
      SegmentsParse(pairs);
    }
  }

  /** A text that `Url::set_query` leaves as it is. */
  predicate QuerySafe(q: string)
  {
    forall c :: c in q ==> !InSpecialQuerySet(c)
  }

  /** The serialized text needs no further escaping in a URL query. */
  lemma {:induction false} SerializeIsQuerySafe(pairs: seq<(string, string)>)
    ensures QuerySafe(Serialize(pairs))
    decreases |pairs|
  {
    if pairs != [] {
      var n := |pairs| - 1;
      var name, value := pairs[n].0, pairs[n].1;
      EncodeBytesEmits(Utf8Of(name));
      EncodeBytesEmits(Utf8Of(value));
      assert QuerySafe(Segment(name, value));
      SerializeLast(pairs);
      if n > 0 {
        SerializeIsQuerySafe(pairs[..n]);
      }
    }
  }
}
