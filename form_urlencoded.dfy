/**
 * The part of URLSearchParams that the scanner relies on: construction from a
 * string (a leading '?' is dropped), the application/x-www-form-urlencoded
 * parser of section 5.1 of the WHATWG URL Standard, and get(name).
 * Splitting on '&' and '=' and turning '+' into a space are done on scalar
 * values; the standard does them on the UTF-8 bytes, which gives the same
 * result because all three characters are ASCII and UTF-8 never uses a byte
 * below 0x80 inside a multi-byte sequence.
 */
module FormUrlEncoded {
  import opened Common
  import Utf8

  /** A name-value tuple of the parsed list. */
  type Pair = (string, string)

  // ---------------------------------------------------------------------------
  // Percent-decoding (section 1.3 of the URL Standard)

  predicate IsHexDigit(b: byte)
  {
    0x30 <= b <= 0x39 || 0x41 <= b <= 0x46 || 0x61 <= b <= 0x66
  }

  function HexValue(b: byte): (v: nat)
    requires IsHexDigit(b)
    ensures v < 16
  {
    if b <= 0x39 then b - 0x30 else if b <= 0x46 then b - 0x41 + 10 else b - 0x61 + 10
  }

  /**
   * Every '%' followed by two hex digits becomes the byte they spell; any
   * other byte, including a '%' without two hex digits after it, is kept.
   */
  function PercentDecode(b: seq<byte>): (r: seq<byte>)
    ensures |r| <= |b|
    decreases |b|
  {
    if b == [] then []
    else if b[0] == 0x25 && |b| >= 3 && IsHexDigit(b[1]) && IsHexDigit(b[2]) then
      [HexValue(b[1]) * 16 + HexValue(b[2])] + PercentDecode(b[3..])
    else [b[0]] + PercentDecode(b[1..])
  }

  /** Bytes without '%' are left as they are. */
  lemma {:induction false} PercentDecodeWithoutPercent(b: seq<byte>)
    requires 0x25 !in b
    ensures PercentDecode(b) == b
  {
    if b != [] {
      assert 0x25 !in b[1..];
      PercentDecodeWithoutPercent(b[1..]);
    }
  }

  // ---------------------------------------------------------------------------
  // Decoding one name or value

  /** Every '+' becomes a space. */
  function PlusToSpace(s: string): (r: string)
  {
    seq(|s|, i requires 0 <= i < |s| => if s[i] == '+' then ' ' else s[i])
  }

  /** '+' to space, then percent-decoding, then UTF-8 decode without BOM. */
  function DecodeComponent(s: string): string
  {
    Utf8.Decode(PercentDecode(Utf8.Encode(PlusToSpace(s))))
  }

  /** Without '%', decoding a component only turns '+' into spaces. */
  lemma DecodeComponentWithoutPercent(s: string)
    requires '%' !in s
    ensures DecodeComponent(s) == PlusToSpace(s)
  {
    var t := PlusToSpace(s);
    assert '%' !in t;
    Utf8.EncodeOmitsAscii(t, '%');
    PercentDecodeWithoutPercent(Utf8.Encode(t));
    Utf8.DecodeEncode(t);
  }

  /** An upper-case hexadecimal digit, as percent-encoding writes it. */
  function HexChar(n: nat): (c: char)
    requires n < 16
    ensures c as int < 0x80 && IsHexDigit(c as int) && HexValue(c as int) == n
  {
    if n < 10 then (0x30 + n) as char else (0x41 + n - 10) as char
  }

  /** Every byte written as '%' and two hexadecimal digits. */
  function PercentEncodeBytes(b: seq<byte>): (s: string)
    ensures '+' !in s
  {
    if b == [] then "" else ['%', HexChar(b[0] / 16), HexChar(b[0] % 16)] + PercentEncodeBytes(b[1..])
  }

  /** Percent-decoding reads back every percent-encoded byte. */
  lemma {:induction false} PercentDecodeEncoded(b: seq<byte>)
    ensures PercentDecode(Utf8.Encode(PercentEncodeBytes(b))) == b
  {
    if b != [] {
      var hi, lo := HexChar(b[0] / 16), HexChar(b[0] % 16);
      var head: string := ['%', hi, lo];
      var rest := PercentEncodeBytes(b[1..]);
      Utf8.EncodeAppend(head, rest);
      assert Utf8.Encode([lo]) == [lo as int] by { assert [lo][1..] == []; }
      assert Utf8.Encode([hi, lo]) == [hi as int, lo as int] by { assert [hi, lo][1..] == [lo]; }
      assert Utf8.Encode(head) == [0x25, hi as int, lo as int] by { assert head[1..] == [hi, lo]; }
      var e := Utf8.Encode(head) + Utf8.Encode(rest);
      assert e[3..] == Utf8.Encode(rest);
      PercentDecodeEncoded(b[1..]);
      assert b[0] / 16 * 16 + b[0] % 16 == b[0];
      assert [b[0]] + b[1..] == b;
    }
  }

  /** A name or value written as the percent-encoded UTF-8 bytes of s decodes to s. */
  lemma DecodeComponentPercentEncoded(s: string)
    ensures DecodeComponent(PercentEncodeBytes(Utf8.Encode(s))) == s
  {
    var t := PercentEncodeBytes(Utf8.Encode(s));
    assert forall i :: 0 <= i < |t| ==> t[i] != '+';
    assert PlusToSpace(t) == t;
    PercentDecodeEncoded(Utf8.Encode(s));
    Utf8.DecodeEncode(s);
  }

  // ---------------------------------------------------------------------------
  // Splitting

  /** The inverse of splitting: the parts with sep between consecutive ones. */
  function Join(parts: seq<string>, sep: char): string
    requires |parts| > 0
  {
    if |parts| == 1 then parts[0] else parts[0] + [sep] + Join(parts[1..], sep)
  }

  /** The pieces of s between occurrences of sep, empty pieces included. */
  function SplitOn(s: string, sep: char): (r: seq<string>)
    ensures |r| > 0
    ensures forall i :: 0 <= i < |r| ==> sep !in r[i]
    ensures Join(r, sep) == s
  {
    if s == [] then [""]
    else
      var rest := SplitOn(s[1..], sep);
      if s[0] == sep then
        assert ([""] + rest)[1..] == rest;
        [""] + rest
      else
        var r := [[s[0]] + rest[0]] + rest[1..];
        assert |rest| > 1 ==> r[1..] == rest[1..] && Join(rest, sep) == rest[0] + [sep] + Join(rest[1..], sep);
        r
  }

  /** A string without sep is a single piece. */
  lemma {:induction false} SplitOnWithoutSep(s: string, sep: char)
    requires sep !in s
    ensures SplitOn(s, sep) == [s]
  {
    if s != [] {
      assert sep !in s[1..];
      SplitOnWithoutSep(s[1..], sep);
      assert [s[0]] + s[1..] == s;
    }
  }

  /** The first piece ends at the first sep. */
  lemma {:induction false} SplitOnFirst(a: string, sep: char, b: string)
    requires sep !in a
    ensures SplitOn(a + [sep] + b, sep) == [a] + SplitOn(b, sep)
  {
    var s := a + [sep] + b;
    if a == [] {
      assert s[1..] == b;
    } else {
      assert s[1..] == a[1..] + [sep] + b;
      assert sep !in a[1..];
      SplitOnFirst(a[1..], sep, b);
      assert [a[0]] + a[1..] == a;
    }
  }

  /** Splitting undoes joining when no part contains the separator. */
  lemma {:induction false} SplitOnJoin(parts: seq<string>, sep: char)
    requires |parts| > 0
    requires forall i :: 0 <= i < |parts| ==> sep !in parts[i]
    ensures SplitOn(Join(parts, sep), sep) == parts
  {
    if |parts| == 1 {
      SplitOnWithoutSep(parts[0], sep);
    } else {
      SplitOnJoin(parts[1..], sep);
      SplitOnFirst(parts[0], sep, Join(parts[1..], sep));
      assert [parts[0]] + parts[1..] == parts;
    }
  }

  /** Splitting a concatenation around one separator concatenates the splits. */
  lemma {:induction false} SplitOnConcat(a: string, sep: char, b: string)
    ensures SplitOn(a + [sep] + b, sep) == SplitOn(a, sep) + SplitOn(b, sep)
  {
    var s := a + [sep] + b;
    if a == [] {
      assert s[1..] == b;
    } else {
      assert s[0] == a[0] && s[1..] == a[1..] + [sep] + b;
      SplitOnConcat(a[1..], sep, b);
      var ra, rb := SplitOn(a[1..], sep), SplitOn(b, sep);
      if a[0] != sep {
        assert (ra + rb)[0] == ra[0] && (ra + rb)[1..] == ra[1..] + rb;
      }
    }
  }

  /** A piece split on its first '='; a piece without '=' has the empty value. */
  function SplitPair(p: string): (r: Pair)
    ensures '=' in p ==> p == r.0 + "=" + r.1 && '=' !in r.0
    ensures '=' !in p ==> r == (p, "")
  {
    if p == [] then ("", "")
    else if p[0] == '=' then ("", p[1..])
    else
      var rest := SplitPair(p[1..]);
      assert [p[0]] + p[1..] == p;
      ([p[0]] + rest.0, rest.1)
  }

  /** A name without '=' comes back whole, and so does the value after it. */
  lemma {:induction false} SplitPairAt(name: string, value: string)
    requires '=' !in name
    ensures SplitPair(name + "=" + value) == (name, value)
  {
    var p := name + "=" + value;
    if name == [] {
      assert p[1..] == value;
    } else {
      assert p[1..] == name[1..] + "=" + value;
      assert '=' !in name[1..];
      SplitPairAt(name[1..], value);
      assert [name[0]] + name[1..] == name;
    }
  }

  // ---------------------------------------------------------------------------
  // The parser and URLSearchParams

  /** The name-value pairs of the pieces; empty pieces are skipped. */
  function ParsePieces(pieces: seq<string>): (r: seq<Pair>)
    ensures |r| <= |pieces|
  {
    if pieces == [] then []
    else if pieces[0] == "" then ParsePieces(pieces[1..])
    else
      var pair := SplitPair(pieces[0]);
      [(DecodeComponent(pair.0), DecodeComponent(pair.1))] + ParsePieces(pieces[1..])
  }

  /** The application/x-www-form-urlencoded parser. */
  function ParseQuery(input: string): seq<Pair>
  {
    ParsePieces(SplitOn(input, '&'))
  }

  /** `new URLSearchParams(init)` for a string init. */
  function SearchParams(init: string): seq<Pair>
  {
    if |init| > 0 && init[0] == '?' then ParseQuery(init[1..]) else ParseQuery(init)
  }

  /** Parsing a concatenation of piece lists concatenates the parsed pairs. */
  lemma {:induction false} ParsePiecesAppend(a: seq<string>, b: seq<string>)
    ensures ParsePieces(a + b) == ParsePieces(a) + ParsePieces(b)
  {
    if a == [] {
      assert a + b == b;
    } else {
      assert (a + b)[0] == a[0] && (a + b)[1..] == a[1..] + b;
      ParsePiecesAppend(a[1..], b);
    }
  }

  /** An empty piece contributes nothing. */
  lemma ParsePiecesSkipsEmpty(a: seq<string>, b: seq<string>)
    ensures ParsePieces(a + [""] + b) == ParsePieces(a + b)
  {
    ParsePiecesAppend(a + [""], b);
    ParsePiecesAppend(a, [""]);
    ParsePiecesAppend(a, b);
  }

  /** A non-empty piece becomes one pair: its name and value, split on the first '=' and decoded. */
  lemma ParsePiecesSingle(p: string)
    requires p != ""
    ensures ParsePieces([p]) == [(DecodeComponent(SplitPair(p).0), DecodeComponent(SplitPair(p).1))]
  {
    assert [p][1..] == [];
  }

  /** The empty query has no pairs. */
  lemma ParseQueryEmpty()
    ensures ParseQuery("") == []
  {
    assert SplitOn("", '&') == [""];
  }

  /** Text without '&' is one piece: no pair when it is empty, otherwise its decoded name and value. */
  lemma ParseQueryPiece(p: string)
    requires '&' !in p
    ensures p == "" ==> ParseQuery(p) == []
    ensures p != "" ==> ParseQuery(p) == [(DecodeComponent(SplitPair(p).0), DecodeComponent(SplitPair(p).1))]
  {
    SplitOnWithoutSep(p, '&');
    if p != "" {
      ParsePiecesSingle(p);
    }
  }

  /** The pairs of a concatenation around '&' are the pairs of each side, in order. */
  lemma ParseQueryConcat(a: string, b: string)
    ensures ParseQuery(a + "&" + b) == ParseQuery(a) + ParseQuery(b)
  {
    SplitOnConcat(a, '&', b);
    ParsePiecesAppend(SplitOn(a, '&'), SplitOn(b, '&'));
  }

  /** A trailing '&' changes nothing. */
  lemma ParseQueryTrailingAmpersand(a: string)
    ensures ParseQuery(a + "&") == ParseQuery(a)
  {
    ParseQueryConcat(a, "");
    assert a + "&" + "" == a + "&";
    ParseQueryEmpty();
  }

  /** A doubled '&' between two texts reads as a single one. */
  lemma ParseQueryDoubleAmpersand(a: string, b: string)
    ensures ParseQuery(a + "&" + "&" + b) == ParseQuery(a + "&" + b)
  {
    ParseQueryConcat(a + "&", b);
    ParseQueryTrailingAmpersand(a);
    ParseQueryConcat(a, b);
  }

  /** The constructor drops one leading '?' and parses everything else as it is. */
  lemma SearchParamsLeadingQuestion(t: string)
    ensures SearchParams("?" + t) == ParseQuery(t)
    ensures (t == "" || t[0] != '?') ==> SearchParams(t) == ParseQuery(t)
  {
    assert ("?" + t)[1..] == t;
  }

  /** Some pair of the list has the given name. */
  ghost predicate HasName(ps: seq<Pair>, name: string)
  {
    exists i :: 0 <= i < |ps| && ps[i].0 == name
  }

  /** v is the value of the first pair with the given name. */
  ghost predicate IsFirstValue(ps: seq<Pair>, name: string, v: string)
  {
    exists i :: 0 <= i < |ps| && ps[i] == (name, v) && forall j :: 0 <= j < i ==> ps[j].0 != name
  }

  /** A name has at most one first value. */
  lemma FirstValueUnique(ps: seq<Pair>, name: string, v: string, w: string)
    requires IsFirstValue(ps, name, v) && IsFirstValue(ps, name, w)
    ensures v == w
  {
    var i :| 0 <= i < |ps| && ps[i] == (name, v) && forall j :: 0 <= j < i ==> ps[j].0 != name;
    var k :| 0 <= k < |ps| && ps[k] == (name, w) && forall j :: 0 <= j < k ==> ps[j].0 != name;
    assert !(i < k) && !(k < i);
  }

  /** `URLSearchParams.prototype.get`: the first value with that name, or null. */
  function Get(ps: seq<Pair>, name: string): (r: Option<string>)
    ensures r.None? <==> !HasName(ps, name)
    ensures r.Some? ==> IsFirstValue(ps, name, r.value)
  {
    if ps == [] then None
    else if ps[0].0 == name then
      assert ps[0] == (name, ps[0].1);
      Some(ps[0].1)
    else
      var r := Get(ps[1..], name);
      assert HasName(ps[1..], name) ==> HasName(ps, name) by {
        if HasName(ps[1..], name) {
          var i :| 0 <= i < |ps[1..]| && ps[1..][i].0 == name;
          assert ps[i + 1].0 == name;
        }
      }
      assert HasName(ps, name) ==> HasName(ps[1..], name) by {
        if HasName(ps, name) {
          var i :| 0 <= i < |ps| && ps[i].0 == name;
          assert i > 0 && ps[1..][i - 1].0 == name;
        }
      }
      assert r.Some? ==> IsFirstValue(ps, name, r.value) by {
        if r.Some? {
          var i :| 0 <= i < |ps[1..]| && ps[1..][i] == (name, r.value)
            && forall j :: 0 <= j < i ==> ps[1..][j].0 != name;
          assert ps[i + 1] == (name, r.value);
          assert forall j :: 0 <= j < i + 1 ==> ps[j].0 != name by {
            forall j | 0 <= j < i + 1 ensures ps[j].0 != name {
              if j > 0 { assert ps[j] == ps[1..][j - 1]; }
            }
          }
        }
      }
      r
  }

  // ---------------------------------------------------------------------------
  // Serialising pairs, as the UPI template does by hand

  /** Text that the parser reads back unchanged: no '&', '%' or '+'. */
  predicate IsPlain(s: string)
  {
    '&' !in s && '%' !in s && '+' !in s
  }

  /** A pair that serialises without escaping: plain text, and no '=' in the name. */
  predicate IsPlainPair(p: Pair)
  {
    IsPlain(p.0) && '=' !in p.0 && IsPlain(p.1)
  }

  /** The text "name=value". */
  function Piece(p: Pair): string
  {
    p.0 + "=" + p.1
  }

  /** The pairs written as "name=value", joined by '&', with no escaping. */
  function Serialize(ps: seq<Pair>): string
    requires |ps| > 0
  {
    if |ps| == 1 then Piece(ps[0]) else Piece(ps[0]) + "&" + Serialize(ps[1..])
  }

  /** Serialising a pair in front of others puts its piece and an '&' in front. */
  lemma SerializeCons(p: Pair, rest: seq<Pair>)
    requires |rest| > 0
    ensures Serialize([p] + rest) == Piece(p) + "&" + Serialize(rest)
  {
    assert ([p] + rest)[1..] == rest;
  }

  /** Serialising two non-empty lists joins their texts with '&'. */
  lemma {:induction false} SerializeAppend(a: seq<Pair>, b: seq<Pair>)
    requires |a| > 0 && |b| > 0
    ensures Serialize(a + b) == Serialize(a) + "&" + Serialize(b)
  {
    assert a + b == [a[0]] + (a[1..] + b);
    SerializeCons(a[0], a[1..] + b);
    if |a| > 1 {
      SerializeAppend(a[1..], b);
    }
  }

  /** A value holding "&k=b" serialises like a separate pair (k, b) after it. */
  lemma {:induction false} SerializeSplitValue(before: seq<Pair>, name: string, a: string, k: string, b: string,
                                               after: seq<Pair>)
    ensures Serialize(before + [(name, a + "&" + k + "=" + b)] + after)
         == Serialize(before + [(name, a), (k, b)] + after)
  {
    var lhs := before + [(name, a + "&" + k + "=" + b)] + after;
    var rhs := before + [(name, a), (k, b)] + after;
    if before == [] {
      assert Piece((name, a + "&" + k + "=" + b)) == Piece((name, a)) + "&" + Piece((k, b));
      if after != [] {
        assert lhs == [(name, a + "&" + k + "=" + b)] + after;
        SerializeCons((name, a + "&" + k + "=" + b), after);
        assert rhs == [(name, a)] + ([(k, b)] + after);
        SerializeCons((name, a), [(k, b)] + after);
        SerializeCons((k, b), after);
      } else {
        assert rhs == [(name, a)] + [(k, b)];
        SerializeCons((name, a), [(k, b)]);
      }
    } else {
      SerializeSplitValue(before[1..], name, a, k, b, after);
      assert lhs == [before[0]] + (before[1..] + [(name, a + "&" + k + "=" + b)] + after);
      assert rhs == [before[0]] + (before[1..] + [(name, a), (k, b)] + after);
      SerializeCons(before[0], before[1..] + [(name, a + "&" + k + "=" + b)] + after);
      SerializeCons(before[0], before[1..] + [(name, a), (k, b)] + after);
    }
  }

  /** Plain text decodes to itself. */
  lemma DecodeComponentPlain(s: string)
    requires IsPlain(s)
    ensures DecodeComponent(s) == s
  {
    DecodeComponentWithoutPercent(s);
    assert PlusToSpace(s) == s;
  }

  /** The piece of every pair, in order. */
  function Pieces(ps: seq<Pair>): (r: seq<string>)
    ensures |r| == |ps|
    ensures forall i :: 0 <= i < |ps| ==> r[i] == Piece(ps[i])
  {
    if ps == [] then [] else [Piece(ps[0])] + Pieces(ps[1..])
  }

  /** Serialize is Join of the pieces. */
  lemma {:induction false} SerializeIsJoin(ps: seq<Pair>)
    requires |ps| > 0
    ensures Serialize(ps) == Join(Pieces(ps), '&')
  {
    if |ps| > 1 {
      SerializeIsJoin(ps[1..]);
    }
  }

  /** The piece of a plain pair is parsed back into that pair. */
  lemma ParsePiecePlain(p: Pair)
    requires IsPlainPair(p)
    ensures ParsePieces([Piece(p)]) == [p]
  {
    assert |Piece(p)| > 0;
    ParsePiecesSingle(Piece(p));
    SplitPairAt(p.0, p.1);
    DecodeComponentPlain(p.0);
    DecodeComponentPlain(p.1);
  }

  /** Each piece of a list of plain pairs is parsed back into its pair. */
  lemma {:induction false} ParsePiecesOfPairs(ps: seq<Pair>)
    requires forall i :: 0 <= i < |ps| ==> IsPlainPair(ps[i])
    ensures ParsePieces(Pieces(ps)) == ps
  {
    if ps != [] {
      ParsePiecesAppend([Piece(ps[0])], Pieces(ps[1..]));
      ParsePiecePlain(ps[0]);
      ParsePiecesOfPairs(ps[1..]);
      assert [ps[0]] + ps[1..] == ps;
    }
  }

  /** Parsing undoes serialising for plain pairs. */
  lemma ParseSerialize(ps: seq<Pair>)
    requires |ps| > 0
    requires forall i :: 0 <= i < |ps| ==> IsPlainPair(ps[i])
    ensures ParseQuery(Serialize(ps)) == ps
  {
    var pieces := Pieces(ps);
    SerializeIsJoin(ps);
    assert forall i :: 0 <= i < |pieces| ==> '&' !in pieces[i] by {
      forall i | 0 <= i < |pieces| ensures '&' !in pieces[i] {
        assert pieces[i] == ps[i].0 + "=" + ps[i].1;
      }
    }
    SplitOnJoin(pieces, '&');
    ParsePiecesOfPairs(ps);
  }
}
