/** The parts of JSON the facade relies on: `JSON.stringify` of a flat
    filter object (used in not-found messages) and `parseInt` of a decimal
    digit string (used for the `skip` and `limit` query options). */
module Json {
  import opened Objects

  predicate IsDigit(c: char)
  {
    '0' <= c <= '9'
  }

  predicate AllDigits(s: string)
  {
    forall i :: 0 <= i < |s| ==> IsDigit(s[i])
  }

  function DigitChar(d: nat): (c: char)
    requires d < 10
    ensures IsDigit(c) && c as int - '0' as int == d
  {
    ('0' as int + d) as char
  }

  /** The decimal numeral of `n`, without leading zeros. */
  function NatToDecimal(n: nat): (s: string)
    ensures |s| > 0 && AllDigits(s)
    ensures |s| > 1 ==> s[0] != '0'
    decreases n
  {
    if n < 10 then [DigitChar(n)]
    else NatToDecimal(n / 10) + [DigitChar(n % 10)]
  }

  /** How JavaScript prints an integral number. */
  function Decimal(n: int): string
  {
    if n < 0 then "-" + NatToDecimal(-n) else NatToDecimal(n)
  }

  /** The value of a digit string, most significant digit first. */
  function DigitsValue(s: string): nat
    requires AllDigits(s)
  {
    if s == [] then 0
    else 10 * DigitsValue(s[..|s| - 1]) + (s[|s| - 1] as int - '0' as int)
  }

  /** `parseInt(s)` for a non-empty string of decimal digits. */
  function ParseInt(s: string): (n: nat)
    requires |s| > 0 && AllDigits(s)
  {
    DigitsValue(s)
  }

  /** Parsing the printed numeral gives the number back. */
  lemma {:induction false} ParseIntOfDecimal(n: nat)
    ensures ParseInt(NatToDecimal(n)) == n
  {
    if n >= 10 {
      var s := NatToDecimal(n);
      assert s[..|s| - 1] == NatToDecimal(n / 10);
      assert s[|s| - 1] == DigitChar(n % 10);
      ParseIntOfDecimal(n / 10);
      assert DigitsValue(s) == 10 * (n / 10) + n % 10;
    }
  }

  /** Leading zeros do not change what `parseInt` reads. */
  lemma {:induction false} ParseIntLeadingZero(s: string)
    requires |s| > 0 && AllDigits(s)
    ensures ParseInt("0" + s) == ParseInt(s)
  {
    if |s| == 1 {
      assert ("0" + s)[..1] == "0";
      assert DigitsValue("0") == 0 by { assert "0"[..0] == ""; }
      assert s[..0] == "";
    } else {
      var t := s[..|s| - 1];
      assert ("0" + s)[..|"0" + s| - 1] == "0" + t;
      ParseIntLeadingZero(t);
    }
  }

  function HexDigit(d: nat): (c: char)
    requires d < 16
  {
    if d < 10 then DigitChar(d) else ('a' as int + d - 10) as char
  }

  function HexValue(c: char): int
  {
    if '0' <= c <= '9' then c as int - '0' as int
    else if 'a' <= c <= 'f' then c as int - 'a' as int + 10
    else 0
  }

  /** `JSON.stringify`'s escape of one character inside a string literal. */
  function EscapeChar(c: char): (r: string)
    ensures |r| > 0
  {
    if c == '"' then "\\\""
    else if c == '\\' then "\\\\"
    else if c as int == 8 then "\\b"
    else if c == '\t' then "\\t"
    else if c == '\n' then "\\n"
    else if c as int == 12 then "\\f"
    else if c == '\r' then "\\r"
    else if c as int < 0x20 then "\\u00" + [HexDigit(c as int / 16), HexDigit(c as int % 16)]
    else [c]
  }

  function Escape(s: string): string
  {
    if s == [] then [] else EscapeChar(s[0]) + Escape(s[1..])
  }

  /** A JSON string literal. */
  function Quote(s: string): string
  {
    "\"" + Escape(s) + "\""
  }

  /** Reads back one escaped character at the front of `s`: the character
      and how many characters of `s` it took. */
  function UnescapeFirst(s: string): (r: (char, nat))
    requires |s| > 0
    ensures 0 < r.1 <= |s|
  {
    if s[0] != '\\' || |s| == 1 then (s[0], 1)
    else if s[1] == 'b' then (8 as char, 2)
    else if s[1] == 't' then ('\t', 2)
    else if s[1] == 'n' then ('\n', 2)
    else if s[1] == 'f' then (12 as char, 2)
    else if s[1] == 'r' then ('\r', 2)
    else if s[1] == 'u' && |s| >= 6 then
      var v := 4096 * HexValue(s[2]) + 256 * HexValue(s[3]) + 16 * HexValue(s[4]) + HexValue(s[5]);
      (if 0 <= v < 0xD800 then v as char else s[1], 6)
    else (s[1], 2)
  }

  /** The inverse of `Escape`. */
  function Unescape(s: string): string
    decreases |s|
  {
    if s == [] then []
    else
      var (c, n) := UnescapeFirst(s);
      [c] + Unescape(s[n..])
  }

  lemma UnescapeCharFirst(c: char, rest: string)
    ensures UnescapeFirst(EscapeChar(c) + rest) == (c, |EscapeChar(c)|)
  {
    var e := EscapeChar(c);
    if c as int < 0x20 && c != '\t' && c != '\n' && c != '\r' && c as int != 8 && c as int != 12 {
      var hi, lo := c as int / 16, c as int % 16;
      assert (e + rest)[2] == '0' && (e + rest)[3] == '0';
      assert (e + rest)[4] == HexDigit(hi) && (e + rest)[5] == HexDigit(lo);
      assert HexValue(HexDigit(hi)) == hi;
      if lo < 10 {
        assert HexValue(HexDigit(lo)) == lo;
      } else {
        assert HexValue(HexDigit(lo)) == lo;
      }
    }
  }

  /** Escaping loses nothing: distinct strings render as distinct literals. */
  lemma {:induction false} UnescapeEscape(s: string)
    ensures Unescape(Escape(s)) == s
  {
    if s != [] {
      var e := EscapeChar(s[0]);
      UnescapeCharFirst(s[0], Escape(s[1..]));
      assert (e + Escape(s[1..]))[|e|..] == Escape(s[1..]);
      UnescapeEscape(s[1..]);
    }
  }

  /** Characters that `JSON.stringify` copies unchanged. */
  predicate Plain(s: string)
  {
    forall i :: 0 <= i < |s| ==> s[i] as int >= 0x20 && s[i] != '"' && s[i] != '\\'
  }

  lemma {:induction false} EscapePlain(s: string)
    requires Plain(s)
    ensures Escape(s) == s
  {
    if s != [] {
      assert Plain(s[1..]) by {
        forall i | 0 <= i < |s[1..]| ensures s[1..][i] as int >= 0x20 && s[1..][i] != '"' && s[1..][i] != '\\' {
          assert s[1..][i] == s[i + 1];
        }
      }
      EscapePlain(s[1..]);
    }
  }

  /** `JSON.stringify` of one value; `None` for `undefined`, which is
      omitted from objects. An ObjectId prints as its hexadecimal string. */
  function ValueJson(v: Value): Option<string>
  {
    match v
    case Undefined => None
    case Null => Some("null")
    case Bool(b) => Some(if b then "true" else "false")
    case Num(n) => Some(Decimal(n))
    case Str(s) => Some(Quote(s))
    case ObjectId(hex) => Some(Quote(hex))
    case Date(ms) => Some(Quote(Decimal(ms)))
  }

  /** The `"key":value` members of an object, in key order, skipping
      undefined values. */
  function Members(o: Obj): seq<string>
  {
    if o == [] then []
    else
      match ValueJson(o[0].1)
      case None => Members(o[1..])
      case Some(j) => [Quote(o[0].0) + ":" + j] + Members(o[1..])
  }

  function Join(parts: seq<string>, sep: string): string
  {
    if parts == [] then ""
    else if |parts| == 1 then parts[0]
    else parts[0] + sep + Join(parts[1..], sep)
  }

  /** `JSON.stringify` of a flat object. */
  function ObjJson(o: Obj): (s: string)
    ensures |s| >= 2 && s[0] == '{' && s[|s| - 1] == '}'
  {
    "{" + Join(Members(o), ",") + "}"
  }

  /** The first defined entry of an object is printed first. */
  lemma ObjJsonFirst(o: Obj, k: string, v: Value, j: string)
    requires |o| > 0 && o[0] == (k, v) && ValueJson(v) == Some(j)
    ensures var p := "{" + Quote(k) + ":" + j;
      |ObjJson(o)| > |p| && ObjJson(o)[..|p|] == p
  {
    var ms := Members(o);
    assert ms[0] == Quote(k) + ":" + j;
    var body := Join(ms, ",");
    assert |body| >= |ms[0]| && body[..|ms[0]|] == ms[0];
  }

  lemma QuotePlain(s: string)
    requires Plain(s)
    ensures Quote(s) == "\"" + s + "\""
  {
    EscapePlain(s);
  }

  /** How a member `"k":"h"` of plain strings prints. */
  function PlainMember(k: string, h: string): string
  {
    "\"" + k + "\":\"" + h + "\""
  }

  lemma MemberPlain(k: string, h: string)
    requires Plain(k) && Plain(h)
    ensures Quote(k) + ":" + Quote(h) == PlainMember(k, h)
  {
    QuotePlain(k);
    QuotePlain(h);
  }

  lemma MembersOfTwo(k0: string, h0: string, k1: string, h1: string)
    ensures Members([(k0, ObjectId(h0)), (k1, ObjectId(h1))])
         == [Quote(k0) + ":" + Quote(h0), Quote(k1) + ":" + Quote(h1)]
  {
    var o := [(k0, ObjectId(h0)), (k1, ObjectId(h1))];
    assert o[1..] == [(k1, ObjectId(h1))];
    assert o[1..][1..] == [];
    assert Members(o[1..][1..]) == [];
    assert ValueJson(o[1..][0].1) == Some(Quote(h1));
    assert Members(o[1..]) == [Quote(k1) + ":" + Quote(h1)];
    assert Members(o) == [Quote(k0) + ":" + Quote(h0)] + Members(o[1..]);
  }

  /** A filter of two ObjectIds prints as `{"_id":"<hex>","refId":"<hex>"}`. */
  lemma TwoIdsJson(id: string, ref: string)
    requires Plain(id) && Plain(ref)
    ensures ObjJson([("_id", ObjectId(id)), ("refId", ObjectId(ref))])
         == "{" + (PlainMember("_id", id) + "," + PlainMember("refId", ref)) + "}"
  {
    MembersOfTwo("_id", id, "refId", ref);
    MemberPlain("_id", id);
    MemberPlain("refId", ref);
    var m0, m1 := PlainMember("_id", id), PlainMember("refId", ref);
    assert Join([m0, m1], ",") == m0 + "," + m1;
  }

  /** The members of an object are those of its defined entries, one per
      entry and in insertion order: `undefined` entries are left out and
      nothing else is. */
  lemma {:induction false} MembersDefined(o: Obj)
    ensures |Members(o)| == |Defined(o)|
    ensures forall i :: 0 <= i < |Defined(o)| ==>
      Defined(o)[i].1 != Undefined && Members(o)[i] == Quote(Defined(o)[i].0) + ":" + ValueJson(Defined(o)[i].1).value
  {
    if o != [] {
      MembersDefined(o[1..]);
      var d, m := Defined(o[1..]), Members(o[1..]);
      if o[0].1 != Undefined {
        assert Defined(o) == [o[0]] + d;
        assert Members(o) == [Quote(o[0].0) + ":" + ValueJson(o[0].1).value] + m;
        forall i | 1 <= i < |Defined(o)|
          ensures Defined(o)[i].1 != Undefined && Members(o)[i] == Quote(Defined(o)[i].0) + ":" + ValueJson(Defined(o)[i].1).value
        {
          assert Defined(o)[i] == d[i - 1];
          assert Members(o)[i] == m[i - 1];
        }
      } else {
        assert Defined(o) == d;
        assert Members(o) == m;
      }
    }
  }
}
