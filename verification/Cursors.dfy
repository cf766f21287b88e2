/**
  Opaque cursors: decimal numbers in unpadded URL-safe base64 (section 5 of RFC 4648, without the padding of
  section 3.2), as Go prints and reads them. A raw byte is a character below 256.
*/
module Cursors {
  import opened Common

  const INT64_MIN := -0x8000_0000_0000_0000
  const INT64_MAX := 0x7fff_ffff_ffff_ffff

  predicate IsInt64(n: int) {
    INT64_MIN <= n <= INT64_MAX
  }

  predicate Bytes(s: string) {
    forall k :: 0 <= k < |s| ==> s[k] as int < 256
  }

  // ---- Decimal numbers ----

  predicate IsDigit(c: char) {
    '0' <= c <= '9'
  }

  function Digits(n: nat): (s: string)
    ensures s != [] && forall k :: 0 <= k < |s| ==> IsDigit(s[k])
  {
    var last := ['0' + (n % 10) as char];
    if n < 10 then last else Digits(n / 10) + last
  }

  function FormatInt(n: int): string {
    if n < 0 then "-" + Digits(-n) else Digits(n)
  }

  function ParseDigits(s: string): Option<nat> {
    if s == [] then Some(0)
    else
      var c := s[|s| - 1];
      match ParseDigits(s[..|s| - 1])
      case Some(n) => if IsDigit(c) then Some(10 * n + (c as int - '0' as int)) else None
      case None => None
  }

  /** strconv.ParseInt(s, 10, 64): an optional sign, at least one digit, and a value in range. */
  function ParseInt(s: string): Option<int> {
    var signed := s != [] && (s[0] == '+' || s[0] == '-');
    var digits := if signed then s[1..] else s;
    match if digits == [] then None else ParseDigits(digits)
    case None => None
    case Some(n) =>
      var m: int := n;
      var v := if signed && s[0] == '-' then -m else m;
      if IsInt64(v) then Some(v) else None
  }

  lemma {:induction false} DigitsRead(n: nat)
    ensures ParseDigits(Digits(n)) == Some(n)
  {
    var last := '0' + (n % 10) as char;
    if n < 10 {
      assert Digits(n) == [last];
      assert [last][..0] == [];
    } else {
      DigitsRead(n / 10);
      assert Digits(n)[..|Digits(n)| - 1] == Digits(n / 10);
    }
  }

  lemma IntRead(n: int)
    requires IsInt64(n)
    ensures ParseInt(FormatInt(n)) == Some(n)
    ensures Bytes(FormatInt(n)) && '|' !in FormatInt(n)
  {
    if n < 0 {
      DigitsRead(-n);
      assert FormatInt(n)[1..] == Digits(-n);
    } else {
      DigitsRead(n);
      assert IsDigit(Digits(n)[0]);
    }
  }

  // ---- Base64 ----

  function Symbol(v: nat): char
    requires v < 64
  {
    if v < 26 then 'A' + v as char
    else if v < 52 then 'a' + (v - 26) as char
    else if v < 62 then '0' + (v - 52) as char
    else if v == 62 then '-' else '_'
  }

  function SymbolValue(c: char): (v: Option<nat>)
    ensures v.Some? ==> v.value < 64 && Symbol(v.value) == c
    ensures v.None? ==> forall k: nat :: k < 64 ==> Symbol(k) != c
  {
    if 'A' <= c <= 'Z' then Some(c as int - 'A' as int)
    else if 'a' <= c <= 'z' then Some(26 + (c as int - 'a' as int))
    else if '0' <= c <= '9' then Some(52 + (c as int - '0' as int))
    else if c == '-' then Some(62) else if c == '_' then Some(63) else None
  }

  type Sextet = v: nat | v < 64

  /** Three bytes to four groups of six bits, most significant first; a short end is filled up with zero bits. */
  function Split(raw: string): seq<Sextet>
    requires Bytes(raw)
  {
    if raw == [] then []
    else
      var a := raw[0] as int;
      if |raw| == 1 then Pair(a)
      else
        var b := raw[1] as int;
        if |raw| == 2 then Triple(a, b)
        else
          Quad(a, b, raw[2] as int) + Split(raw[3..])
  }

  function Pair(a: int): seq<Sextet>
    requires 0 <= a < 256
  {
    [a / 4, a % 4 * 16]
  }

  function Triple(a: int, b: int): seq<Sextet>
    requires 0 <= a < 256 && 0 <= b < 256
  {
    [a / 4, a % 4 * 16 + b / 16, b % 16 * 4]
  }

  function Quad(a: int, b: int, c: int): seq<Sextet>
    requires 0 <= a < 256 && 0 <= b < 256 && 0 <= c < 256
  {
    [a / 4, a % 4 * 16 + b / 16, b % 16 * 4 + c / 64, c % 64]
  }

  function Symbols(vs: seq<Sextet>): string {
    if vs == [] then [] else [Symbol(vs[0])] + Symbols(vs[1..])
  }

  function Encode(raw: string): string
    requires Bytes(raw)
  {
    Symbols(Split(raw))
  }

  /** Line ends are skipped anywhere; any other character outside the alphabet is an error. */
  function Values(text: string): Option<seq<Sextet>> {
    if text == [] then Some([])
    else
      match Values(text[1..])
      case None => None
      case Some(rest) =>
        match SymbolValue(text[0])
        case Some(v) => Some([v] + rest)
        case None => if text[0] == '\n' || text[0] == '\r' then Some(rest) else None
  }

  function Byte(n: int): char
    requires 0 <= n < 256
  {
    n as char
  }

  /** A single group left over is an error; the spare bits of a short end are ignored. */
  function Join(vs: seq<Sextet>): Option<string> {
    if vs == [] then Some([])
    else if |vs| == 1 then None
    else
      var v0: int, v1: int := vs[0], vs[1];
      var a := Byte(v0 * 4 + v1 / 16);
      if |vs| == 2 then Some([a])
      else
        var v2: int := vs[2];
        var b := Byte(v1 % 16 * 16 + v2 / 4);
        if |vs| == 3 then Some([a, b])
        else
          var v3: int := vs[3];
          match Join(vs[4..])
          case None => None
          case Some(rest) => Some([a, b, Byte(v2 % 4 * 64 + v3)] + rest)
  }

  function Decode(text: string): Option<string> {
    match Values(text)
    case None => None
    case Some(vs) => Join(vs)
  }

  lemma {:induction false} SymbolsRead(vs: seq<Sextet>)
    ensures Values(Symbols(vs)) == Some(vs)
    ensures forall k :: 0 <= k < |Symbols(vs)| ==> !IsSpace(Symbols(vs)[k])
    ensures |Symbols(vs)| == |vs|
  {
    if vs != [] {
      SymbolsRead(vs[1..]);
      var text := Symbols(vs);
      assert text[1..] == Symbols(vs[1..]);
      assert text[0] == Symbol(vs[0]);
      SymbolDistinct(vs[0]);
      assert [vs[0]] + vs[1..] == vs;
    }
  }

  lemma SymbolDistinct(v: Sextet)
    ensures SymbolValue(Symbol(v)) == Some(v) && !IsSpace(Symbol(v))
  {
  }

  /** Six bits at a time and back: the three bytes of a group, and the short ends. */
  lemma FirstByte(a: int, high: int)
    requires 0 <= a < 256 && 0 <= high < 16
    ensures a / 4 * 4 + (a % 4 * 16 + high) / 16 == a
  {
    assert (a % 4 * 16 + high) / 16 == a % 4;
  }

  lemma SecondByte(top: int, b: int, high: int)
    requires 0 <= top < 4 && 0 <= b < 256 && 0 <= high < 4
    ensures (top * 16 + b / 16) % 16 * 16 + (b % 16 * 4 + high) / 4 == b
  {
    assert (top * 16 + b / 16) % 16 == b / 16;
    assert (b % 16 * 4 + high) / 4 == b % 16;
  }

  lemma ThirdByte(top: int, c: int)
    requires 0 <= top < 16 && 0 <= c < 256
    ensures (top * 4 + c / 64) % 4 * 64 + c % 64 == c
  {
    assert (top * 4 + c / 64) % 4 == c / 64;
  }

  lemma QuadJoins(a: int, b: int, c: int, rest: seq<Sextet>)
    requires 0 <= a < 256 && 0 <= b < 256 && 0 <= c < 256 && Join(rest).Some?
    ensures Join(Quad(a, b, c) + rest) == Some([a as char, b as char, c as char] + Join(rest).value)
  {
    var q: seq<Sextet> := Quad(a, b, c);
    FirstByte(a, b / 16);
    SecondByte(a % 4, b, c / 64);
    ThirdByte(b % 16, c);
    JoinLong(q[0], q[1], q[2], q[3], rest);
    assert Quad(a, b, c) == [q[0], q[1], q[2], q[3]];
  }

  /** Join on a group of four, in numbers. */
  lemma JoinLong(v0: Sextet, v1: Sextet, v2: Sextet, v3: Sextet, rest: seq<Sextet>)
    requires Join(rest).Some?
    ensures var a: int, b: int, c: int, d: int := v0, v1, v2, v3;
            Join([v0, v1, v2, v3] + rest) == Some([Byte(a * 4 + b / 16), Byte(b % 16 * 16 + c / 4), Byte(c % 4 * 64 + d)] + Join(rest).value)
  {
    assert ([v0, v1, v2, v3] + rest)[4..] == rest;
  }

  lemma TripleJoins(a: int, b: int)
    requires 0 <= a < 256 && 0 <= b < 256
    ensures Join(Triple(a, b)) == Some([a as char, b as char])
  {
    FirstByte(a, b / 16);
    SecondByte(a % 4, b, 0);
  }

  lemma PairJoins(a: int)
    requires 0 <= a < 256
    ensures Join(Pair(a)) == Some([a as char])
  {
    FirstByte(a, 0);
  }

  lemma {:induction false} SplitJoins(raw: string)
    requires Bytes(raw)
    ensures Join(Split(raw)) == Some(raw)
  {
    if |raw| >= 3 {
      SplitJoins(raw[3..]);
      QuadJoins(raw[0] as int, raw[1] as int, raw[2] as int, Split(raw[3..]));
      assert raw == [raw[0], raw[1], raw[2]] + raw[3..];
    } else if |raw| == 2 {
      TripleJoins(raw[0] as int, raw[1] as int);
      assert raw == [raw[0], raw[1]];
    } else if |raw| == 1 {
      PairJoins(raw[0] as int);
      assert raw == [raw[0]];
    }
  }

  /** Base64 round trip, for any bytes. */
  lemma DecodeEncode(raw: string)
    requires Bytes(raw)
    ensures Decode(Encode(raw)) == Some(raw)
    ensures TrimSpace(Encode(raw)) == Encode(raw) && (raw != [] ==> Encode(raw) != [])
  {
    SplitJoins(raw);
    SymbolsRead(Split(raw));
    NothingToTrim(Encode(raw));
  }

  // ---- Cursors ----

  /** unicode.IsSpace */
  predicate IsSpace(c: char) {
    || '\t' <= c <= '\r' || c == ' ' || c == '\U{0085}' || c == '\U{00A0}' || c == '\U{1680}'
    || '\U{2000}' <= c <= '\U{200A}' || c == '\U{2028}' || c == '\U{2029}' || c == '\U{202F}' || c == '\U{205F}' || c == '\U{3000}'
  }

  function TrimSpace(s: string): string {
    if s != [] && IsSpace(s[0]) then TrimSpace(s[1..])
    else if s != [] && IsSpace(s[|s| - 1]) then TrimSpace(s[..|s| - 1])
    else s
  }

  lemma NothingToTrim(s: string)
    requires forall k :: 0 <= k < |s| ==> !IsSpace(s[k])
    ensures TrimSpace(s) == s
  {
  }

  /** Where the first separator is, or the length. */
  function IndexOf(s: string, c: char): (i: nat)
    ensures i <= |s| && c !in s[..i] && (i < |s| ==> s[i] == c)
  {
    if s == [] || s[0] == c then 0
    else
      var i := IndexOf(s[1..], c) + 1;
      assert s[..i] == [s[0]] + s[1..][..i - 1];
      i
  }

  lemma {:induction false} FirstSeparator(a: string, c: char, b: string)
    requires c !in a
    ensures IndexOf(a + [c] + b, c) == |a|
  {
    if a != [] {
      FirstSeparator(a[1..], c, b);
      assert (a + [c] + b)[1..] == a[1..] + [c] + b;
    }
  }

  /** The conversation list's cursor, "id|ts". */
  function EncodeCursor(id: int, ts: int): string
    requires IsInt64(id) && IsInt64(ts)
  {
    IntRead(id);
    IntRead(ts);
    Encode(FormatInt(id) + "|" + FormatInt(ts))
  }

  function ParseCursor(cursor: string): Option<(int, int)> {
    match Decode(TrimSpace(cursor))
    case None => None
    case Some(raw) =>
      var i := IndexOf(raw, '|');
      if i == |raw| then None
      else
        var id, ts := ParseInt(raw[..i]), ParseInt(raw[i + 1..]);
        if id.None? || ts.None? then None else Some((id.value, ts.value))
  }

  /** The user list's cursor, the bare id. */
  function EncodeOpaqueCursor(id: int): string
    requires IsInt64(id)
  {
    IntRead(id);
    Encode(FormatInt(id))
  }

  function ParseOpaqueCursor(cursor: string): Option<int> {
    match Decode(TrimSpace(cursor))
    case None => None
    case Some(raw) => ParseInt(raw)
  }

  /** Reading a printed cursor gives its numbers back, for all 64-bit pairs; and a printed cursor is never the
      empty one, which stands for the first page. */
  lemma CursorRoundTrip(id: int, ts: int)
    requires IsInt64(id) && IsInt64(ts)
    ensures ParseCursor(EncodeCursor(id, ts)) == Some((id, ts))
    ensures EncodeCursor(id, ts) != ""
  {
    IntRead(id);
    IntRead(ts);
    var raw := FormatInt(id) + "|" + FormatInt(ts);
    DecodeEncode(raw);
    FirstSeparator(FormatInt(id), '|', FormatInt(ts));
    var i := IndexOf(raw, '|');
    assert raw[..i] == FormatInt(id) && raw[i + 1..] == FormatInt(ts);
  }

  lemma OpaqueRoundTrip(id: int)
    requires IsInt64(id)
    ensures ParseOpaqueCursor(EncodeOpaqueCursor(id)) == Some(id) && EncodeOpaqueCursor(id) != ""
  {
    IntRead(id);
    DecodeEncode(FormatInt(id));
  }

  // ---- What is printed, and what is refused ----

  /** Table 2 of section 5 of RFC 4648. */
  function Letter(v: int): char {
    if 0 <= v < 26 then "ABCDEFGHIJKLMNOPQRSTUVWXYZ"[v]
    else if 26 <= v < 52 then "abcdefghijklmnopqrstuvwxyz"[v - 26]
    else if 52 <= v < 62 then "0123456789"[v - 52]
    else if v == 62 then '-' else '_'
  }

  lemma SymbolsAreUrlSafe(v: Sextet)
    ensures Symbol(v) == Letter(v)
  {
    if v < 26 {
      assert v in {0, 1, 2, 3, 4, 5, 6, 7, 8, 9, 10, 11, 12, 13, 14, 15, 16, 17, 18, 19, 20, 21, 22, 23, 24, 25};
    } else if v < 52 {
      assert v - 26 in {0, 1, 2, 3, 4, 5, 6, 7, 8, 9, 10, 11, 12, 13, 14, 15, 16, 17, 18, 19, 20, 21, 22, 23, 24, 25};
    } else if v < 62 {
      assert v - 52 in {0, 1, 2, 3, 4, 5, 6, 7, 8, 9};
    }
  }

  lemma QuadBits(a: int, b: int, c: int)
    requires 0 <= a < 256 && 0 <= b < 256 && 0 <= c < 256
    ensures var n := 65536 * a + 256 * b + c; Quad(a, b, c) == [n / 64 / 64 / 64, n / 64 / 64 % 64, n / 64 % 64, n % 64]
  {
    LowBits(1024 * a + 4 * b, c);
    MidBits(16 * a, b, c / 64);
    HighBits(a, b / 16);
  }

  lemma LowBits(m: int, c: int)
    requires 0 <= c < 256
    ensures (64 * m + c) / 64 == m + c / 64 && (64 * m + c) % 64 == c % 64
  {
    SixBits(64 * m + c, m + c / 64, c % 64);
  }

  lemma MidBits(m: int, b: int, h: int)
    requires 0 <= b < 256 && 0 <= h < 4
    ensures (64 * m + 4 * b + h) / 64 == m + b / 16 && (64 * m + 4 * b + h) % 64 == b % 16 * 4 + h
  {
    assert b == 16 * (b / 16) + b % 16;
    SixBits(64 * m + 4 * b + h, m + b / 16, b % 16 * 4 + h);
  }

  lemma HighBits(a: int, h: int)
    requires 0 <= a < 256 && 0 <= h < 16
    ensures (16 * a + h) / 64 == a / 4 && (16 * a + h) % 64 == a % 4 * 16 + h
  {
    assert a == 4 * (a / 4) + a % 4;
    SixBits(16 * a + h, a / 4, a % 4 * 16 + h);
  }

  lemma SixBits(n: int, high: int, low: int)
    requires n == 64 * high + low && 0 <= low < 64
    ensures n / 64 == high && n % 64 == low
  {
  }

  function SymbolOf(v: int): char {
    if 0 <= v < 64 then Symbol(v) else '='
  }

  /** Three bytes are printed as the four digits to the base of 64 of the number that they make. */
  lemma EncodeExact(raw: string)
    requires Bytes(raw) && |raw| >= 3
    ensures var n := 65536 * raw[0] as int + 256 * raw[1] as int + raw[2] as int;
            Encode(raw) == [SymbolOf(n / 64 / 64 / 64), SymbolOf(n / 64 / 64 % 64), SymbolOf(n / 64 % 64), SymbolOf(n % 64)] + Encode(raw[3..])
  {
    var q, rest := Quad(raw[0] as int, raw[1] as int, raw[2] as int), Split(raw[3..]);
    QuadBits(raw[0] as int, raw[1] as int, raw[2] as int);
    SymbolsOfQuad(q, rest);
  }

  lemma SymbolsOfQuad(q: seq<Sextet>, rest: seq<Sextet>)
    requires |q| == 4
    ensures Symbols(q + rest) == [SymbolOf(q[0]), SymbolOf(q[1]), SymbolOf(q[2]), SymbolOf(q[3])] + Symbols(rest)
  {
    var all := q + rest;
    assert all[1..][1..][1..][1..] == rest;
    assert all[1..] == q[1..] + rest;
    assert Symbols(all) == [Symbol(all[0])] + Symbols(all[1..]);
    assert Symbols(all[1..]) == [Symbol(all[1])] + Symbols(all[1..][1..]);
    assert Symbols(all[1..][1..]) == [Symbol(all[2])] + Symbols(all[1..][1..][1..]);
    assert Symbols(all[1..][1..][1..]) == [Symbol(all[3])] + Symbols(rest);
  }

  lemma SymbolsOfShort(a: Sextet, b: Sextet, c: Sextet)
    ensures Symbols([a, b]) == [SymbolOf(a), SymbolOf(b)]
    ensures Symbols([a, b, c]) == [SymbolOf(a), SymbolOf(b), SymbolOf(c)]
  {
    assert [a, b][1..] == [b] && [b][1..] == [] && [a, b, c][1..] == [b, c] && [b, c][1..] == [c] && [c][1..] == [];
    assert Symbols([b]) == [Symbol(b)] && Symbols([c]) == [Symbol(c)];
    assert Symbols([b, c]) == [Symbol(b)] + Symbols([c]);
  }

  /** The last one or two bytes make two or three digits, filled up with zero bits. */
  lemma EncodeShort(a: int, b: int)
    requires 0 <= a < 256 && 0 <= b < 256
    ensures var n := 16 * a; Encode([a as char]) == [SymbolOf(n / 64), SymbolOf(n % 64)]
    ensures var n := 1024 * a + 4 * b; Encode([a as char, b as char]) == [SymbolOf(n / 64 / 64), SymbolOf(n / 64 % 64), SymbolOf(n % 64)]
    ensures Encode("") == ""
  {
    var v := Triple(a, b);
    TripleBits(a, b);
    SymbolsOfShort(v[0], v[1], v[2]);
    assert Split([a as char, b as char]) == [v[0], v[1], v[2]];
    var u := Pair(a);
    SixBits(16 * a, a / 4, a % 4 * 16);
    SymbolsOfShort(u[0], u[1], u[1]);
    assert Split([a as char]) == [u[0], u[1]];
  }

  lemma TripleBits(a: int, b: int)
    requires 0 <= a < 256 && 0 <= b < 256
    ensures var n := 1024 * a + 4 * b; Triple(a, b) == [n / 64 / 64, n / 64 % 64, n % 64]
  {
    MidBits(16 * a, b, 0);
    HighBits(a, b / 16);
  }

  predicate IsLetter(c: char) {
    'A' <= c <= 'Z' || 'a' <= c <= 'z' || '0' <= c <= '9' || c == '-' || c == '_'
  }

  /** How many characters are letters of the alphabet, and not line ends. */
  function Letters(text: string): nat {
    if text == [] then 0 else Letters(text[1..]) + if IsLetter(text[0]) then 1 else 0
  }

  ghost predicate InAlphabet(text: string) {
    forall k :: 0 <= k < |text| ==> IsLetter(text[k]) || text[k] == '\n' || text[k] == '\r'
  }

  lemma InAlphabetFirst(text: string)
    requires text != []
    ensures InAlphabet(text) <==> (IsLetter(text[0]) || text[0] == '\n' || text[0] == '\r') && InAlphabet(text[1..])
  {
    if InAlphabet(text) {
      forall k | 0 <= k < |text| - 1 ensures text[1..][k] == text[k + 1] {
      }
    } else {
      var k :| 0 <= k < |text| && !(IsLetter(text[k]) || text[k] == '\n' || text[k] == '\r');
      assert k > 0 ==> text[1..][k - 1] == text[k];
    }
  }

  lemma {:induction false} ValuesIff(text: string)
    ensures Values(text).Some? <==> InAlphabet(text)
    ensures Values(text).Some? ==> |Values(text).value| == Letters(text)
  {
    if text != [] {
      ValuesIff(text[1..]);
      InAlphabetFirst(text);
    }
  }

  lemma {:induction false} JoinIff(vs: seq<Sextet>)
    ensures Join(vs).Some? <==> |vs| % 4 != 1
  {
    if |vs| >= 4 {
      JoinIff(vs[4..]);
    }
  }

  /** Text is refused exactly if it holds a character outside the alphabet, or a last group of a single letter. */
  lemma DecodeIff(text: string)
    ensures Decode(text).Some? <==> InAlphabet(text) && Letters(text) % 4 != 1
  {
    ValuesIff(text);
    if Values(text).Some? {
      JoinIff(Values(text).value);
    }
  }

  lemma {:induction false} ParseDigitsIff(s: string)
    ensures ParseDigits(s).Some? <==> forall k :: 0 <= k < |s| ==> '0' <= s[k] <= '9'
  {
    if s != [] {
      var front := s[..|s| - 1];
      ParseDigitsIff(front);
      assert s == front + [s[|s| - 1]];
    }
  }

  /** A leading digit counts as often as its place says. */
  lemma {:induction false} LeadingDigit(c: char, s: string)
    requires IsDigit(c) && ParseDigits(s).Some?
    ensures ParseDigits([c] + s) == Some((c as int - '0' as int) * TenTo(|s|) + ParseDigits(s).value)
  {
    var all := [c] + s;
    if s == [] {
      assert all[..0] == [];
    } else {
      var front := s[..|s| - 1];
      LeadingDigit(c, front);
      assert all[..|all| - 1] == [c] + front;
      TenTimes(c as int - '0' as int, TenTo(|front|), ParseDigits(front).value);
    }
  }

  lemma TenTimes(d: int, t: int, n: int)
    ensures 10 * (d * t + n) == d * (10 * t) + 10 * n
  {
  }

  function TenTo(n: nat): nat {
    if n == 0 then 1 else 10 * TenTo(n - 1)
  }

  /** A number is refused exactly if it has no digit after the sign, a character that is no digit, or a value that 64 bits
      do not hold. */
  lemma ParseIntIff(s: string)
    ensures var digits := if s != "" && (s[0] == '+' || s[0] == '-') then s[1..] else s;
            && (ParseDigits(digits).Some? <==> forall k :: 0 <= k < |digits| ==> '0' <= digits[k] <= '9')
            && (ParseInt(s).Some? <==>
                  && digits != "" && ParseDigits(digits).Some?
                  && ParseDigits(digits).value <= if s[0] == '-' then 0x8000_0000_0000_0000 else 0x7fff_ffff_ffff_ffff)
            && (ParseInt(s).Some? ==> ParseInt(s).value == (if s[0] == '-' then -1 else 1) * ParseDigits(digits).value)
  {
    ParseDigitsIff(if s != "" && (s[0] == '+' || s[0] == '-') then s[1..] else s);
  }

  /** A cursor is read exactly if its text decodes to two numbers around a first separator; anything else is refused. */
  lemma ParseCursorIff(cursor: string, id: int, ts: int)
    ensures ParseCursor(cursor) == Some((id, ts)) <==>
              exists a: string, b: string ::
                Decode(TrimSpace(cursor)) == Some(a + "|" + b) && '|' !in a && ParseInt(a) == Some(id) && ParseInt(b) == Some(ts)
  {
    if ParseCursor(cursor) == Some((id, ts)) {
      var raw := Decode(TrimSpace(cursor)).value;
      var i := IndexOf(raw, '|');
      assert raw == raw[..i] + "|" + raw[i + 1..];
      assert Decode(TrimSpace(cursor)) == Some(raw[..i] + "|" + raw[i + 1..]);
    }
    forall a: string, b: string | Decode(TrimSpace(cursor)) == Some(a + "|" + b) && '|' !in a && ParseInt(a) == Some(id) && ParseInt(b) == Some(ts)
      ensures ParseCursor(cursor) == Some((id, ts))
    {
      FirstSeparator(a, '|', b);
      var raw := a + "|" + b;
      assert raw == a + ['|'] + b && raw[..|a|] == a && raw[|a| + 1..] == b;
    }
  }

  /** White space at the ends goes, and nothing else. */
  lemma {:induction false} TrimExact(s: string) returns (i: nat, j: nat)
    ensures i <= j <= |s| && TrimSpace(s) == s[i..j]
    ensures forall k :: 0 <= k < |s| && !(i <= k < j) ==> IsSpace(s[k])
    ensures i < j ==> !IsSpace(s[i]) && !IsSpace(s[j - 1])
  {
    if s != [] && IsSpace(s[0]) {
      i, j := TrimExact(s[1..]);
      i, j := i + 1, j + 1;
    } else if s != [] && IsSpace(s[|s| - 1]) {
      i, j := TrimExact(s[..|s| - 1]);
    } else {
      i, j := 0, |s|;
    }
  }
}
