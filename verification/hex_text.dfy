/**
 * Model of `bytesToString` (src/utils/bytesToString.ts), used to turn a
 * `bytes32` ilk name such as 0x4554482d41000000… into "ETH-A":
 *   1. `hex.replace(/^0x/, '')` drops one leading "0x";
 *   2. `cleanHex.match(/.{1,2}/g)` cuts the rest into pieces of one or two
 *      characters (`.` never matches a line terminator; no match gives `[]`);
 *   3. each piece goes through `parseInt(piece, 16)` and then into a
 *      `Uint8Array`, which maps NaN to 0 and reduces modulo 256;
 *   4. a `TextDecoder` decodes the bytes (only ASCII bytes are modelled);
 *   5. every NUL character is removed.
 */
module HexText {

  import opened SeqFacts

  type Byte = b: int | 0 <= b < 256

  // ---------------------------------------------------------------------
  // Step 1: the "0x" prefix

  predicate HasHexPrefix(s: string) {
    |s| >= 2 && s[0] == '0' && s[1] == 'x'
  }

  /** `hex.replace(/^0x/, '')`: the anchored pattern matches at most once, at index 0. */
  function StripHexPrefix(hex: string): (clean: string)
    ensures HasHexPrefix(hex) ==> hex == "0x" + clean
    ensures !HasHexPrefix(hex) ==> clean == hex
    ensures |clean| == if HasHexPrefix(hex) then |hex| - 2 else |hex|
  {
    if HasHexPrefix(hex) then hex[2..] else hex
  }

  /** Only one prefix is removed: "0x0x" leaves "0x". */
  lemma StripHexPrefixOnce(rest: string)
    ensures StripHexPrefix("0x" + rest) == rest
    ensures StripHexPrefix("0x0x" + rest) == "0x" + rest
  {
    assert ("0x0x" + rest)[2..] == "0x" + rest;
  }

  // ---------------------------------------------------------------------
  // Step 2: `match(/.{1,2}/g)`

  /** ECMAScript LineTerminator: the characters that the regular-expression `.` does not match. */
  predicate IsLineTerminator(c: char) {
    c == '\n' || c == '\r' || c == '\U{2028}' || c == '\U{2029}'
  }

  /** ECMAScript WhiteSpace (including every Zs character), which `parseInt` skips before the digits. */
  predicate IsWhiteSpace(c: char) {
    || c == '\t' || c == '\U{000B}' || c == '\U{000C}' || c == ' ' || c == '\U{00A0}' || c == '\U{FEFF}'
    || c == '\U{1680}' || ('\U{2000}' <= c <= '\U{200A}') || c == '\U{202F}' || c == '\U{205F}' || c == '\U{3000}'
  }

  predicate NoLineTerminator(s: string) {
    forall i :: 0 <= i < |s| ==> !IsLineTerminator(s[i])
  }

  /**
   * The global match of `.{1,2}`: scanning left to right, a line terminator is
   * skipped, otherwise the match takes the character and, if the next one
   * exists and is not a line terminator, that one too.
   */
  function Pieces(s: string): seq<string>
    decreases |s|
  {
    if s == [] then []
    else if IsLineTerminator(s[0]) then Pieces(s[1..])
    else if |s| >= 2 && !IsLineTerminator(s[1]) then [s[..2]] + Pieces(s[2..])
    else [s[..1]] + Pieces(s[1..])
  }

  /** The pieces hold, in order, exactly the characters of the input that are not line terminators. */
  lemma {:induction false} PiecesCoverInput(s: string)
    ensures Flatten(Pieces(s)) == WithoutLineTerminators(s)
    decreases |s|
  {
    if s == [] {
    } else if IsLineTerminator(s[0]) {
      PiecesCoverInput(s[1..]);
    } else if |s| >= 2 && !IsLineTerminator(s[1]) {
      var rest := s[2..];
      PiecesCoverInput(rest);
      TwoKept(s);
      FlattenCons(s[..2], Pieces(rest));
    } else {
      var rest := s[1..];
      PiecesCoverInput(rest);
      FlattenCons(s[..1], Pieces(rest));
      assert s[..1] == [s[0]];
    }
  }

  /** Two leading characters that are not line terminators are both kept. */
  lemma TwoKept(s: string)
    requires |s| >= 2 && !IsLineTerminator(s[0]) && !IsLineTerminator(s[1])
    ensures WithoutLineTerminators(s) == s[..2] + WithoutLineTerminators(s[2..])
  {
    var t := s[1..];
    assert t[0] == s[1] && t[1..] == s[2..];
    assert WithoutLineTerminators(t) == [s[1]] + WithoutLineTerminators(s[2..]);
    assert WithoutLineTerminators(s) == [s[0]] + WithoutLineTerminators(t);
    assert s[..2] == [s[0]] + [s[1]];
  }

  lemma FlattenCons(x: string, rest: seq<string>)
    ensures Flatten([x] + rest) == x + Flatten(rest)
  {
    assert ([x] + rest)[1..] == rest;
  }

  /** Every piece has one or two characters, none of them a line terminator. */
  lemma {:induction false} PiecesShape(s: string)
    ensures forall k :: 0 <= k < |Pieces(s)| ==> 1 <= |Pieces(s)[k]| <= 2 && NoLineTerminator(Pieces(s)[k])
    decreases |s|
  {
    if s == [] {
    } else if IsLineTerminator(s[0]) {
      PiecesShape(s[1..]);
    } else if |s| >= 2 && !IsLineTerminator(s[1]) {
      PiecesShape(s[2..]);
      var p := Pieces(s);
      assert p[1..] == Pieces(s[2..]);
      forall k | 0 < k < |p| ensures 1 <= |p[k]| <= 2 && NoLineTerminator(p[k]) {
        assert p[k] == Pieces(s[2..])[k - 1];
      }
    } else {
      PiecesShape(s[1..]);
      var p := Pieces(s);
      assert p[1..] == Pieces(s[1..]);
      forall k | 0 < k < |p| ensures 1 <= |p[k]| <= 2 && NoLineTerminator(p[k]) {
        assert p[k] == Pieces(s[1..])[k - 1];
      }
    }
  }

  function WithoutLineTerminators(s: string): string {
    if s == [] then []
    else if IsLineTerminator(s[0]) then WithoutLineTerminators(s[1..])
    else [s[0]] + WithoutLineTerminators(s[1..])
  }

  /** On a string without line terminators (every hex string) there are ceil(|s| / 2) pieces. */
  lemma {:induction false} PiecesCount(s: string)
    requires NoLineTerminator(s)
    ensures |Pieces(s)| == (|s| + 1) / 2
    decreases |s|
  {
    if |s| == 1 {
      assert Pieces(s) == [s[..1]] + Pieces(s[1..]);
      assert Pieces(s[1..]) == [];
    } else if |s| >= 2 {
      PiecesCount(s[2..]);
      assert Pieces(s) == [s[..2]] + Pieces(s[2..]);
    }
  }

  /**
   * On a string without line terminators the pieces are the consecutive
   * two-character pairs, left to right, with a trailing odd character taken alone.
   */
  lemma {:induction false} PiecesArePairs(s: string)
    requires NoLineTerminator(s)
    ensures |Pieces(s)| == (|s| + 1) / 2
    ensures forall k :: 0 <= k < |Pieces(s)| ==> Pieces(s)[k] == s[2 * k .. PairEnd(k, |s|)]
    decreases |s|
  {
    PiecesCount(s);
    if |s| == 1 {
      assert Pieces(s) == [s[..1]] + Pieces(s[1..]);
      assert Pieces(s[1..]) == [];
    } else if |s| >= 2 {
      var rest := s[2..];
      PiecesArePairs(rest);
      var p := Pieces(s);
      assert p == [s[..2]] + Pieces(rest);
      forall k | 0 <= k < |p|
        ensures p[k] == s[2 * k .. PairEnd(k, |s|)]
      {
        if k > 0 {
          var j := k - 1;
          var e := PairEnd(j, |rest|);
          assert p[k] == Pieces(rest)[j] == rest[2 * j .. e];
          assert e + 2 == PairEnd(k, |s|);
          assert rest[2 * j .. e] == s[2 * k .. e + 2];
        }
      }
    }
  }

  /** Where the k-th pair of a string of length n ends. */
  function PairEnd(k: nat, n: nat): nat {
    if 2 * k + 2 <= n then 2 * k + 2 else n
  }

  // ---------------------------------------------------------------------
  // Step 3: `parseInt(piece, 16)` and the Uint8Array conversion

  datatype Parsed = NaN | Num(value: int)

  function HexDigitValue(c: char): (v: int)
    ensures -1 <= v < 16
  {
    if '0' <= c <= '9' then c as int - '0' as int
    else if 'a' <= c <= 'f' then c as int - 'a' as int + 10
    else if 'A' <= c <= 'F' then c as int - 'A' as int + 10
    else -1
  }

  predicate IsHexDigit(c: char) {
    HexDigitValue(c) >= 0
  }

  function TrimStart(s: string): (t: string)
    ensures |t| <= |s| && t == s[|s| - |t|..]
    ensures t == [] || (!IsWhiteSpace(t[0]) && !IsLineTerminator(t[0]))
    ensures forall i :: 0 <= i < |s| - |t| ==> IsWhiteSpace(s[i]) || IsLineTerminator(s[i])
  {
    if s != [] && (IsWhiteSpace(s[0]) || IsLineTerminator(s[0])) then
      var t := TrimStart(s[1..]);
      assert forall i :: 1 <= i < |s| - |t| ==> s[i] == s[1..][i - 1];
      t
    else s
  }

  /** Length of the longest prefix of hex digits. */
  function DigitRun(s: string): (n: nat)
    ensures n <= |s|
    ensures forall i :: 0 <= i < n ==> IsHexDigit(s[i])
    ensures n < |s| ==> !IsHexDigit(s[n])
  {
    if s != [] && IsHexDigit(s[0]) then 1 + DigitRun(s[1..]) else 0
  }

  /** The longest prefix of hex digits. */
  function DigitPrefix(s: string): (d: string)
    ensures forall i :: 0 <= i < |d| ==> IsHexDigit(d[i])
  {
    s[..DigitRun(s)]
  }

  /** Value of a sequence of hex digits, most significant first. */
  function HexValue(digits: string): (v: nat)
    requires forall i :: 0 <= i < |digits| ==> IsHexDigit(digits[i])
  {
    if digits == [] then 0
    else
      assert IsHexDigit(digits[|digits| - 1]);
      16 * HexValue(digits[..|digits| - 1]) + HexDigitValue(digits[|digits| - 1])
  }

  /**
   * `parseInt(s, 16)`: skip leading white space, take one optional sign, drop
   * an optional "0x"/"0X", then read the longest run of hex digits; no digit at
   * all gives NaN.
   */
  function ParseIntHex(s: string): (p: Parsed) {
    var t := TrimStart(s);
    var negative := t != [] && t[0] == '-';
    var u := if t != [] && (t[0] == '-' || t[0] == '+') then t[1..] else t;
    var v := if |u| >= 2 && u[0] == '0' && (u[1] == 'x' || u[1] == 'X') then u[2..] else u;
    var digits := DigitPrefix(v);
    if digits == [] then NaN
    else if negative then Num(-(HexValue(digits) as int))
    else Num(HexValue(digits))
  }

  /** The Uint8Array element conversion (ToUint8): NaN becomes 0, numbers are taken modulo 256. */
  function ToUint8(p: Parsed): (b: Byte)
    ensures p.Num? && 0 <= p.value < 256 ==> b == p.value
    ensures p.NaN? ==> b == 0
  {
    match p
    case NaN => 0
    case Num(v) => v % 256
  }

  /** The bytes of `new Uint8Array(cleanHex.match(/.{1,2}/g)?.map(b => parseInt(b, 16)) || [])`. */
  function HexBytes(cleanHex: string): (bytes: seq<Byte>)
    ensures |bytes| == |Pieces(cleanHex)|
  {
    var pieces := Pieces(cleanHex);
    seq(|pieces|, k requires 0 <= k < |pieces| => ToUint8(ParseIntHex(pieces[k])))
  }

  /** A hex digit is none of the characters `parseInt` treats specially before the digits. */
  lemma HexDigitIsPlain(c: char)
    requires IsHexDigit(c)
    ensures !IsWhiteSpace(c) && !IsLineTerminator(c)
    ensures c != '-' && c != '+' && c != 'x' && c != 'X'
  {
  }

  /** A piece of two hex digits is read as one byte, high digit first. */
  lemma HexPairByte(hi: char, lo: char)
    requires IsHexDigit(hi) && IsHexDigit(lo)
    ensures ToUint8(ParseIntHex([hi, lo])) == 16 * HexDigitValue(hi) + HexDigitValue(lo)
  {
    HexDigitIsPlain(hi);
    HexDigitIsPlain(lo);
    var s := [hi, lo];
    assert TrimStart(s) == s;
    assert DigitRun(s) == 2 by {
      assert s[1..] == [lo];
      assert [lo][1..] == [];
      assert DigitRun([lo]) == 1;
    }
    assert s[..2] == s;
    assert s[..1] == [hi];
    assert HexValue([hi]) == HexDigitValue(hi) by {
      assert [hi][..0] == [];
    }
    assert HexValue(s) == 16 * HexDigitValue(hi) + HexDigitValue(lo);
    assert ParseIntHex(s) == Num(HexValue(s));
  }

  /**
   * For a hex string (no line terminators) there is one byte per two-character
   * pair, ceil(|cleanHex| / 2) in all, the trailing odd character read alone.
   */
  lemma HexBytesArePairs(cleanHex: string)
    requires NoLineTerminator(cleanHex)
    ensures |HexBytes(cleanHex)| == (|cleanHex| + 1) / 2
    ensures forall k :: 0 <= k < |HexBytes(cleanHex)| ==>
      HexBytes(cleanHex)[k] == ToUint8(ParseIntHex(cleanHex[2 * k .. PairEnd(k, |cleanHex|)]))
  {
    PiecesArePairs(cleanHex);
  }

  // ---------------------------------------------------------------------
  // Steps 4 and 5: decoding and removing NULs

  predicate AllAscii(bytes: seq<Byte>) {
    forall k :: 0 <= k < |bytes| ==> bytes[k] < 0x80
  }

  /** TextDecoder (UTF-8) on ASCII bytes: one character per byte, with that code. */
  function DecodeAscii(bytes: seq<Byte>): (text: string)
    requires AllAscii(bytes)
    ensures |text| == |bytes|
    ensures forall k :: 0 <= k < |bytes| ==> text[k] as int == bytes[k]
  {
    seq(|bytes|, k requires 0 <= k < |bytes| => bytes[k] as char)
  }

  /** `.replace(/\x00/g, '')`. */
  function RemoveNul(s: string): (t: string)
    ensures '\0' !in t
    ensures |t| <= |s|
    ensures forall c :: c != '\0' ==> multiset(t)[c] == multiset(s)[c]
    ensures Subseq(t, s)
  {
    if s == [] then []
    else if s[0] == '\0' then
      assert s == [s[0]] + s[1..];
      var rest := RemoveNul(s[1..]);
      SubseqPrepend(rest, s[1..], s[0]);
      rest
    else
      assert s == [s[0]] + s[1..];
      var rest := RemoveNul(s[1..]);
      SubseqCons(rest, s[1..], s[0]);
      [s[0]] + rest
  }

  /** `bytesToString(hex)`. */
  function BytesToString(hex: string): (text: string)
    requires AllAscii(HexBytes(StripHexPrefix(hex)))
    ensures '\0' !in text
    ensures |text| <= |HexBytes(StripHexPrefix(hex))|
  {
    RemoveNul(DecodeAscii(HexBytes(StripHexPrefix(hex))))
  }

  /** The empty string and a bare "0x" both decode to the empty string. */
  lemma BytesToStringEmpty()
    ensures BytesToString("") == ""
    ensures BytesToString("0x") == ""
  {
    assert StripHexPrefix("0x") == "";
  }

  // ---------------------------------------------------------------------
  // Round trip for `bytes32` names

  /** The lower-case hex digit for a value below 16. */
  function DigitChar(d: int): (c: char)
    requires 0 <= d < 16
    ensures IsHexDigit(c) && HexDigitValue(c) == d
  {
    if d < 10 then ('0' as int + d) as char else ('a' as int + d - 10) as char
  }

  /** Two lower-case hex digits for one byte, as in the ABI encoding of `bytes32`. */
  function ByteToHex(b: Byte): (pair: string)
    ensures |pair| == 2 && IsHexDigit(pair[0]) && IsHexDigit(pair[1])
    ensures 16 * HexDigitValue(pair[0]) + HexDigitValue(pair[1]) == b
  {
    [DigitChar(b / 16), DigitChar(b % 16)]
  }

  function EncodeHex(bytes: seq<Byte>): (hex: string)
    ensures |hex| == 2 * |bytes|
    ensures forall i :: 0 <= i < |hex| ==> IsHexDigit(hex[i])
    ensures forall k :: 0 <= k < |bytes| ==> hex[2 * k .. 2 * k + 2] == ByteToHex(bytes[k])
  {
    if bytes == [] then []
    else
      var rest := EncodeHex(bytes[1..]);
      var hex := ByteToHex(bytes[0]) + rest;
      assert forall k :: 1 <= k < |bytes| ==> hex[2 * k .. 2 * k + 2] == rest[2 * (k - 1) .. 2 * (k - 1) + 2];
      hex
  }

  /** Reading back an even-length hex string gives the bytes it encodes. */
  lemma {:induction false} HexBytesOfEncoding(bytes: seq<Byte>)
    ensures HexBytes(EncodeHex(bytes)) == bytes
  {
    var hex := EncodeHex(bytes);
    forall i | 0 <= i < |hex| ensures !IsLineTerminator(hex[i]) {
      HexDigitIsPlain(hex[i]);
    }
    PiecesArePairs(hex);
    var pieces := Pieces(hex);
    assert |pieces| == |bytes|;
    var got := HexBytes(hex);
    forall k | 0 <= k < |bytes|
      ensures got[k] == bytes[k]
    {
      var pair := ByteToHex(bytes[k]);
      assert pieces[k] == hex[2 * k .. 2 * k + 2] == pair;
      assert pair == [pair[0], pair[1]];
      HexPairByte(pair[0], pair[1]);
      assert got[k] == ToUint8(ParseIntHex(pieces[k]));
    }
  }

  function Zeros(n: nat): (z: seq<Byte>)
    ensures |z| == n && forall k :: 0 <= k < n ==> z[k] == 0
  {
    seq(n, _ => 0)
  }

  function AsciiBytes(name: string): (bytes: seq<Byte>)
    requires forall i :: 0 <= i < |name| ==> name[i] as int < 0x80
    ensures |bytes| == |name| && AllAscii(bytes)
  {
    seq(|name|, i requires 0 <= i < |name| => name[i] as int)
  }

  /**
   * A `bytes32` ilk name: the ASCII characters of the name followed by zero bytes,
   * written as "0x" and 64 hex digits, decodes back to the name.
   */
  lemma {:induction false} IlkNameRoundTrip(name: string)
    requires |name| <= 32
    requires forall i :: 0 <= i < |name| ==> 0 < name[i] as int < 0x80
    ensures HexBytes(StripHexPrefix("0x" + EncodeHex(AsciiBytes(name) + Zeros(32 - |name|))))
            == AsciiBytes(name) + Zeros(32 - |name|)
    ensures BytesToString("0x" + EncodeHex(AsciiBytes(name) + Zeros(32 - |name|))) == name
  {
    var bytes := AsciiBytes(name) + Zeros(32 - |name|);
    var hex := "0x" + EncodeHex(bytes);
    assert hex[2..] == EncodeHex(bytes);
    assert StripHexPrefix(hex) == EncodeHex(bytes);
    HexBytesOfEncoding(bytes);
    PaddedNameDecodes(name);
  }

  /** Decoding the padded bytes of a NUL-free ASCII name and removing the NULs gives the name. */
  lemma PaddedNameDecodes(name: string)
    requires |name| <= 32
    requires forall i :: 0 <= i < |name| ==> 0 < name[i] as int < 0x80
    ensures AllAscii(AsciiBytes(name) + Zeros(32 - |name|))
    ensures RemoveNul(DecodeAscii(AsciiBytes(name) + Zeros(32 - |name|))) == name
  {
    var bytes := AsciiBytes(name) + Zeros(32 - |name|);
    assert AllAscii(bytes);
    var text := DecodeAscii(bytes);
    var nuls := seq(32 - |name|, _ => '\0');
    assert text == name + nuls by {
      forall k | 0 <= k < 32 ensures text[k] == (name + nuls)[k] {
        if k < |name| {
          assert text[k] as int == name[k] as int;
        }
      }
    }
    assert '\0' !in name by {
      forall i | 0 <= i < |name| ensures name[i] != '\0' {
      }
    }
    RemoveNulKeeps(name, 32 - |name|);
  }

  /** Removing NULs from a NUL-free text followed by n NULs gives the text. */
  lemma {:induction false} RemoveNulKeeps(s: string, n: nat)
    requires '\0' !in s
    ensures RemoveNul(s + seq(n, _ => '\0')) == s
    decreases |s| + n
  {
    var t := s + seq(n, _ => '\0');
    if s != [] {
      assert t[1..] == s[1..] + seq(n, _ => '\0');
      RemoveNulKeeps(s[1..], n);
    } else if n > 0 {
      assert t[0] == '\0';
      assert t[1..] == s + seq(n - 1, _ => '\0');
      RemoveNulKeeps(s, n - 1);
    }
  }

  /** Encoding distributes over concatenation of byte sequences. */
  lemma {:induction false} EncodeHexAppend(a: seq<Byte>, b: seq<Byte>)
    ensures EncodeHex(a + b) == EncodeHex(a) + EncodeHex(b)
  {
    if a == [] {
      assert a + b == b;
    } else {
      assert (a + b)[0] == a[0] && (a + b)[1..] == a[1..] + b;
      EncodeHexAppend(a[1..], b);
    }
  }

  /** Zero bytes encode as "0" digits. */
  lemma {:induction false} EncodeHexZeros(n: nat)
    ensures EncodeHex(Zeros(n)) == seq(2 * n, _ => '0')
  {
    if n > 0 {
      assert Zeros(n)[1..] == Zeros(n - 1);
      EncodeHexZeros(n - 1);
    }
  }

  /** A name whose bytes encode as `nameHex`, padded with n zero bytes, is `nameHex` followed by 2n zeros. */
  lemma PaddedEncoding(nameBytes: seq<Byte>, nameHex: string, n: nat)
    requires EncodeHex(nameBytes) == nameHex
    ensures "0x" + nameHex + seq(2 * n, _ => '0') == "0x" + EncodeHex(nameBytes + Zeros(n))
  {
    EncodeHexAppend(nameBytes, Zeros(n));
    EncodeHexZeros(n);
  }

  /**
   * The "ETH-A" ilk: its five ASCII bytes followed by 27 zero bytes, as the 64 hex
   * digits of a `bytes32`, decode to "ETH-A".
   */
  lemma EthAIlk()
    ensures HexBytes(StripHexPrefix("0x" + "4554482d41" + seq(54, _ => '0'))) == AsciiBytes("ETH-A") + Zeros(27)
    ensures BytesToString("0x" + "4554482d41" + seq(54, _ => '0')) == "ETH-A"
  {
    var name := "ETH-A";
    var hex := "0x" + "4554482d41" + seq(54, _ => '0');
    IlkNameRoundTrip(name);
    EthAEncoding();
    PaddedEncoding(AsciiBytes(name), "4554482d41", 27);
  }

  lemma EthAEncoding()
    ensures EncodeHex(AsciiBytes("ETH-A")) == "4554482d41"
  {
    var b0: seq<Byte> := [];
    var b1 := [0x41 as Byte] + b0;
    var b2 := [0x2d as Byte] + b1;
    var b3 := [0x48 as Byte] + b2;
    var b4 := [0x54 as Byte] + b3;
    var b5 := [0x45 as Byte] + b4;
    EthADigits();
    HexCons(0x41, "41", b0, "");
    HexCons(0x2d, "2d", b1, "41" + "");
    HexCons(0x48, "48", b2, "2d" + ("41" + ""));
    HexCons(0x54, "54", b3, "48" + ("2d" + ("41" + "")));
    HexCons(0x45, "45", b4, "54" + ("48" + ("2d" + ("41" + ""))));
    EthABytes(b5);
    EthAText();
  }

  /** The bytes of "ETH-A", one character each. */
  lemma EthABytes(bytes: seq<Byte>)
    requires bytes == [0x45 as Byte] + ([0x54 as Byte] + ([0x48 as Byte] + ([0x2d as Byte] + ([0x41 as Byte] + []))))
    ensures AsciiBytes("ETH-A") == bytes
  {
  }

  /** The five digit pairs side by side. */
  lemma EthAText()
    ensures "45" + ("54" + ("48" + ("2d" + ("41" + "")))) == "4554482d41"
  {
  }

  /** The two digits of each byte of "ETH-A". */
  lemma EthADigits()
    ensures ByteToHex(0x45) == "45" && ByteToHex(0x54) == "54" && ByteToHex(0x48) == "48"
    ensures ByteToHex(0x2d) == "2d" && ByteToHex(0x41) == "41"
  {
  }

  /** Encoding one more byte in front puts its two digits in front. */
  lemma HexCons(b: Byte, pair: string, rest: seq<Byte>, tail: string)
    requires ByteToHex(b) == pair && EncodeHex(rest) == tail
    ensures EncodeHex([b] + rest) == pair + tail
  {
    var bytes := [b] + rest;
    assert bytes[0] == b && bytes[1..] == rest;
    assert EncodeHex(bytes) == ByteToHex(b) + EncodeHex(rest);
  }
}
