/** convert_macro_cas_to_cas: the server stores the CAS macro with its bytes backwards, so the bytes are
    reversed before they are read as a number. */
module MacroCas {
  import opened Sequences

  type Byte = x: int | 0 <= x < 256

  predicate IsDigit(c: char) {
    '0' <= c <= '9' || 'a' <= c <= 'f' || 'A' <= c <= 'F'
  }

  function DigitValue(c: char): (d: int)
    requires IsDigit(c)
    ensures 0 <= d < 16
  {
    if '0' <= c <= '9' then c as int - '0' as int
    else if 'a' <= c <= 'f' then c as int - 'a' as int + 10
    else c as int - 'A' as int + 10
  }

  /** The digits that hex() writes. */
  function Digit(d: int): (c: char)
    requires 0 <= d < 16
    ensures IsDigit(c) && DigitValue(c) == d
  {
    if d < 10 then (d + '0' as int) as char else (d - 10 + 'a' as int) as char
  }

  predicate IsSpace(c: char) {
    c == ' ' || 9 <= c as int <= 13
  }

  /** bytearray.fromhex: pairs of digits, with white space allowed before a pair and at the end; None is
      its ValueError. */
  function FromHex(s: string): Option<seq<Byte>> {
    if s == "" then Some([])
    else if IsSpace(s[0]) then FromHex(s[1..])
    else if |s| >= 2 && IsDigit(s[0]) && IsDigit(s[1]) then
      var rest := FromHex(s[2..]);
      if rest.None? then None else Some([16 * DigitValue(s[0]) + DigitValue(s[1])] + rest.value)
    else None
  }

  function HexOf(b: Byte): string {
    [Digit(b / 16), Digit(b % 16)]
  }

  /** bytearray.hex. */
  function ToHex(bytes: seq<Byte>): (s: string)
    ensures |s| == 2 * |bytes| && forall c :: c in s ==> IsDigit(c)
  {
    if bytes == [] then "" else HexOf(bytes[0]) + ToHex(bytes[1..])
  }

  /** int(s, base=16) of a string of digits; None is its ValueError. */
  function ParseHex(s: string): Option<int>
    requires forall c :: c in s ==> IsDigit(c)
  {
    if s == "" then None else Some(HexValue(s))
  }

  function HexValue(s: string): int
    requires forall c :: c in s ==> IsDigit(c)
    decreases |s|
  {
    if s == "" then 0 else 16 * HexValue(Front(s)) + DigitValue(Last(s))
  }

  function Power(n: nat): int {
    if n == 0 then 1 else 256 * Power(n - 1)
  }

  /** The sum of byte i times 256^i, and the value of the bytes read left to right. */
  function LittleEndian(bytes: seq<Byte>): int {
    if bytes == [] then 0 else bytes[0] + 256 * LittleEndian(bytes[1..])
  }

  function BigEndian(bytes: seq<Byte>): int
    decreases |bytes|
  {
    if bytes == [] then 0 else 256 * BigEndian(Front(bytes)) + Last(bytes)
  }

  /** bytearray.reverse. */
  method Reverse(bytes: array<Byte>)
    modifies bytes
    ensures bytes[..] == Reversed(old(bytes[..]))
  {
    var left, right := 0, bytes.Length;
    while left < right
      invariant 0 <= left <= bytes.Length && right == bytes.Length - left && left <= right + 1
      invariant forall k :: 0 <= k < bytes.Length && !(left <= k < right) ==>
                  bytes[k] == old(bytes[bytes.Length - 1 - k])
      invariant forall k :: left <= k < right ==> bytes[k] == old(bytes[k])
    {
      right := right - 1;
      bytes[left], bytes[right] := bytes[right], bytes[left];
      left := left + 1;
    }
    forall k | 0 <= k < bytes.Length ensures bytes[k] == Reversed(old(bytes[..]))[k] {
      ReversedAt(old(bytes[..]), k);
    }
  }

  function Digits(cas: string): string {
    if "0x" <= cas then cas[2..] else cas
  }

  /** The little-endian number that the digits spell; an error if they spell no byte at all. */
  function Converted(cas: string): Option<int> {
    var bytes := FromHex(Digits(cas));
    if bytes.None? || bytes.value == [] then None else Some(LittleEndian(bytes.value))
  }

  method ConvertMacroCasToCas(cas: string) returns (value: Option<int>)
    ensures value == Converted(cas)
  {
    var bytes := FromHex(if "0x" <= cas then cas[2..] else cas);
    if bytes.None? { return None; }
    var reversed := new Byte[|bytes.value|](i requires 0 <= i < |bytes.value| => bytes.value[i]);
    assert reversed[..] == bytes.value;
    Reverse(reversed);
    value := ParseHex(ToHex(reversed[..]));
    HexIsBigEndian(reversed[..]);
    ReversalSwapsEndianness(bytes.value);
  }

  lemma HexValueOfPair(s: string, t: string)
    requires |t| == 2 && forall c :: c in s + t ==> IsDigit(c)
    ensures forall c :: c in s || c in t ==> IsDigit(c)
    ensures HexValue(s + t) == 256 * HexValue(s) + 16 * DigitValue(t[0]) + DigitValue(t[1])
  {
    forall c | c in s || c in t ensures IsDigit(c) { assert c in s + t; }
    var u := s + [t[0]];
    assert t[0] in t && t[1] in t;
    assert Front(s + t) == u && Front(u) == s;
    assert HexValue(u) == 16 * HexValue(s) + DigitValue(t[0]);
    assert HexValue(s + t) == 16 * HexValue(u) + DigitValue(t[1]);
  }

  lemma {:induction false} ToHexSnoc(bytes: seq<Byte>)
    requires bytes != []
    ensures ToHex(bytes) == ToHex(Front(bytes)) + HexOf(Last(bytes))
  {
    var tail := bytes[1..];
    assert ToHex(bytes) == HexOf(bytes[0]) + ToHex(tail);
    if tail == [] {
      assert ToHex(tail) == "";
      assert Front(bytes) == [];
      assert HexOf(bytes[0]) + ToHex(tail) == [] + HexOf(bytes[0]);
    } else {
      ToHexSnoc(tail);
      assert Front(bytes)[1..] == Front(tail) && Front(bytes)[0] == bytes[0];
      assert ToHex(Front(bytes)) == HexOf(bytes[0]) + ToHex(Front(tail));
      assert ToHex(bytes) == HexOf(bytes[0]) + ToHex(tail);
      assert HexOf(bytes[0]) + (ToHex(Front(tail)) + HexOf(Last(tail)))
          == HexOf(bytes[0]) + ToHex(Front(tail)) + HexOf(Last(tail));
    }
  }

  lemma {:induction false} HexIsBigEndian(bytes: seq<Byte>)
    ensures HexValue(ToHex(bytes)) == BigEndian(bytes)
    decreases |bytes|
  {
    if bytes != [] {
      var b: Byte := Last(bytes);
      HexIsBigEndian(Front(bytes));
      ToHexSnoc(bytes);
      var s, t := ToHex(Front(bytes)), HexOf(b);
      HexValueOfPair(s, t);
      assert HexValue(s + t) == 256 * BigEndian(Front(bytes)) + 16 * (b / 16) + b % 16;
    }
  }

  lemma {:induction false} ReversalSwapsEndianness(bytes: seq<Byte>)
    ensures BigEndian(Reversed(bytes)) == LittleEndian(bytes)
  {
    if bytes != [] {
      ReversalSwapsEndianness(bytes[1..]);
      assert Front(Reversed(bytes)) == Reversed(bytes[1..]);
    }
  }

  /** Of n bytes, the number is below 256^n, and its n digits base 256 are those bytes. */
  lemma {:induction false} LittleEndianIsExact(bytes: seq<Byte>)
    ensures 0 <= LittleEndian(bytes) < Power(|bytes|)
    ensures BytesOf(LittleEndian(bytes), |bytes|) == Reversed(bytes)
  {
    if bytes != [] {
      LittleEndianIsExact(bytes[1..]);
      var rest := LittleEndian(bytes[1..]);
      assert (bytes[0] + 256 * rest) / 256 == rest && (bytes[0] + 256 * rest) % 256 == bytes[0];
    }
  }

  /** The last n base-256 digits of v, most significant first. */
  function BytesOf(v: int, n: nat): seq<Byte>
    requires v >= 0
  {
    if n == 0 then [] else BytesOf(v / 256, n - 1) + [v % 256]
  }

  /** v in hexadecimal, padded to n bytes. */
  function FixedHex(v: int, n: nat): string
    requires v >= 0
  {
    ToHex(BytesOf(v, n))
  }

  lemma {:induction false} FromHexInvertsToHex(bytes: seq<Byte>)
    ensures FromHex(ToHex(bytes)) == Some(bytes)
  {
    if bytes != [] {
      var b := bytes[0];
      FromHexInvertsToHex(bytes[1..]);
      var s := ToHex(bytes);
      assert s == HexOf(b) + ToHex(bytes[1..]);
      assert s[2..] == ToHex(bytes[1..]) && s[0] == Digit(b / 16) && s[1] == Digit(b % 16);
      assert [b] + bytes[1..] == bytes;
    }
  }

  ghost predicate AllDigits(s: string) {
    |s| % 2 == 0 && forall c :: c in s ==> IsDigit(c)
  }

  /** A string of digits of even length spells one byte per pair. */
  lemma {:induction false} PairsAreBytes(s: string)
    requires AllDigits(s)
    ensures FromHex(s).Some? && |FromHex(s).value| == |s| / 2
    ensures forall i :: 0 <= i < |s| / 2 ==>
              FromHex(s).value[i] == 16 * DigitValue(s[2 * i]) + DigitValue(s[2 * i + 1])
  {
    if s != "" {
      var rest := s[2..];
      PairsAreBytes(rest);
      assert IsDigit(s[0]) && IsDigit(s[1]);
      forall i | 0 <= i < |s| / 2
        ensures FromHex(s).value[i] == 16 * DigitValue(s[2 * i]) + DigitValue(s[2 * i + 1])
      {
        if i > 0 { assert rest[2 * (i - 1)] == s[2 * i] && rest[2 * (i - 1) + 1] == s[2 * i + 1]; }
      }
    }
  }

  /** What the conversion is for: with or without its prefix, a macro's CAS of n bytes converts to a
      number below 256^n, the bytes of which are the macro's bytes backwards; so converting that number's
      own fixed-width digits gives what the macro reads left to right. */
  lemma ConversionIsAnInvolution(cas: string)
    requires cas != "" && AllDigits(cas)
    ensures Converted("0x" + cas) == Converted(cas) && Converted(cas).Some?
    ensures var n := |cas| / 2; var value := Converted(cas).value;
            && 0 <= value < Power(n)
            && BytesOf(value, n) == Reversed(FromHex(cas).value)
            && Converted("0x" + FixedHex(value, n)) == Converted(FixedHex(value, n))
               == Some(BigEndian(FromHex(cas).value))
            && BigEndian(FromHex(cas).value) == HexValue(cas)
  {
    PairsAreBytes(cas);
    var bytes := FromHex(cas).value;
    NoPrefix(cas);
    LittleEndianIsExact(bytes);
    var back := FixedHex(LittleEndian(bytes), |bytes|);
    FromHexInvertsToHex(Reversed(bytes));
    NoPrefix(back);
    ReversalSwapsEndianness(Reversed(bytes));
    ReversedTwice(bytes);
    DigitsAreBigEndian(cas);
  }

  lemma NoPrefix(s: string)
    requires forall c :: c in s ==> IsDigit(c)
    ensures Digits(s) == s == Digits("0x" + s)
  {
    if |s| >= 2 { assert s[1] in s; }
  }

  lemma {:induction false} FromHexSnoc(s: string, t: string)
    requires AllDigits(s) && |t| == 2 && AllDigits(t)
    ensures FromHex(s).Some? && FromHex(s + t) == Some(FromHex(s).value + [16 * DigitValue(t[0]) + DigitValue(t[1])])
  {
    if s == "" {
      assert s + t == t && t[2..] == "";
      assert FromHex(t[2..]) == Some([]) && IsDigit(t[0]) && IsDigit(t[1]);
      var y := 16 * DigitValue(t[0]) + DigitValue(t[1]);
      var none: seq<Byte> := [];
      assert [y] + none == none + [y] == [y] && FromHex("") == Some(none);
    } else {
      assert IsDigit(s[0]) && IsDigit(s[1]);
      assert (s + t)[2..] == s[2..] + t && (s + t)[0] == s[0] && (s + t)[1] == s[1];
      FromHexSnoc(s[2..], t);
      var x, y := 16 * DigitValue(s[0]) + DigitValue(s[1]), 16 * DigitValue(t[0]) + DigitValue(t[1]);
      assert [x] + (FromHex(s[2..]).value + [y]) == [x] + FromHex(s[2..]).value + [y];
    }
  }

  lemma {:induction false} DigitsAreBigEndian(s: string)
    requires AllDigits(s)
    ensures FromHex(s).Some? && BigEndian(FromHex(s).value) == HexValue(s)
    decreases |s|
  {
    if s != "" {
      var front, t := s[..|s| - 2], s[|s| - 2..];
      assert front + t == s;
      DigitsAreBigEndian(front);
      FromHexSnoc(front, t);
      HexValueOfPair(front, t);
      assert 16 * DigitValue(t[0]) + DigitValue(t[1]) == Last(FromHex(s).value);
      assert Front(FromHex(s).value) == FromHex(front).value;
    }
  }

  /** The digits are the usual ones, in either case. */
  lemma DigitsAreTheUsualOnes(d: int)
    requires 0 <= d < 16
    ensures DigitValue("0123456789abcdef"[d]) == d && DigitValue("0123456789ABCDEF"[d]) == d
    ensures Digit(d) == "0123456789abcdef"[d]
  {
  }

  /** One byte more is worth its value times 256 to the number of bytes before it. */
  lemma {:induction false} LittleEndianSnoc(bytes: seq<Byte>, b: Byte)
    ensures LittleEndian(bytes + [b]) == LittleEndian(bytes) + b * Power(|bytes|)
  {
    if bytes == [] {
      assert LittleEndian([b]) == b + 256 * LittleEndian([]);
    } else {
      assert (bytes + [b])[1..] == bytes[1..] + [b];
      LittleEndianSnoc(bytes[1..], b);
    }
  }

  /** Two bytes, in full. */
  lemma TwoBytes()
    ensures Converted("1f02") == Some(0x021f)
  {
    var s := "1f02";
    assert IsDigit(s[0]) && IsDigit(s[1]) && IsDigit(s[2]) && IsDigit(s[3]);
    PairsAreBytes(s);
    var bytes := FromHex(s).value;
    assert s[2 * 0] == '1' && s[2 * 0 + 1] == 'f' && s[2 * 1] == '0' && s[2 * 1 + 1] == '2';
    assert bytes[0] == 0x1f && bytes[1] == 2;
    assert bytes == [0x1f, 2] && bytes[1..] == [2] && bytes[1..][1..] == [];
    NoPrefix(s);
  }

  /** Without white space, exactly the even strings of digits spell bytes. */
  lemma {:induction false} OnlyPairsAreBytes(s: string)
    requires forall c :: c in s ==> !IsSpace(c)
    ensures FromHex(s).Some? <==> |s| % 2 == 0 && forall c :: c in s ==> IsDigit(c)
  {
    if |s| >= 2 {
      OnlyPairsAreBytes(s[2..]);
      assert s == [s[0], s[1]] + s[2..];
      assert s[0] in s && s[1] in s;
    } else if s != "" {
      assert !IsSpace(s[0]) by { assert s[0] in s; }
    }
  }

  /** White space may come before a pair, but not within one. */
  lemma SpaceIsSkipped(space: char, digit: char, s: string)
    requires space == ' ' || 9 <= space as int <= 13
    requires IsDigit(digit)
    ensures FromHex([space] + s) == FromHex(s) && FromHex([digit, space] + s) == None
  {
    assert ([space] + s)[1..] == s;
  }

  /** Only the lower-case prefix is stripped, and nothing but white space spells no number. */
  lemma OnlyTheSmallPrefixIsStripped(s: string)
    ensures Converted("0X" + s) == None && Converted("0x") == Converted("") == Converted(" ") == None
  {
    assert !IsDigit('X');
    assert FromHex("0X" + s) == None;
    assert " "[1..] == "";
  }
}
