/** Mixed-case checksummed addresses (EIP-55). `keccak` gives the nibbles of the hash of the lower-case hex. */
module ChecksumAddress {
  import opened Basics

  type Nibble = n: int | 0 <= n < 16
  type Address = bs: seq<Byte> | |bs| == 20 witness seq(20, _ => 0)

  // ---- Hex ----

  const DIGITS: string := "0123456789abcdef"

  function HexChar(n: Nibble): char {
    DIGITS[n]
  }

  function NibbleOf(c: char): Option<Nibble> {
    if '0' <= c <= '9' then Some(c as int - '0' as int)
    else if 'a' <= c <= 'f' then Some(c as int - 'a' as int + 10)
    else if 'A' <= c <= 'F' then Some(c as int - 'A' as int + 10)
    else None
  }

  function Encode(bs: seq<Byte>): string {
    if bs == [] then [] else [HexChar(bs[0] / 16), HexChar(bs[0] % 16)] + Encode(bs[1..])
  }

  function FromNibbles(high: Nibble, low: Nibble): Byte {
    var value: int := (high as int) * 16 + low as int;
    value
  }

  function Decode(s: string): Option<seq<Byte>> {
    if s == [] then Some([])
    else if |s| == 1 then None
    else
      match (NibbleOf(s[0]), NibbleOf(s[1]), Decode(s[2..]))
      case (Some(h), Some(l), Some(rest)) => Some([FromNibbles(h, l)] + rest)
      case _ => None
  }

  // ---- Letter case ----

  function Upper(c: char): char {
    if 'a' <= c <= 'z' then c - 32 as char else c
  }

  function Lower(c: char): char {
    if 'A' <= c <= 'Z' then c + 32 as char else c
  }

  predicate IsLetter(c: char) {
    'a' <= c <= 'z' || 'A' <= c <= 'Z'
  }

  function ToLower(s: string): (r: string)
    ensures |r| == |s|
  {
    seq(|s|, n requires 0 <= n < |s| => Lower(s[n]))
  }

  /** Two texts that differ only in letter case. */
  ghost predicate SameLetters(s: string, t: string) {
    |s| == |t| && forall n :: 0 <= n < |s| ==> Lower(s[n]) == Lower(t[n])
  }

  // ---- Checksums ----

  type Keccak = string -> seq<Nibble>

  ghost predicate IsHash(keccak: Keccak) {
    forall s :: |keccak(s)| == 64
  }

  function Cased(nibble: Nibble, c: char): char {
    if nibble >= 8 && IsLetter(c) then Upper(c) else c
  }

  /** The 40 digits of the address, each letter raised when its hash nibble is 8 or more. */
  function Body(keccak: Keccak, a: Address): string
    requires |keccak(Encode(a))| == 64
  {
    EncodedLength(a);
    var hex := Encode(a);
    seq(40, n requires 0 <= n < 40 => Cased(keccak(hex)[n], hex[n]))
  }

  lemma {:induction false} EncodedLength(bs: seq<Byte>)
    ensures |Encode(bs)| == 2 * |bs|
  {
    if bs != [] {
      EncodedLength(bs[1..]);
    }
  }

  function StripPrefix(s: string): string {
    if |s| >= 2 && s[..2] == "0x" then s[2..] else s
  }

  function FromHex(s: string): Option<Address> {
    match Decode(StripPrefix(s))
    case None => None
    case Some(bs) => if |bs| == 20 then Some(bs) else None
  }

  predicate IsValidChecksum(keccak: Keccak, s: string)
    requires IsHash(keccak)
  {
    var body := StripPrefix(s);
    |body| == 40 &&
    match Decode(ToLower(body))
    case None => false
    case Some(bs) => |bs| == 20 && Body(keccak, bs) == body
  }

  method ToChecksumString(keccak: Keccak, a: Address) returns (s: string)
    requires IsHash(keccak)
    ensures s == "0x" + Body(keccak, a)
  {
    var hex := Encode(a);
    EncodedLength(a);
    var hash := keccak(hex);
    s := "0x";
    for n := 0 to |hex|
      invariant s == "0x" + Body(keccak, a)[..n]
    {
      var c := hex[n];
      if hash[n] >= 8 && IsLetter(c) {
        s := s + [Upper(c)];
      } else {
        s := s + [c];
      }
    }
  }

  // ---- Decoding ignores letter case ----

  lemma HexCharProps(n: Nibble)
    ensures NibbleOf(HexChar(n)) == Some(n) && NibbleOf(Upper(HexChar(n))) == Some(n)
    ensures Lower(HexChar(n)) == HexChar(n) && Lower(Upper(HexChar(n))) == HexChar(n)
    ensures HexChar(n) != 'x' && Upper(HexChar(n)) != 'x'
  {
    assert DIGITS[0] == '0' && DIGITS[1] == '1' && DIGITS[2] == '2' && DIGITS[3] == '3';
    assert DIGITS[4] == '4' && DIGITS[5] == '5' && DIGITS[6] == '6' && DIGITS[7] == '7';
    assert DIGITS[8] == '8' && DIGITS[9] == '9' && DIGITS[10] == 'a' && DIGITS[11] == 'b';
    assert DIGITS[12] == 'c' && DIGITS[13] == 'd' && DIGITS[14] == 'e' && DIGITS[15] == 'f';
  }

  lemma NibbleCase(c: char, d: char)
    requires Lower(c) == Lower(d)
    ensures NibbleOf(c) == NibbleOf(d)
  {
  }

  lemma {:induction false} DecodeIgnoresCase(s: string, t: string)
    requires SameLetters(s, t)
    ensures Decode(s) == Decode(t)
  {
    if |s| >= 2 {
      NibbleCase(s[0], t[0]);
      NibbleCase(s[1], t[1]);
      DecodeIgnoresCase(s[2..], t[2..]);
    }
  }

  lemma NibblesOfByte(b: Byte)
    ensures FromNibbles(b / 16, b % 16) == b
  {
  }

  lemma {:induction false} DecodeInvertsEncode(bs: seq<Byte>)
    ensures Decode(Encode(bs)) == Some(bs)
  {
    hide NibbleOf;
    hide HexChar;
    hide FromNibbles;
    if bs != [] {
      HexCharProps(bs[0] / 16);
      HexCharProps(bs[0] % 16);
      NibblesOfByte(bs[0]);
      DecodeInvertsEncode(bs[1..]);
      assert Encode(bs)[2..] == Encode(bs[1..]);
      assert bs == [bs[0]] + bs[1..];
    }
  }

  /** Every digit of an encoding is lower case and not the letter x. */
  lemma {:induction false} EncodedDigits(bs: seq<Byte>, n: nat)
    requires n < |Encode(bs)|
    ensures exists d: Nibble :: Encode(bs)[n] == HexChar(d)
  {
    EncodedLength(bs);
    if n >= 2 {
      EncodedDigits(bs[1..], n - 2);
    }
  }

  lemma BodySpellsAddress(keccak: Keccak, a: Address)
    requires IsHash(keccak)
    ensures SameLetters(Body(keccak, a), Encode(a)) && Body(keccak, a)[1] != 'x'
  {
    EncodedLength(a);
    var body, hex := Body(keccak, a), Encode(a);
    forall n | 0 <= n < 40
      ensures Lower(body[n]) == Lower(hex[n]) && body[n] != 'x'
    {
      EncodedDigits(a, n);
      var d: Nibble :| hex[n] == HexChar(d);
      HexCharProps(d);
    }
  }

  // ---- What the checksum promises ----

  /** Position n of a printed address shows digit n of its hex, in upper case exactly when that digit is a
      letter and nibble n of the hash is 8 or more. */
  lemma CaseFollowsHash(keccak: Keccak, a: Address, n: nat)
    requires IsHash(keccak) && n < 40
    ensures |Encode(a)| == 40
    ensures var c, d := Body(keccak, a)[n], NibbleOf(Encode(a)[n]);
            && d.Some? && NibbleOf(c) == d
            && ('A' <= c <= 'F' <==> d.value >= 10 && keccak(Encode(a))[n] >= 8)
  {
    EncodedLength(a);
    EncodedDigits(a, n);
    var d: Nibble :| Encode(a)[n] == HexChar(d);
    HexCharProps(d);
    HexCharClass(d);
    hide Encode;
    hide HexChar;
  }

  lemma HexCharClass(n: Nibble)
    ensures if n < 10 then '0' <= HexChar(n) <= '9' else 'a' <= HexChar(n) <= 'f'
  {
    HexCharProps(n);
  }

  lemma StripPrinted(body: string)
    requires |body| >= 2 && body[1] != 'x'
    ensures StripPrefix("0x" + body) == body && StripPrefix(body) == body
  {
    assert ("0x" + body)[..2] == "0x" && ("0x" + body)[2..] == body;
    assert body[..2][1] == body[1];
  }

  /** Reading back a printed address gives the address. */
  lemma ChecksumRoundTrip(keccak: Keccak, a: Address)
    requires IsHash(keccak)
    ensures FromHex("0x" + Body(keccak, a)) == Some(a)
    ensures FromHex(Body(keccak, a)) == Some(a)
  {
    BodySpellsAddress(keccak, a);
    DecodeIgnoresCase(Body(keccak, a), Encode(a));
    DecodeInvertsEncode(a);
    hide Decode;
    hide Encode;
    hide Body;
    StripPrinted(Body(keccak, a));
  }

  /** Among all texts that read as the address, whatever their letter case, exactly the printed one is valid. */
  lemma ExactlyOneSpellingIsValid(keccak: Keccak, a: Address, s: string)
    requires IsHash(keccak) && FromHex(s) == Some(a)
    ensures IsValidChecksum(keccak, s) <==> StripPrefix(s) == Body(keccak, a)
  {
    var body := StripPrefix(s);
    assert SameLetters(body, ToLower(body)) by {
      forall n | 0 <= n < |body|
        ensures Lower(body[n]) == Lower(ToLower(body)[n])
      {
      }
    }
    DecodeIgnoresCase(body, ToLower(body));
  }

  /** A text is valid if and only if it is the printed form of some address, with or without its prefix. */
  lemma ValidIffPrinted(keccak: Keccak, s: string)
    requires IsHash(keccak)
    ensures IsValidChecksum(keccak, s) <==>
            exists a: Address :: s == Body(keccak, a) || s == "0x" + Body(keccak, a)
  {
    hide Decode;
    hide Body;
    if IsValidChecksum(keccak, s) {
      var a: Address := Decode(ToLower(StripPrefix(s))).value;
      assert s == StripPrefix(s) || s == "0x" + StripPrefix(s);
      assert s == Body(keccak, a) || s == "0x" + Body(keccak, a);
    }
    if a: Address :| s == Body(keccak, a) || s == "0x" + Body(keccak, a) {
      BodySpellsAddress(keccak, a);
      StripPrinted(Body(keccak, a));
      ChecksumRoundTrip(keccak, a);
      ExactlyOneSpellingIsValid(keccak, a, s);
    }
  }

  // ---- Digit by digit ----

  /** Digits 2k and 2k + 1 of the hex are the high and the low half of byte k. */
  lemma {:induction false} EncodedDigit(bs: seq<Byte>, n: nat)
    requires n < 2 * |bs|
    ensures |Encode(bs)| == 2 * |bs|
    ensures Encode(bs)[n] == "0123456789abcdef"[if n % 2 == 0 then bs[n / 2] / 16 else bs[n / 2] % 16]
  {
    EncodedLength(bs);
    if n >= 2 {
      EncodedDigit(bs[1..], n - 2);
      assert Encode(bs)[n] == Encode(bs[1..])[n - 2];
      assert bs[1..][(n - 2) / 2] == bs[n / 2];
    }
  }

  /** What a printed address shows at each position, from its bytes and the hash of its hex alone. */
  lemma PrintedDigit(keccak: Keccak, a: Address, n: nat)
    requires IsHash(keccak) && n < 40
    ensures
      var d := if n % 2 == 0 then a[n / 2] / 16 else a[n / 2] % 16;
      Body(keccak, a)[n] == if keccak(Encode(a))[n] >= 8 then "0123456789ABCDEF"[d] else "0123456789abcdef"[d]
  {
    var d: Nibble := if n % 2 == 0 then a[n / 2] / 16 else a[n / 2] % 16;
    EncodedDigit(a, n);
    RaisedDigit(d);
    hide Encode;
  }

  lemma RaisedDigit(d: Nibble)
    ensures Cased(8, HexChar(d)) == "0123456789ABCDEF"[d]
    ensures forall k: Nibble :: Cased(k, HexChar(d)) == if k >= 8 then "0123456789ABCDEF"[d] else HexChar(d)
  {
    var upper := "0123456789ABCDEF";
    assert upper[0] == '0' && upper[1] == '1' && upper[2] == '2' && upper[3] == '3';
    assert upper[4] == '4' && upper[5] == '5' && upper[6] == '6' && upper[7] == '7';
    assert upper[8] == '8' && upper[9] == '9' && upper[10] == 'A' && upper[11] == 'B';
    assert upper[12] == 'C' && upper[13] == 'D' && upper[14] == 'E' && upper[15] == 'F';
    HexCharProps(d);
  }

  // ---- Which texts are read ----

  lemma NibbleSpelling(c: char)
    ensures NibbleOf(c).Some? ==> Lower(c) == HexChar(NibbleOf(c).value)
    ensures NibbleOf(c).Some? <==> '0' <= c <= '9' || 'a' <= c <= 'f' || 'A' <= c <= 'F'
  {
    if NibbleOf(c).Some? {
      HexCharProps(NibbleOf(c).value);
    }
  }

  lemma HalvesOf(high: Nibble, low: Nibble)
    ensures FromNibbles(high, low) / 16 == high && FromNibbles(high, low) % 16 == low
  {
  }

  lemma {:induction false} DecodedSpelling(s: string)
    requires Decode(s).Some?
    ensures SameLetters(s, Encode(Decode(s).value))
  {
    hide NibbleOf;
    hide HexChar;
    hide FromNibbles;
    if s != [] {
      var h, l, rest := NibbleOf(s[0]).value, NibbleOf(s[1]).value, Decode(s[2..]).value;
      NibbleSpelling(s[0]);
      NibbleSpelling(s[1]);
      HexCharProps(h);
      HexCharProps(l);
      HalvesOf(h, l);
      DecodedSpelling(s[2..]);
      var bs := Decode(s).value;
      assert bs == [FromNibbles(h, l)] + rest && bs[1..] == rest;
      assert Encode(bs) == [HexChar(h), HexChar(l)] + Encode(rest);
    }
  }

  /** A text is read as an address if and only if, after the prefix, it spells the address's hex in some
      letter case. */
  lemma ReadsIff(s: string, a: Address)
    ensures FromHex(s) == Some(a) <==> SameLetters(StripPrefix(s), Encode(a))
  {
    var body := StripPrefix(s);
    if SameLetters(body, Encode(a)) {
      DecodeIgnoresCase(body, Encode(a));
      DecodeInvertsEncode(a);
    }
    if FromHex(s) == Some(a) {
      DecodedSpelling(body);
    }
  }

  lemma {:induction false} DecodableIff(s: string)
    ensures Decode(s).Some? <==>
            |s| % 2 == 0 && forall n :: 0 <= n < |s| ==> NibbleOf(s[n]).Some?
    ensures Decode(s).Some? ==> |Decode(s).value| == |s| / 2
  {
    hide NibbleOf;
    if |s| >= 2 {
      DecodableIff(s[2..]);
      assert forall n :: 2 <= n < |s| ==> s[n] == s[2..][n - 2];
    }
  }

  /** A text is read if and only if 40 hex digits, of either case, follow the prefix. */
  lemma ReadableIff(s: string)
    ensures
      FromHex(s).Some? <==>
        var body := StripPrefix(s);
        |body| == 40 && forall n :: 0 <= n < |body| ==>
          '0' <= body[n] <= '9' || 'a' <= body[n] <= 'f' || 'A' <= body[n] <= 'F'
  {
    var body := StripPrefix(s);
    DecodableIff(body);
    forall n | 0 <= n < |body|
      ensures NibbleOf(body[n]).Some? <==>
              '0' <= body[n] <= '9' || 'a' <= body[n] <= 'f' || 'A' <= body[n] <= 'F'
    {
      NibbleSpelling(body[n]);
    }
    hide NibbleOf;
    hide Decode;
  }
}
