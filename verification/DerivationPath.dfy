/** The text form of key derivation paths. */
module DerivationPath {
  import opened Basics

  const HARDENED: nat := 0x8000_0000

  /** Unsigned 32-bit parsing: an optional plus sign, then at least one digit, no overflow. */
  function ParseU32(s: string): Option<nat> {
    var digits := if s != [] && s[0] == '+' then s[1..] else s;
    if digits == [] || !AllDigits(digits) || Value(digits) >= U32 then None else Some(Value(digits))
  }

  // ---- Segments ----

  /** Setting the top bit of a 32-bit number. */
  function Harden(n: nat): nat {
    if n < HARDENED then n + HARDENED else n
  }

  function ParseSegment(s: string): Option<nat>
    requires s != []
  {
    var last := s[|s| - 1];
    if last == '\'' || last == 'h' then
      match ParseU32(s[..|s| - 1])
      case None => None
      case Some(n) => Some(Harden(n))
    else ParseU32(s)
  }

  function PrintIndex(i: nat): string {
    if i >= HARDENED then Decimal(i - HARDENED) + ['\''] else Decimal(i)
  }

  lemma PrintedSegment(i: nat)
    requires i < U32
    ensures PrintIndex(i) != [] && '/' !in PrintIndex(i) && ParseSegment(PrintIndex(i)) == Some(i)
  {
    var n := if i >= HARDENED then i - HARDENED else i;
    DecimalValue(n);
    var s := PrintIndex(i);
    hide Decimal;
    hide Value;
    if i >= HARDENED {
      assert s[..|s| - 1] == Decimal(n);
    }
  }

  // ---- Splitting and joining ----

  /** Split at every slash; an empty text is one empty segment. */
  function Split(s: string): seq<string> {
    if s == [] then [[]]
    else if s[0] == '/' then [[]] + Split(s[1..])
    else
      var rest := Split(s[1..]);
      [[s[0]] + rest[0]] + rest[1..]
  }

  function Join(parts: seq<string>): string {
    if parts == [] then []
    else if |parts| == 1 then parts[0]
    else parts[0] + ['/'] + Join(parts[1..])
  }

  lemma {:induction false} SplitSegment(part: string, rest: string)
    requires '/' !in part
    ensures Split(part + ['/'] + rest) == [part] + Split(rest)
    ensures Split(part) == [part]
  {
    var s := part + ['/'] + rest;
    if part == [] {
      assert s[1..] == rest;
    } else {
      SplitSegment(part[1..], rest);
      assert s[1..] == part[1..] + ['/'] + rest;
      assert [part[0]] + part[1..] == part;
      assert ([part[1..]] + Split(rest))[1..] == Split(rest);
    }
  }

  lemma {:induction false} SplitJoin(parts: seq<string>)
    requires parts != [] && forall p <- parts :: '/' !in p
    ensures Split(Join(parts)) == parts
  {
    hide Split;
    if |parts| == 1 {
      SplitSegment(parts[0], []);
    } else {
      SplitJoin(parts[1..]);
      SplitSegment(parts[0], Join(parts[1..]));
      assert parts == [parts[0]] + parts[1..];
    }
  }

  // ---- Paths ----

  function ParseSegments(parts: seq<string>): Option<seq<nat>> {
    if parts == [] then Some([])
    else if parts[0] == [] then ParseSegments(parts[1..])
    else
      match ParseSegment(parts[0])
      case None => None
      case Some(i) =>
        match ParseSegments(parts[1..])
        case None => None
        case Some(rest) => Some([i] + rest)
  }

  function StripPrefix(s: string): string {
    if |s| >= 2 && s[..2] == "m/" then s[2..] else s
  }

  function Parse(s: string): Option<seq<nat>> {
    ParseSegments(Split(StripPrefix(s)))
  }

  function PrintAll(indices: seq<nat>): seq<string> {
    seq(|indices|, n requires 0 <= n < |indices| => PrintIndex(indices[n]))
  }

  function Print(indices: seq<nat>): string {
    "m/" + Join(PrintAll(indices))
  }

  ghost predicate AreIndices(indices: seq<nat>) {
    forall n :: 0 <= n < |indices| ==> indices[n] < U32
  }

  lemma {:induction false} ParsePrinted(indices: seq<nat>)
    requires AreIndices(indices)
    ensures ParseSegments(PrintAll(indices)) == Some(indices)
  {
    hide PrintIndex;
    hide ParseSegment;
    if indices != [] {
      PrintedSegment(indices[0]);
      ParsePrinted(indices[1..]);
      assert PrintAll(indices)[1..] == PrintAll(indices[1..]);
      assert indices == [indices[0]] + indices[1..];
    }
  }

  /** Parsing the printed form of any list of 32-bit indices gives the list back. */
  lemma ParseInvertsPrint(indices: seq<nat>)
    requires AreIndices(indices)
    ensures Parse(Print(indices)) == Some(indices)
  {
    hide ParseSegments;
    var parts := PrintAll(indices);
    assert StripPrefix(Print(indices)) == Join(parts);
    if indices == [] {
      EmptyPath();
    } else {
      forall p | p in parts
        ensures '/' !in p
      {
        var n :| 0 <= n < |parts| && parts[n] == p;
        PrintedSegment(indices[n]);
      }
      SplitJoin(parts);
      ParsePrinted(indices);
    }
  }

  lemma EmptyPath()
    ensures ParseSegments(Split([])) == Some([])
  {
    assert Split([]) == [[]];
  }

  lemma {:induction false} SegmentsAreIndices(parts: seq<string>)
    ensures ParseSegments(parts).Some? ==> AreIndices(ParseSegments(parts).value)
  {
    if parts != [] {
      SegmentsAreIndices(parts[1..]);
    }
  }

  /** Whatever text was accepted, printing and parsing again gives the same path: the printed form is a
      normal form, and different paths print differently. */
  lemma PrintIsNormalForm(s: string)
    requires Parse(s).Some?
    ensures AreIndices(Parse(s).value) && Parse(Print(Parse(s).value)) == Parse(s)
  {
    SegmentsAreIndices(Split(StripPrefix(s)));
    ParseInvertsPrint(Parse(s).value);
  }

  lemma PrintIsInjective(a: seq<nat>, b: seq<nat>)
    requires AreIndices(a) && AreIndices(b) && Print(a) == Print(b)
    ensures a == b
  {
    ParseInvertsPrint(a);
    ParseInvertsPrint(b);
  }

  /** The account path m/44'/60'/account'/change/index. */
  function Pyrax(account: nat, change: nat, index: nat): seq<nat> {
    [Harden(44), Harden(60), Harden(account), change, index]
  }

  /** Two account paths are the same exactly when change and index agree and the accounts agree up to the
      hardened bit, which the account number may already carry. */
  lemma PyraxPathsDiffer(a: nat, c: nat, i: nat, b: nat, d: nat, j: nat)
    requires a < U32 && b < U32 && c < U32 && d < U32 && i < U32 && j < U32
    ensures Print(Pyrax(a, c, i)) == Print(Pyrax(b, d, j)) <==> Harden(a) == Harden(b) && c == d && i == j
  {
    hide Print;
    assert AreIndices(Pyrax(a, c, i)) && AreIndices(Pyrax(b, d, j));
    if Print(Pyrax(a, c, i)) == Print(Pyrax(b, d, j)) {
      PrintIsInjective(Pyrax(a, c, i), Pyrax(b, d, j));
      assert Pyrax(a, c, i)[2] == Pyrax(b, d, j)[2];
      assert Pyrax(a, c, i)[3] == Pyrax(b, d, j)[3];
      assert Pyrax(a, c, i)[4] == Pyrax(b, d, j)[4];
    }
  }

  /** The printed text of an account path. */
  lemma PyraxText(account: nat, change: nat, index: nat)
    requires account < U32 && change < U32 && index < U32
    ensures
      var number := if account < 0x8000_0000 then account else account - 0x8000_0000;
      Print(Pyrax(account, change, index)) ==
        "m/44'/60'/" + Decimal(number) + "'/" + PrintIndex(change) + "/" + PrintIndex(index)
  {
    var number := if account < 0x8000_0000 then account else account - 0x8000_0000;
    CoinTypes();
    hide Decimal;
    var parts := PrintAll(Pyrax(account, change, index));
    assert parts[0] == "44'" && parts[1] == "60'" && parts[2] == Decimal(number) + "'";
    hide PrintIndex;
    JoinFive(parts);
    hide Join;
    PathText(parts[2], Decimal(number), parts[3], parts[4]);
  }

  lemma PathText(marked: string, number: string, change: string, index: string)
    requires marked == number + "'"
    ensures "m/" + ("44'" + "/" + "60'" + "/" + marked + "/" + change + "/" + index) ==
            "m/44'/60'/" + number + "'/" + change + "/" + index
  {
    assert "m/" + ("44'" + "/" + "60'" + "/") == "m/44'/60'/";
    assert "'" + "/" == "'/";
    assert "m/" + ("44'" + "/" + "60'" + "/" + marked + "/") == "m/44'/60'/" + number + "'/";
  }

  lemma JoinFive(parts: seq<string>)
    requires |parts| == 5
    ensures Join(parts) == parts[0] + "/" + parts[1] + "/" + parts[2] + "/" + parts[3] + "/" + parts[4]
  {
    assert Join(parts[4..]) == parts[4];
    assert parts[3..][1..] == parts[4..] && Join(parts[3..]) == parts[3] + "/" + parts[4];
    assert parts[2..][1..] == parts[3..] && Join(parts[2..]) == parts[2] + "/" + (parts[3] + "/" + parts[4]);
    assert parts[1..][1..] == parts[2..];
  }

  lemma CoinTypes()
    ensures Decimal(44) == "44" && Decimal(60) == "60"
  {
    assert Decimal(4) == "4" && Decimal(6) == "6";
  }

  // ---- Which texts are read, and as what ----

  /** An optional plus sign and at least one digit, spelling a 32-bit number. */
  ghost predicate Spells(s: string, n: nat) {
    exists digits: string :: digits != [] && AllDigits(digits) && Value(digits) == n < 0x1_0000_0000 &&
                             (s == digits || s == "+" + digits)
  }

  lemma ParseU32Iff(s: string, n: nat)
    ensures ParseU32(s) == Some(n) <==> Spells(s, n)
  {
    hide Value;
    var rest := if s != [] && s[0] == '+' then s[1..] else s;
    assert s == rest || s == "+" + rest;
    if digits: string :| digits != [] && AllDigits(digits) && Value(digits) == n < 0x1_0000_0000 &&
                         (s == digits || s == "+" + digits) {
      assert IsDigit(digits[0]);
      assert s == "+" + digits ==> s[1..] == digits;
      assert rest == digits;
    }
  }

  /** A segment reads as an index: a number, or a number with a closing mark, whose top bit is then set. */
  ghost predicate Reads(part: string, i: nat) {
    || Spells(part, i)
    || exists stem: string, n: nat ::
         && (part == stem + "'" || part == stem + "h") && Spells(stem, n)
         && i == if n < 0x8000_0000 then n + 0x8000_0000 else n
  }

  lemma SpelledLast(s: string, n: nat)
    requires Spells(s, n)
    ensures s != [] && IsDigit(s[|s| - 1])
  {
    hide Value;
    var digits: string :| digits != [] && AllDigits(digits) && Value(digits) == n < 0x1_0000_0000 &&
                          (s == digits || s == "+" + digits);
    assert s[|s| - 1] == digits[|digits| - 1];
  }

  lemma ParseSegmentIff(part: string, i: nat)
    requires part != []
    ensures ParseSegment(part) == Some(i) <==> Reads(part, i)
  {
    hide ParseU32;
    hide Spells;
    var stem, last := part[..|part| - 1], part[|part| - 1];
    assert part == stem + [last];
    ParseU32Iff(part, i);
    if Spells(part, i) {
      SpelledLast(part, i);
    }
    if last == '\'' || last == 'h' {
      assert part == stem + "'" || part == stem + "h";
      if n: nat :| ParseU32(stem) == Some(n) {
        ParseU32Iff(stem, n);
      }
      if stem': string, n: nat :|
         && (part == stem' + "'" || part == stem' + "h") && Spells(stem', n)
         && i == if n < 0x8000_0000 then n + 0x8000_0000 else n {
        assert stem' == stem;
        ParseU32Iff(stem, n);
      }
    } else {
      assert forall stem': string :: part != stem' + "'" && part != stem' + "h";
    }
  }

  function NonEmpty(parts: seq<string>): seq<string> {
    if parts == [] then []
    else if parts[0] == [] then NonEmpty(parts[1..])
    else [parts[0]] + NonEmpty(parts[1..])
  }

  ghost predicate AllRead(parts: seq<string>, indices: seq<nat>) {
    |parts| == |indices| && forall n :: 0 <= n < |parts| ==> Reads(parts[n], indices[n])
  }

  lemma {:induction false} ParseSegmentsIff(parts: seq<string>, indices: seq<nat>)
    ensures ParseSegments(parts) == Some(indices) <==> AllRead(NonEmpty(parts), indices)
  {
    hide ParseSegment;
    hide Reads;
    if parts != [] && parts[0] == [] {
      ParseSegmentsIff(parts[1..], indices);
    } else if parts != [] {
      var rest := NonEmpty(parts[1..]);
      if indices != [] {
        ParseSegmentIff(parts[0], indices[0]);
        ParseSegmentsIff(parts[1..], indices[1..]);
        assert indices == [indices[0]] + indices[1..];
        assert ([parts[0]] + rest)[1..] == rest;
        hide NonEmpty;
        hide ParseSegments;
        AllReadSplits(parts[0], rest, indices);
      }
    }
  }

  lemma AllReadSplits(part: string, rest: seq<string>, indices: seq<nat>)
    requires indices != []
    ensures AllRead([part] + rest, indices) <==> Reads(part, indices[0]) && AllRead(rest, indices[1..])
  {
    hide Reads;
    var all := [part] + rest;
    if Reads(part, indices[0]) && AllRead(rest, indices[1..]) {
      forall n | 0 <= n < |all|
        ensures Reads(all[n], indices[n])
      {
        assert n > 0 ==> all[n] == rest[n - 1] && indices[n] == indices[1..][n - 1];
      }
    }
    if AllRead(all, indices) {
      forall n | 0 <= n < |rest|
        ensures Reads(rest[n], indices[1..][n])
      {
        assert all[n + 1] == rest[n];
      }
    }
  }

  /** A text is read as a path if and only if its nonempty segments read as the indices, one by one. */
  lemma ParseIff(s: string, indices: seq<nat>)
    ensures Parse(s) == Some(indices) <==> AllRead(NonEmpty(Split(StripPrefix(s))), indices)
  {
    ParseSegmentsIff(Split(StripPrefix(s)), indices);
  }

  /** Splitting cuts at the slashes and nowhere else. */
  lemma {:induction false} JoinSplit(s: string)
    ensures Split(s) != [] && Join(Split(s)) == s && forall p <- Split(s) :: '/' !in p
  {
    if s != [] {
      JoinSplit(s[1..]);
      var rest := Split(s[1..]);
      assert s == [s[0]] + s[1..];
      if s[0] == '/' {
        assert ([[]] + rest)[1..] == rest;
      } else {
        assert rest == [rest[0]] + rest[1..];
        assert ([[s[0]] + rest[0]] + rest[1..])[1..] == rest[1..];
      }
    }
  }

  /** The prefix may be left out. */
  lemma PrefixIsOptional(s: string)
    requires !("m/" <= s)
    ensures Parse("m/" + s) == Parse(s)
  {
    assert ("m/" + s)[2..] == s;
    assert StripPrefix("m/" + s) == s && StripPrefix(s) == s;
  }

  // ---- The two marks ----

  lemma MarksAgree(s: string)
    ensures ParseSegment(s + "h") == ParseSegment(s + "'")
  {
    assert (s + "h")[..|s|] == s && (s + "'")[..|s|] == s;
  }

  /** Write the closing mark of a segment as a tick. */
  function Ticked(part: string): string {
    if part != [] && part[|part| - 1] == 'h' then part[..|part| - 1] + "'" else part
  }

  function TickedAll(parts: seq<string>): seq<string> {
    if parts == [] then [] else [Ticked(parts[0])] + TickedAll(parts[1..])
  }

  /** Write every h that closes a segment as a tick. */
  function TickedText(s: string): string {
    if s == [] then []
    else [if s[0] == 'h' && (|s| == 1 || s[1] == '/') then '\'' else s[0]] + TickedText(s[1..])
  }

  lemma SplitFirst(s: string)
    ensures Split(s) != [] && (Split(s)[0] == [] <==> s == [] || s[0] == '/')
  {
  }

  lemma {:induction false} TickedSplit(s: string)
    ensures Split(TickedText(s)) == TickedAll(Split(s))
  {
    if s != [] {
      var t, rest := TickedText(s), Split(s[1..]);
      TickedSplit(s[1..]);
      SplitFirst(s[1..]);
      assert t[1..] == TickedText(s[1..]);
      if s[0] == '/' {
        assert ([[]] + rest)[1..] == rest;
      } else {
        var part := [s[0]] + rest[0];
        assert Split(s) == [part] + rest[1..] && ([part] + rest[1..])[1..] == rest[1..];
        assert TickedAll(rest)[1..] == TickedAll(rest[1..]);
        TickedCons(s[0], rest[0]);
      }
    }
  }

  lemma TickedCons(c: char, part: string)
    ensures Ticked([c] + part) ==
            [if c == 'h' && part == [] then '\'' else c] + Ticked(part)
  {
    var all := [c] + part;
    if part != [] {
      assert all[..|all| - 1] == [c] + part[..|part| - 1];
    } else {
      assert all[..0] == [];
    }
  }

  lemma {:induction false} TickedSegments(parts: seq<string>)
    ensures ParseSegments(TickedAll(parts)) == ParseSegments(parts)
  {
    if parts != [] {
      TickedSegments(parts[1..]);
      var part := parts[0];
      assert TickedAll(parts)[1..] == TickedAll(parts[1..]);
      if part != [] && part[|part| - 1] == 'h' {
        MarksAgree(part[..|part| - 1]);
        assert part == part[..|part| - 1] + "h";
      }
      hide ParseSegment;
    }
  }

  /** It makes no difference which of the two marks closes a hardened segment. */
  lemma {:induction false} MarksAreInterchangeable(s: string)
    ensures Parse(TickedText(s)) == Parse(s)
  {
    var body := StripPrefix(s);
    TickedPrefix(s);
    TickedSplit(body);
    TickedSegments(Split(body));
  }

  lemma TickedPrefix(s: string)
    ensures StripPrefix(TickedText(s)) == TickedText(StripPrefix(s))
  {
    if |s| >= 2 {
      assert TickedText(s)[1..] == TickedText(s[1..]) && TickedText(s[1..])[1..] == TickedText(s[2..]) by {
        assert s[1..][1..] == s[2..];
      }
      assert TickedText(s)[2..] == TickedText(s)[1..][1..];
      assert TickedText(s)[1] == TickedText(s)[1..][0];
      assert s[..2] == "m/" <==> s[0] == 'm' && s[1] == '/';
      var t := TickedText(s);
      assert t[..2] == "m/" <==> t[0] == 'm' && t[1] == '/';
    } else if |s| == 1 {
      assert TickedText(s[1..]) == [];
    }
  }

  /** A marked number is read with its top bit set. */
  lemma MarkedIsHardened(n: nat)
    requires n < U32
    ensures Parse("m/" + Decimal(n) + "h") == Some([if n < 0x8000_0000 then n + 0x8000_0000 else n])
  {
    DecimalValue(n);
    var part := Decimal(n) + "h";
    hide Decimal;
    hide Value;
    assert Spells(Decimal(n), n);
    hide Spells;
    var i := if n < 0x8000_0000 then n + 0x8000_0000 else n;
    assert Reads(part, i);
    hide Reads;
    SplitSegment(part, []);
    assert ("m/" + Decimal(n) + "h")[..2] == "m/" && ("m/" + Decimal(n) + "h")[2..] == part;
    assert NonEmpty([part]) == [part] by { assert [part][1..] == []; }
    ParseIff("m/" + Decimal(n) + "h", [i]);
  }
}
