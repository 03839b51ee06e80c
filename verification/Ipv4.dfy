/** IPv4 literals in every inet_aton spelling, and the blocks that are not global. */
module Ipv4 {

  import opened Base
  import opened Bits
  import opened Text
  import opened Numerals

  datatype Octets = Octets(a: nat, b: nat, c: nat, d: nat)

  /** The four octets of a 32-bit value, most significant first. */
  function OctetsOf(n: nat): Octets {
    Octets(n / 0x100_0000, n / 0x1_0000 % 0x100, n / 0x100 % 0x100, n % 0x100)
  }

  function ValueOf(o: Octets): nat {
    o.a * 0x100_0000 + o.b * 0x1_0000 + o.c * 0x100 + o.d
  }

  lemma OctetsReadBack(n: nat)
    ensures ValueOf(OctetsOf(n)) == n
  {
    QuotientsChain(n);
  }

  /** Dividing by whole octets, one octet at a time. */
  lemma QuotientsChain(n: nat)
    ensures n / 0x1_0000 == n / 0x100 / 0x100 && n / 0x100_0000 == n / 0x100 / 0x100 / 0x100
  {
    var p := n / 0x100;
    var q := p / 0x100;
    var r := q / 0x100;
    assert n == 0x100 * p + n % 0x100 && p == 0x100 * q + p % 0x100 && q == 0x100 * r + q % 0x100;
  }

  predicate AllNumerals(parts: seq<string>) {
    forall i | 0 <= i < |parts| :: ParseUint(parts[i]).Some?
  }

  function Values(parts: seq<string>): (nums: seq<nat>)
    requires AllNumerals(parts)
    ensures |nums| == |parts|
    ensures forall i | 0 <= i < |parts| :: nums[i] == ParseUint(parts[i]).value
  {
    seq(|parts|, i requires 0 <= i < |parts| => ParseUint(parts[i]).value)
  }

  /**
   * The number that dotted parts denote: every part but the last is one octet, and the last one
   * fills the remaining `width` octets.
   */
  function Aton(nums: seq<nat>, width: nat): Option<nat>
    requires 1 <= |nums| <= width
    decreases |nums|
  {
    if |nums| == 1 then
      if nums[0] < Pow2(8 * width) then Some(nums[0]) else None
    else
      var rest := Aton(nums[1..], width - 1);
      if nums[0] < 256 && rest.Some? then Some(Shl(nums[0], 8 * (width - 1)) + rest.value) else None
  }

  /** What the parser computes, stated without its case per number of parts. */
  function ParseIpv4(input: string): Option<Octets> {
    var parts := Split(Trim(input), '.');
    if |parts| > 4 || !AllNumerals(parts) then None
    else
      match Aton(Values(parts), 4)
      case None => None
      case Some(n) => Some(OctetsOf(n))
  }

  lemma Powers()
    ensures Pow2(0) == 1 && Pow2(8) == 0x100 && Pow2(16) == 0x1_0000 && Pow2(24) == 0x100_0000
    ensures Pow2(32) == 0x1_0000_0000
  {
    ShiftByEight(1);
    ShiftBySixteen(1);
    ShiftByTwentyFour(1);
    ShiftsAdd(1, 16, 16);
    ShiftBySixteen(0x1_0000);
  }

  lemma AtonOfOne(a: nat)
    ensures Aton([a], 4) == if a <= 0xffff_ffff then Some(a) else None
    ensures Aton([a], 3) == if a <= 0xff_ffff then Some(a) else None
    ensures Aton([a], 2) == if a <= 0xffff then Some(a) else None
    ensures Aton([a], 1) == if a <= 0xff then Some(a) else None
  {
    Powers();
  }

  lemma AtonOfTwo(a: nat, b: nat)
    ensures Aton([a, b], 4) == if a <= 0xff && b <= 0xff_ffff then Some(a * 0x100_0000 + b) else None
    ensures Aton([a, b], 3) == if a <= 0xff && b <= 0xffff then Some(a * 0x1_0000 + b) else None
    ensures Aton([a, b], 2) == if a <= 0xff && b <= 0xff then Some(a * 0x100 + b) else None
  {
    AtonOfOne(b);
    assert [a] + [b] == [a, b];
    ShiftByTwentyFour(a);
    ShiftBySixteen(a);
    ShiftByEight(a);
  }

  lemma AtonOfThree(a: nat, b: nat, c: nat)
    ensures Aton([a, b, c], 4) ==
            if a <= 0xff && b <= 0xff && c <= 0xffff then Some(a * 0x100_0000 + b * 0x1_0000 + c) else None
    ensures Aton([a, b, c], 3) ==
            if a <= 0xff && b <= 0xff && c <= 0xff then Some(a * 0x1_0000 + b * 0x100 + c) else None
  {
    AtonOfTwo(b, c);
    assert [a] + [b, c] == [a, b, c];
    ShiftByTwentyFour(a);
    ShiftBySixteen(a);
  }

  lemma AtonOfFour(a: nat, b: nat, c: nat, d: nat)
    ensures Aton([a, b, c, d], 4) ==
            if a <= 0xff && b <= 0xff && c <= 0xff && d <= 0xff then Some(ValueOf(Octets(a, b, c, d))) else None
  {
    AtonOfThree(b, c, d);
    assert [a] + [b, c, d] == [a, b, c, d];
    ShiftByTwentyFour(a);
  }

  lemma BlockSizes()
    ensures Pow2(8) == 0x100 && Pow2(16) == 0x1_0000 && Pow2(17) == 0x2_0000 && Pow2(20) == 0x10_0000
    ensures Pow2(22) == 0x40_0000 && Pow2(24) == 0x100_0000 && Pow2(29) == 0x2000_0000
  {
    Powers();
    assert Pow2(18) == 2 * Pow2(17);
    assert Pow2(19) == 2 * Pow2(18);
    assert Pow2(21) == 2 * Pow2(20);
    assert Pow2(26) == 4 * Pow2(24);
    assert Pow2(28) == 4 * Pow2(26);
  }

  /** One octet of a word, taken out with a shift and a mask. */
  method OctetAt(n: nat, shift: nat) returns (octet: nat)
    requires n <= 0xffff_ffff
    ensures octet == Shr(n, shift) % 0x100
  {
    LowOctet(Shr(n, shift));
    octet := And(Shr(n, shift), 0xff);
  }

  /** The range check of the form without dots. */
  method FromWord(n: nat) returns (r: Option<Octets>)
    ensures match Aton([n], 4) case None => r == None case Some(v) => r == Some(OctetsOf(v))
  {
    AtonOfOne(n);
    ShiftByEight(n);
    ShiftBySixteen(n);
    ShiftByTwentyFour(n);
    if n > 0xffff_ffff {
      return None;
    }
    var a := OctetAt(n, 24);
    var b := OctetAt(n, 16);
    var c := OctetAt(n, 8);
    var d := OctetAt(n, 0);
    return Some(Octets(a, b, c, d));
  }

  lemma SingleIsParsed(input: string, n: nat)
    requires ParseUint(Trim(input)) == Some(n) && '.' !in Trim(input)
    ensures ParseIpv4(input) == match Aton([n], 4) case None => None case Some(v) => Some(OctetsOf(v))
  {
    var s := Trim(input);
    SplitOfPlain(s, '.');
    assert AllNumerals([s]) && Values([s]) == [n];
  }

  lemma OnePartIsWhole(s: string)
    ensures |Split(s, '.')| == 1 ==> Split(s, '.') == [s] && '.' !in s
  {
    JoinOfSplit(s, '.');
    SplitHasNoSeparator(s, '.');
  }

  /** Parses a host that may be any numeric spelling of an IPv4 address. */
  method ParseToIpv4(input: string) returns (r: Option<Octets>)
    ensures r == ParseIpv4(input)
  {
    var s := Trim(input);
    if s == "" {
      return None;
    }
    var single := ParseUint(s);
    if single.Some? && '.' !in s {
      SingleIsParsed(input, single.value);
      r := FromWord(single.value);
      return;
    }

    var parts := Split(s, '.');
    if |parts| < 2 || |parts| > 4 {
      OnePartIsWhole(s);
      return None;
    }
    var nums := ReadParts(parts);
    if nums == None {
      return None;
    }
    r := FromNumbers(nums.value);
  }

  /** Reads the parts one by one, as far as they are numerals. */
  method ReadParts(parts: seq<string>) returns (r: Option<seq<nat>>)
    ensures r == if AllNumerals(parts) then Some(Values(parts)) else None
  {
    var nums: seq<nat> := [];
    for i := 0 to |parts|
      invariant AllNumerals(parts[..i]) && nums == Values(parts[..i])
    {
      var n := ParseUint(parts[i]);
      if n == None {
        return None;
      }
      nums := nums + [n.value];
      assert parts[..i + 1] == parts[..i] + [parts[i]];
    }
    assert parts[..|parts|] == parts;
    return Some(nums);
  }

  /** The range checks of the dotted forms, one per number of parts. */
  method FromNumbers(nums: seq<nat>) returns (r: Option<Octets>)
    requires 2 <= |nums| <= 4
    ensures match Aton(nums, 4) case None => r == None case Some(n) => r == Some(OctetsOf(n))
  {
    if |nums| == 4 {
      r := FromFour(nums[0], nums[1], nums[2], nums[3]);
      assert nums == [nums[0], nums[1], nums[2], nums[3]];
    } else if |nums| == 3 {
      r := FromThree(nums[0], nums[1], nums[2]);
      assert nums == [nums[0], nums[1], nums[2]];
    } else {
      r := FromTwo(nums[0], nums[1]);
      assert nums == [nums[0], nums[1]];
    }
  }

  lemma OctetsOfSum(a: nat, b: nat, c: nat, d: nat)
    ensures a <= 0xff && b <= 0xff && c <= 0xff && d <= 0xff ==>
              OctetsOf(ValueOf(Octets(a, b, c, d))) == Octets(a, b, c, d)
  {
    if a <= 0xff && b <= 0xff && c <= 0xff && d <= 0xff {
      var n := ValueOf(Octets(a, b, c, d));
      assert n / 0x100 == a * 0x1_0000 + b * 0x100 + c;
      assert (a * 0x1_0000 + b * 0x100 + c) / 0x100 == a * 0x100 + b;
      QuotientsChain(n);
    }
  }

  method FromFour(a: nat, b: nat, c: nat, d: nat) returns (r: Option<Octets>)
    ensures match Aton([a, b, c, d], 4) case None => r == None case Some(n) => r == Some(OctetsOf(n))
  {
    AtonOfFour(a, b, c, d);
    OctetsOfSum(a, b, c, d);
    if a > 0xff || b > 0xff || c > 0xff || d > 0xff {
      return None;
    }
    return Some(Octets(a, b, c, d));
  }

  /** a.b.c is a.b. followed by c as 16 bits. */
  method FromThree(a: nat, b: nat, c: nat) returns (r: Option<Octets>)
    ensures match Aton([a, b, c], 4) case None => r == None case Some(n) => r == Some(OctetsOf(n))
  {
    AtonOfThree(a, b, c);
    ShiftByEight(c);
    if a > 0xff || b > 0xff || c > 0xffff {
      return None;
    }
    var high := OctetAt(c, 8);
    var low := OctetAt(c, 0);
    TwoOctets(a, b, c);
    return Some(Octets(a, b, high, low));
  }

  lemma TwoOctets(a: nat, b: nat, c: nat)
    requires a <= 0xff && b <= 0xff && c <= 0xffff
    ensures OctetsOf(a * 0x100_0000 + b * 0x1_0000 + c) == Octets(a, b, c / 0x100 % 0x100, c % 0x100)
  {
    assert c == c / 0x100 * 0x100 + c % 0x100;
    OctetsOfSum(a, b, c / 0x100, c % 0x100);
  }

  /** a.b is a. followed by b as 24 bits. */
  method FromTwo(a: nat, b: nat) returns (r: Option<Octets>)
    ensures match Aton([a, b], 4) case None => r == None case Some(n) => r == Some(OctetsOf(n))
  {
    AtonOfTwo(a, b);
    ShiftByEight(b);
    ShiftBySixteen(b);
    if a > 0xff || b > 0xff_ffff {
      return None;
    }
    var high := OctetAt(b, 16);
    var middle := OctetAt(b, 8);
    var low := OctetAt(b, 0);
    OctetsOfSum(a, high, middle, low);
    ThreeOctets(b);
    return Some(Octets(a, high, middle, low));
  }

  lemma ThreeOctets(b: nat)
    requires b <= 0xff_ffff
    ensures b == b / 0x1_0000 % 0x100 * 0x1_0000 + b / 0x100 % 0x100 * 0x100 + b % 0x100
  {
    QuotientsChain(b);
  }

  ghost predicate Spells(parts: seq<string>, nums: seq<nat>) {
    |parts| == |nums| && forall i | 0 <= i < |parts| :: IsNumeral(parts[i], nums[i])
  }

  /** One to four numerals joined by dots, of any notation each, that together denote n. */
  ghost predicate IsIpv4Spelling(s: string, n: nat) {
    exists parts: seq<string>, nums: seq<nat> :: SpellsAs(s, parts, nums, n)
  }

  ghost predicate SpellsAs(s: string, parts: seq<string>, nums: seq<nat>, n: nat) {
    1 <= |nums| <= 4 && Spells(parts, nums) && s == Join(parts, '.') && Aton(nums, 4) == Some(n)
  }

  lemma SpelledParts(parts: seq<string>, nums: seq<nat>)
    requires |nums| >= 1 && Spells(parts, nums)
    ensures AllNumerals(parts) && Values(parts) == nums && Split(Join(parts, '.'), '.') == parts
  {
    forall i | 0 <= i < |parts|
      ensures ParseUint(parts[i]) == Some(nums[i]) && '.' !in parts[i]
    {
      ReadIffNumeral(parts[i], nums[i]);
      NumeralCharacters(parts[i]);
    }
    SplitOfJoin(parts, '.');
  }

  lemma {:induction false} AtonBelow(nums: seq<nat>, width: nat)
    requires 1 <= |nums| <= width && Aton(nums, width).Some?
    ensures Aton(nums, width).value < Pow2(8 * width)
    decreases |nums|
  {
    if |nums| > 1 {
      AtonBelow(nums[1..], width - 1);
      var k := 8 * (width - 1);
      ShlOrder(nums[0], 256, Aton(nums[1..], width - 1).value, k);
      ShiftsAdd(1, 8, k);
      ShiftByEight(1);
    }
  }

  lemma SpellingIsParsed(s: string, n: nat)
    requires IsIpv4Spelling(Trim(s), n)
    ensures n <= 0xffff_ffff && ParseIpv4(s) == Some(OctetsOf(n))
  {
    var parts, nums :| SpellsAs(Trim(s), parts, nums, n);
    SpelledParts(parts, nums);
    AtonBelow(nums, 4);
    Powers();
  }

  /** The parser accepts exactly the inet_aton spellings, each with the octets of its value. */
  lemma ParsedIffSpelling(s: string, n: nat)
    ensures (n <= 0xffff_ffff && ParseIpv4(s) == Some(OctetsOf(n))) <==> IsIpv4Spelling(Trim(s), n)
  {
    var t := Trim(s);
    var parts := Split(t, '.');
    if ParseIpv4(s) == Some(OctetsOf(n)) {
      var nums := Values(parts);
      JoinOfSplit(t, '.');
      OctetsReadBack(n);
      OctetsReadBack(Aton(nums, 4).value);
      forall i | 0 <= i < |parts|
        ensures IsNumeral(parts[i], nums[i])
      {
        ReadIffNumeral(parts[i], nums[i]);
      }
      assert SpellsAs(t, parts, nums, n);
    }
    if IsIpv4Spelling(t, n) {
      SpellingIsParsed(s, n);
    }
  }

  /** The numbers that spell n in k parts. */
  function PartValues(n: nat, k: nat): (nums: seq<nat>)
    requires 1 <= k <= 4 && n <= 0xffff_ffff
    ensures |nums| == k
  {
    if k == 1 then [n]
    else if k == 2 then [n / 0x100_0000, n % 0x100_0000]
    else if k == 3 then [n / 0x100_0000, n / 0x1_0000 % 0x100, n % 0x1_0000]
    else [n / 0x100_0000, n / 0x1_0000 % 0x100, n / 0x100 % 0x100, n % 0x100]
  }

  /**
   * Each value has a spelling in one, two, three and four parts, and whatever notation each part
   * is written in, the parser reads the big-endian octets of the value.
   */
  lemma EverySpellingIsRead(n: nat, k: nat, parts: seq<string>)
    requires n <= 0xffff_ffff && 1 <= k <= 4 && Spells(parts, PartValues(n, k))
    ensures IsIpv4Spelling(Join(parts, '.'), n)
    ensures ParseIpv4(Join(parts, '.')) == Some(OctetsOf(n))
  {
    var nums := PartValues(n, k);
    AtonOfParts(n, k);
    var s := Join(parts, '.');
    assert SpellsAs(s, parts, nums, n);
    SpellingIsTrimmed(s, n);
    TrimmedStays(s);
    ParsedIffSpelling(s, n);
  }

  lemma AtonOfParts(n: nat, k: nat)
    requires n <= 0xffff_ffff && 1 <= k <= 4
    ensures Aton(PartValues(n, k), 4) == Some(n)
  {
    OctetsReadBack(n);
    QuotientsChain(n);
    if k == 1 {
      AtonOfOne(n);
    } else if k == 2 {
      AtonOfTwo(n / 0x100_0000, n % 0x100_0000);
    } else if k == 3 {
      AtonOfThreeParts(n);
    } else {
      AtonOfFour(n / 0x100_0000, n / 0x1_0000 % 0x100, n / 0x100 % 0x100, n % 0x100);
    }
  }

  lemma AtonOfThreeParts(n: nat)
    requires n <= 0xffff_ffff
    ensures Aton(PartValues(n, 3), 4) == Some(n)
  {
    var q := n / 0x1_0000;
    QuotientsChain(n);
    assert n / 0x100_0000 == q / 0x100;
    AtonOfThree(q / 0x100, q % 0x100, n % 0x1_0000);
  }

  /** Spellings consist of numeral characters and dots. */
  lemma SpellingCharacters(s: string, n: nat)
    requires IsIpv4Spelling(s, n)
    ensures s != "" && forall c | c in s :: NumeralChar(c) || c == '.'
  {
    var parts, nums :| SpellsAs(s, parts, nums, n);
    SpelledParts(parts, nums);
    NumeralCharacters(parts[0]);
    PartCharacters(parts, '.', parts[0], parts[0][0]);
    forall c | c in s
      ensures NumeralChar(c) || c == '.'
    {
      JoinCharacters(parts, '.', c);
      if c != '.' {
        var p :| p in parts && c in p;
        NumeralCharacters(p);
      }
    }
  }

  lemma SpellingIsTrimmed(s: string, n: nat)
    requires IsIpv4Spelling(s, n)
    ensures s != "" && IsTrimmed(s)
  {
    SpellingCharacters(s, n);
    assert s[0] in s && s[|s| - 1] in s;
  }

  lemma {:induction false} LowerOfJoin(parts: seq<string>, lowered: seq<string>)
    requires |lowered| == |parts| && forall i | 0 <= i < |parts| :: lowered[i] == Lower(parts[i])
    ensures Lower(Join(parts, '.')) == Join(lowered, '.')
  {
    if |parts| > 1 {
      LowerOfJoin(parts[1..], lowered[1..]);
      var rest := Join(parts[1..], '.');
      assert Lower(['.']) == ['.'];
    }
  }

  lemma SpellingIgnoresCase(s: string, n: nat)
    requires IsIpv4Spelling(s, n)
    ensures IsIpv4Spelling(Lower(s), n)
  {
    var parts, nums :| SpellsAs(s, parts, nums, n);
    var lowered := seq(|parts|, i requires 0 <= i < |parts| => Lower(parts[i]));
    LowerOfJoin(parts, lowered);
    forall i | 0 <= i < |parts|
      ensures IsNumeral(lowered[i], nums[i])
    {
      NumeralIgnoresCase(parts[i], nums[i]);
    }
    assert SpellsAs(Lower(s), lowered, nums, n);
  }

  // ---------------------------------------------------------------------------------- verdicts

  /** The octet tests of isGlobalIpv4. */
  predicate IsGlobalIpv4(o: Octets) {
    var a, b := o.a, o.b;
    if a == 0 then false
    else if a == 10 then false
    else if a == 127 then false
    else if a == 169 && b == 254 then false
    else if a == 172 && 16 <= b <= 31 then false
    else if a == 192 && b == 168 then false
    else if a == 192 && b == 0 && o.c == 0 then false
    else if a == 100 && 64 <= b <= 127 then false
    else if a == 198 && (b == 18 || b == 19) then false
    else if a >= 224 then false
    else if a == 255 && b == 255 then false
    else true
  }

  /** The addresses from `first` that share its leading `length` bits. */
  datatype Block = Block(first: nat, length: nat)

  predicate InBlock4(n: nat, b: Block)
    requires b.length <= 32
  {
    b.first <= n < b.first + Pow2(32 - b.length)
  }

  /** 0/8, 10/8, 127/8, 169.254/16, 172.16/12, 192.168/16, 192.0.0/24, 100.64/10, 198.18/15 and 224/3. */
  const BLOCKED_4: seq<Block> := [
    Block(0x0000_0000, 8), Block(0x0A00_0000, 8), Block(0x7F00_0000, 8), Block(0xA9FE_0000, 16),
    Block(0xAC10_0000, 12), Block(0xC0A8_0000, 16), Block(0xC000_0000, 24), Block(0x6440_0000, 10),
    Block(0xC612_0000, 15), Block(0xE000_0000, 3)
  ]

  ghost predicate InAnyBlock4(n: nat) {
    exists i | 0 <= i < |BLOCKED_4| :: InBlock4(n, BLOCKED_4[i])
  }

  lemma BlockHoldsNoGlobal(n: nat, i: nat)
    requires n <= 0xffff_ffff && i < |BLOCKED_4| && InBlock4(n, BLOCKED_4[i])
    ensures !IsGlobalIpv4(OctetsOf(n))
  {
    BlockSizes();
    OctetsReadBack(n);
    var b := BLOCKED_4[i];
    assert b in BLOCKED_4;
    OctetsWithin(n, OctetsOf(n), b.first, b.first + Pow2(32 - b.length));
  }

  /** The leading octets of a value between two bounds that are whole blocks. */
  lemma OctetsWithin(n: nat, o: Octets, first: nat, end: nat)
    requires n == ValueOf(o) && o.b <= 255 && o.c <= 255 && o.d <= 255 && first <= n < end
    ensures first / 0x100_0000 <= o.a && o.a * 0x100_0000 < end
    ensures first <= o.a * 0x100_0000 + o.b * 0x1_0000 + 0xffff && o.a * 0x100_0000 + o.b * 0x1_0000 < end
    ensures first <= o.a * 0x100_0000 + o.b * 0x1_0000 + o.c * 0x100 + 0xff
    ensures o.a * 0x100_0000 + o.b * 0x1_0000 + o.c * 0x100 < end
  {
  }

  lemma BlockOfOctets(n: nat) returns (i: nat)
    requires n <= 0xffff_ffff && !IsGlobalIpv4(OctetsOf(n))
    ensures i < |BLOCKED_4| && InBlock4(n, BLOCKED_4[i])
  {
    BlockSizes();
    var o := OctetsOf(n);
    OctetsReadBack(n);
    i := if o.a == 0 then 0 else if o.a == 10 then 1 else if o.a == 127 then 2
      else if o.a == 169 then 3 else if o.a == 172 then 4 else if o.a == 192 && o.b == 168 then 5
      else if o.a == 192 then 6 else if o.a == 100 then 7 else if o.a == 198 then 8 else 9;
  }

  /** A 32-bit address is global exactly when it lies in none of the listed blocks. */
  lemma GlobalIffOutsideBlocks4(n: nat)
    requires n <= 0xffff_ffff
    ensures IsGlobalIpv4(OctetsOf(n)) <==> !InAnyBlock4(n)
  {
    if !IsGlobalIpv4(OctetsOf(n)) {
      var i := BlockOfOctets(n);
    }
    if InAnyBlock4(n) {
      var i :| 0 <= i < |BLOCKED_4| && InBlock4(n, BLOCKED_4[i]);
      BlockHoldsNoGlobal(n, i);
    }
  }
}
